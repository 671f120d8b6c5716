/** What one call of `usb_audio_transmit_callback` (teensy4/usb_audio.cpp:445-509)
    leaves in the 16-bit transmit buffer, on abstract values: the wire image of the
    frames drained from the double buffer, then, when the queue ran dry, the zero fill
    of line 470 exactly as written — it starts at 16-bit position `len` although the
    data of the next frame would start at `8*len`. */
module Packetizer {
  import opened Words
  import opened DoubleBuffer

  /** The number of frames a packet with sample target `target` takes from the queue:
      the target, or everything pending when that is less. */
  function Drained(q: TxQueue, n: nat, target: nat): (k: nat)
    requires QueueWf(q, n)
    ensures k <= target && k <= |Pending(q, n)|
    ensures k == target || k == |Pending(q, n)|
  {
    var p := |Pending(q, n)|;
    if p < target then p else target
  }

  /** `memset` of `count` 16-bit values from position `at`. */
  function Zeroed(buf: seq<uint16>, at: nat, count: nat): (r: seq<uint16>)
    requires at + count <= |buf|
    ensures |r| == |buf|
    ensures forall i :: 0 <= i < |r| ==> r[i] == if at <= i < at + count then 0 else buf[i]
  {
    buf[..at] + seq(count, _ => 0) + buf[at + count..]
  }

  /** The buffer `buf` after `k` frames of `fs` were copied to its start. */
  function Written(buf: seq<uint16>, fs: seq<Frame>, k: nat): (r: seq<uint16>)
    requires k <= |fs| && 8 * k <= |buf|
    requires forall j :: 0 <= j < |fs| ==> |fs[j]| == Channels
    ensures |r| == |buf|
  {
    Wire(fs[..k]) + buf[8 * k..]
  }

  /** Copying the next `num` frames behind the first `len` extends the written prefix. */
  lemma WrittenGrow(buf: seq<uint16>, fs: seq<Frame>, len: nat, num: nat, before: seq<uint16>, after: seq<uint16>)
    requires len + num <= |fs| && 8 * (len + num) <= |buf|
    requires forall j :: 0 <= j < |fs| ==> |fs[j]| == Channels
    requires before == Written(buf, fs, len)
    requires after == before[..8 * len] + Wire(fs[len..len + num]) + before[8 * (len + num)..]
    ensures after == Written(buf, fs, len + num)
  {
    assert fs[..len + num] == fs[..len] + fs[len..len + num];
    WireAppend(fs[..len], fs[len..len + num]);
    assert before[..8 * len] == Wire(fs[..len]);
    assert before[8 * (len + num)..] == buf[8 * (len + num)..];
  }

  /** The transmit buffer after a packet of `target` frames drawn from `q` (blocks of
      `n` samples): the first `Drained` pending frames as their wire image, and when the
      queue ran dry before the target, `8 * (target - k)` zeros from position `k`. */
  function PacketImage(buf: seq<uint16>, q: TxQueue, n: nat, target: nat): (r: seq<uint16>)
    requires QueueWf(q, n) && 8 * target <= |buf|
    ensures |r| == |buf|
  {
    var k := Drained(q, n, target);
    var w := Written(buf, Pending(q, n), k);
    if k < target then Zeroed(w, k, 8 * (target - k)) else w
  }

  /** A packet loop that stopped after `len` frames, at the target or with the queue
      empty, drained `Drained` frames and left the packet image. */
  lemma PacketAfter(buf: seq<uint16>, q: TxQueue, n: nat, target: nat, len: nat)
    requires QueueWf(q, n) && 8 * target <= |buf| && len <= target && len <= |Pending(q, n)|
    requires len == target || len == |Pending(q, n)|
    ensures Drained(q, n, target) == len
    ensures PacketImage(buf, q, n, target)
            == var w := Written(buf, Pending(q, n), len);
               if len < target then Zeroed(w, len, 8 * (target - len)) else w
  {
  }

  /** With enough pending, the packet carries the next `target` frames in order and the
      rest of the buffer is untouched. */
  lemma FullPacket(buf: seq<uint16>, q: TxQueue, n: nat, target: nat)
    requires QueueWf(q, n) && 8 * target <= |buf| && target <= |Pending(q, n)|
    ensures PacketImage(buf, q, n, target)[..8 * target] == Wire(Pending(q, n)[..target])
    ensures PacketImage(buf, q, n, target)[8 * target..] == buf[8 * target..]
  {
  }

  /** An underrun at the start of the packet (nothing queued) sends `8 * target` zeros
      and touches nothing after them. */
  lemma EmptyQueueSendsSilence(buf: seq<uint16>, q: TxQueue, n: nat, target: nat)
    requires QueueWf(q, n) && 8 * target <= |buf| && q.outgoing.None?
    ensures forall i :: 0 <= i < 8 * target ==> PacketImage(buf, q, n, target)[i] == 0
    ensures PacketImage(buf, q, n, target)[8 * target..] == buf[8 * target..]
  {
    assert Pending(q, n) == [];
    assert Pending(q, n)[..0] == [];
  }

  /** An underrun in the middle of a packet, after `k` frames were copied: the zero fill
      runs from 16-bit position `k` (inside the first frame) to `8 * target - 7 * k`, so
      it overwrites frames just copied, and from there to `8 * target` the packet holds
      copied data or, past `8 * k`, whatever the buffer held before. */
  lemma LateUnderrunOverwritesFrames(buf: seq<uint16>, q: TxQueue, n: nat, target: nat)
    requires QueueWf(q, n) && 8 * target <= |buf|
    requires 0 < |Pending(q, n)| < target
    ensures var k := |Pending(q, n)|;
            var r := PacketImage(buf, q, n, target);
            && r[..k] == Wire(Pending(q, n))[..k]
            && (forall i :: k <= i < 8 * target - 7 * k ==> r[i] == 0)
            && (forall i :: 8 * target - 7 * k <= i < 8 * target ==>
                  r[i] == if i < 8 * k then Wire(Pending(q, n))[i] else buf[i])
  {
    var k := |Pending(q, n)|;
    var w := Written(buf, Pending(q, n), k);
    assert Pending(q, n)[..k] == Pending(q, n);
    assert w[..8 * k] == Wire(Pending(q, n));
    assert forall i :: 8 * k <= i < |buf| ==> w[i] == buf[i];
  }
}
