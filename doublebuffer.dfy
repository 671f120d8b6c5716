/** The transmit double buffer of usb_audio.cpp on abstract values: per channel an
    `outgoing` block being drained into the wire and a `ready` block next in line, all
    eight channels in lockstep, read from `offset_1st`. */
module DoubleBuffer {
  import opened Words

  /** AUDIO_CHANNELS: copy_from_buffers (teensy4/usb_audio.cpp:324-334, 489) takes
      exactly eight block pointers. */
  const Channels: nat := 8

  /** One sample per channel: what one sample period puts on the wire. */
  type Frame = seq<int16>

  /** The contents of one block per channel. */
  type ChannelSet = seq<seq<int16>>

  ghost predicate IsChannelSet(s: ChannelSet, n: nat)
  {
    |s| == Channels && forall c :: 0 <= c < Channels ==> |s[c]| == n
  }

  /** Samples `from` up to (excluding) `to` of every channel, as frames. */
  function Frames(s: ChannelSet, from: nat, to: nat): (fs: seq<Frame>)
    requires from <= to && |s| == Channels && forall c :: 0 <= c < Channels ==> to <= |s[c]|
    ensures |fs| == to - from
    ensures forall j :: 0 <= j < |fs| ==> |fs[j]| == Channels
  {
    seq(to - from, j requires 0 <= j < to - from =>
          seq(Channels, c requires 0 <= c < Channels => s[c][from + j]))
  }

  /** The little-endian wire image of frames: each frame's samples as 16-bit patterns,
      channel 0 first. */
  function Wire(fs: seq<Frame>): (w: seq<uint16>)
    requires forall k :: 0 <= k < |fs| ==> |fs[k]| == Channels
    ensures |w| == Channels * |fs|
  {
    if fs == [] then []
    else Wire(fs[..|fs| - 1]) + seq(Channels, c requires 0 <= c < Channels => Bits(fs[|fs| - 1][c]))
  }

  /** Sample `c` of frame `k` lands at 16-bit position `8 * k + c` of the wire image. */
  lemma {:induction false} WireAt(fs: seq<Frame>, k: nat, c: nat)
    requires forall j :: 0 <= j < |fs| ==> |fs[j]| == Channels
    requires k < |fs| && c < Channels
    ensures Wire(fs)[Channels * k + c] == Bits(fs[k][c])
  {
    var last := |fs| - 1;
    if k < last {
      WireAt(fs[..last], k, c);
    }
  }

  lemma {:induction false} WirePrefix(fs: seq<Frame>, k: nat)
    requires forall j :: 0 <= j < |fs| ==> |fs[j]| == Channels
    requires k <= |fs|
    ensures Wire(fs[..k]) == Wire(fs)[..Channels * k]
  {
    if k < |fs| {
      var last := |fs| - 1;
      assert fs[..last][..k] == fs[..k];
      WirePrefix(fs[..last], k);
    } else {
      assert fs[..k] == fs;
    }
  }

  /** `outgoing`, `ready` and `offset_1st`; None stands for a row of null pointers. */
  datatype TxQueue = TxQueue(outgoing: Option<ChannelSet>, ready: Option<ChannelSet>, offset: nat)

  /** The invariants of the double buffer for blocks of `n` samples: `ready` is only
      populated behind a populated `outgoing`, and the read offset is inside the block. */
  ghost predicate QueueWf(q: TxQueue, n: nat)
  {
    && (q.outgoing.Some? ==> IsChannelSet(q.outgoing.value, n))
    && (q.ready.Some? ==> IsChannelSet(q.ready.value, n) && q.outgoing.Some?)
    && q.offset < n
  }

  /** The frames still to be put on the wire, in order: the unread rest of `outgoing`,
      then all of `ready`. */
  function Pending(q: TxQueue, n: nat): (p: seq<Frame>)
    requires QueueWf(q, n)
    ensures forall k :: 0 <= k < |p| ==> |p[k]| == Channels
  {
    (if q.outgoing.Some? then Frames(q.outgoing.value, q.offset, n) else [])
    + (if q.ready.Some? then Frames(q.ready.value, 0, n) else [])
  }

  /** The enqueue step of `AudioOutputUSB::update` (teensy4/usb_audio.cpp:388-413). */
  function Enqueue(q: TxQueue, s: ChannelSet): TxQueue
  {
    if q.outgoing.None? then TxQueue(Some(s), None, 0)
    else if q.ready.None? then q.(ready := Some(s))
    else TxQueue(q.ready, Some(s), 0)
  }

  /** Enqueueing keeps the double buffer well formed, and unless both slots were full
      the new set is queued behind everything pending; when both were full the unread
      rest of `outgoing` is dropped and the new set queued behind `ready`. */
  lemma EnqueuePending(q: TxQueue, s: ChannelSet, n: nat)
    requires QueueWf(q, n) && IsChannelSet(s, n)
    ensures QueueWf(Enqueue(q, s), n)
    ensures q.ready.None? ==> Pending(Enqueue(q, s), n) == Pending(q, n) + Frames(s, 0, n)
    ensures q.ready.Some? ==>
              && Pending(q, n) == Frames(q.outgoing.value, q.offset, n) + Frames(q.ready.value, 0, n)
              && Pending(Enqueue(q, s), n) == Frames(q.ready.value, 0, n) + Frames(s, 0, n)
  {
    if q.outgoing.None? {
      assert Pending(q, n) == [];
    }
  }

  /** The double buffer after `k` frames have been put on the wire (k at most one block):
      the read offset advances, and reaching the end of `outgoing` promotes `ready`. */
  function Advance(q: TxQueue, k: nat, n: nat): (r: TxQueue)
    requires QueueWf(q, n) && k <= |Pending(q, n)| && k <= n
    ensures QueueWf(r, n)
  {
    if q.outgoing.None? then q
    else if q.offset + k < n then q.(offset := q.offset + k)
    else TxQueue(q.ready, None, q.offset + k - n)
  }

  /** Draining `k` frames removes exactly the first `k` pending frames. */
  lemma AdvancePending(q: TxQueue, k: nat, n: nat)
    requires QueueWf(q, n) && k <= |Pending(q, n)| && k <= n
    ensures Pending(Advance(q, k, n), n) == Pending(q, n)[k..]
  {
    var p := Pending(q, n);
    if q.outgoing.Some? {
      var o := q.outgoing.value;
      if q.offset + k < n {
        var rest := if q.ready.Some? then Frames(q.ready.value, 0, n) else [];
        assert Frames(o, q.offset, n)[k..] == Frames(o, q.offset + k, n);
        assert p[k..] == Frames(o, q.offset, n)[k..] + rest;
      } else if q.ready.Some? {
        var rd := q.ready.value;
        assert p[k..] == Frames(rd, 0, n)[q.offset + k - n..];
        assert Frames(rd, 0, n)[q.offset + k - n..] == Frames(rd, q.offset + k - n, n);
      }
    }
  }

  /** The wire image of consecutive runs of frames is the concatenation of their images. */
  lemma {:induction false} WireAppend(a: seq<Frame>, b: seq<Frame>)
    requires forall k :: 0 <= k < |a| ==> |a[k]| == Channels
    requires forall k :: 0 <= k < |b| ==> |b[k]| == Channels
    ensures Wire(a + b) == Wire(a) + Wire(b)
    decreases |b|
  {
    if b != [] {
      var last := |b| - 1;
      assert (a + b)[..|a + b| - 1] == a + b[..last];
      WireAppend(a, b[..last]);
    } else {
      assert a + b == a;
    }
  }

  /** While the read stays inside `outgoing`, the next `k` pending frames are frames
      `offset` to `offset + k` of `outgoing`. */
  lemma PendingPrefix(q: TxQueue, k: nat, n: nat)
    requires QueueWf(q, n) && q.outgoing.Some? && q.offset + k <= n
    ensures k <= |Pending(q, n)|
    ensures Pending(q, n)[..k] == Frames(q.outgoing.value, q.offset, q.offset + k)
  {
    var o := q.outgoing.value;
    assert Pending(q, n)[..k] == Frames(o, q.offset, n)[..k];
  }

  /** Draining in two steps is draining once by the sum, as long as no more than one
      block's worth is drained in all. */
  lemma AdvanceTwice(q: TxQueue, a: nat, b: nat, n: nat)
    requires QueueWf(q, n) && a + b <= |Pending(q, n)| && a + b <= n
    ensures |Pending(Advance(q, a, n), n)| == |Pending(q, n)| - a
    ensures Advance(Advance(q, a, n), b, n) == Advance(q, a + b, n)
  {
    AdvancePending(q, a, n);
  }
}
