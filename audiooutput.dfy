/** The transmit half of teensy4/usb_audio.cpp: the statics of `AudioOutputUSB`
    (`outgoing[]`, `ready[]`, `offset_1st` and the rate adapter), the function-static
    packet counter of `usb_audio_transmit_callback`, and the transmit buffer. Each entry
    point is one atomic step: the interrupt-disabled section of `update` exists to make
    it atomic with respect to the USB callbacks. */
module AudioOutput {
  import opened Words
  import opened Blocks
  import opened DoubleBuffer
  import opened Copying
  import opened Packetizer
  import opened Slots
  import Pacing

  /** AUDIO_FREQUENCY (teensy4/usb_audio.cpp:286). */
  const AudioFrequency: int := 48000

  /** One block of `n` samples per channel, where the graph delivered one. */
  predicate InputsFit(inputs: seq<Option<seq<int16>>>, n: nat)
  {
    |inputs| == Channels && forall c :: 0 <= c < Channels && inputs[c].Some? ==> |inputs[c].value| == n
  }

  /** The channel set `update` queues: each delivered block, and a block of silence for
      each channel the graph sent nothing on. */
  function Silenced(inputs: seq<Option<seq<int16>>>, n: nat): (s: ChannelSet)
    requires InputsFit(inputs, n)
    ensures IsChannelSet(s, n)
  {
    seq(Channels, c requires 0 <= c < Channels => if inputs[c].Some? then inputs[c].value else seq(n, _ => 0))
  }

  /** Every block in `chans` holds what `update` queues on its channel. */
  ghost predicate Carries(chans: seq<array?<int16>>, inputs: seq<Option<seq<int16>>>, n: nat)
    requires |chans| == Channels && InputsFit(inputs, n)
    reads set c | 0 <= c < Channels :: chans[c]
  {
    forall c :: 0 <= c < Channels && chans[c] != null ==> chans[c][..] == Silenced(inputs, n)[c]
  }

  /** `memset(block->data, 0, sizeof(block->data))`. */
  method Silence(b: Block)
    modifies b
    ensures b[..] == seq(b.Length, _ => 0)
  {
    forall k | 0 <= k < b.Length {
      b[k] := 0;
    }
  }

  /** A full row of such blocks reads as the queued channel set. */
  lemma RowCarries(chans: seq<array?<int16>>, inputs: seq<Option<seq<int16>>>, n: nat)
    requires |chans| == Channels && InputsFit(inputs, n) && Carries(chans, inputs, n)
    requires forall c :: 0 <= c < Channels ==> chans[c] != null
    ensures Row(chans) == Some(Silenced(inputs, n))
  {
    var r := Row(chans).value;
    assert |r| == Channels;
    forall c | 0 <= c < Channels
      ensures r[c] == Silenced(inputs, n)[c]
    {
    }
    assert r == Silenced(inputs, n);
  }

  class AudioOutputUSB {
    /** AUDIO_BLOCK_SAMPLES */
    const n: nat
    /** The audio library's block allocator, as far as the blocks of this class go. */
    const pool: BlockPool

    const outgoing: array<array?<int16>>
    const ready: array<array?<int16>>
    var offset1st: nat
    var normalTarget: int
    var accumulator: int
    var subtract: int
    /** The function-static `count` of `usb_audio_transmit_callback`. */
    var packetCount: int
    /** `usb_audio_transmit_buffer`, AUDIO_TX_SIZE/2 16-bit values. */
    const transmitBuffer: array<uint16>

    /** Blocks `begin` dropped while this class still held them. */
    ghost var leaked: set<Block>

    ghost function TxSlots(): seq<array?<int16>>
      reads outgoing, ready
    {
      outgoing[..] + ready[..]
    }


    /** The object invariant: the fixed sizes, the shape of the double buffer, and block
        ownership. */
    ghost predicate Valid()
      reads this`offset1st, this`leaked, pool`owned, outgoing, ready
    {
      Sizes() && TxShape() && Ownership()
    }

    /** Block size, buffer size and the two distinct rows. */
    ghost predicate Sizes()
    {
      && 45 <= n < 0x1_0000 && n % 2 == 0
      && pool.blockSamples == n
      && outgoing.Length == Channels && ready.Length == Channels && outgoing != ready
      && transmitBuffer.Length >= 8 * 45
    }

    /** Each transmit row is all null or eight blocks of `n` samples, a ready row only
        behind an outgoing one, and the read offset within a block. */
    ghost predicate TxShape()
      reads this`offset1st, outgoing, ready
    {
      && outgoing.Length == Channels && ready.Length == Channels
      && Lockstep(outgoing[..], n) && Lockstep(ready[..], n)
      && (ready[0] != null ==> outgoing[0] != null)
      && offset1st < n
    }


    /** Every block the pool counts as held by this class sits in exactly one slot, or
        was dropped by `begin`. */
    ghost predicate Ownership()
      reads this`leaked, pool`owned, outgoing, ready
    {
      && Distinct(TxSlots())
      && pool.owned == Held(TxSlots()) + leaked
      && leaked !! Held(TxSlots())
    }

    /** The transmit double buffer as `DoubleBuffer` sees it. */
    ghost function TxState(): TxQueue
      requires outgoing.Length == Channels && ready.Length == Channels
      reads this`offset1st, outgoing, ready, Held(outgoing[..]), Held(ready[..])
    {
      TxQueue(Row(outgoing[..]), Row(ready[..]), offset1st)
    }


    /** Static initialization: every pointer null and every number zero. `txSize` is
        AUDIO_TX_SIZE/2. */
    constructor (blockSamples: nat, txSize: nat)
      requires 45 <= blockSamples < 0x1_0000 && blockSamples % 2 == 0 && txSize >= 8 * 45
      ensures Valid() && fresh(pool) && pool.owned == {} && pool.sent == [] && leaked == {}
      ensures n == blockSamples && transmitBuffer.Length == txSize
      ensures TxState() == TxQueue(None, None, 0)
    {
      n := blockSamples;
      pool := new BlockPool(blockSamples);
      outgoing := new array?<int16>[Channels](_ => null);
      ready := new array?<int16>[Channels](_ => null);
      offset1st := 0;
      normalTarget, accumulator, subtract, packetCount := 0, 0, 0, 0;
      transmitBuffer := new uint16[txSize];
      leaked := {};
      new;
      assert TxSlots() == Nulls() + Nulls();
    }

    /** `AudioOutputUSB::begin` (teensy4/usb_audio.cpp:309-322): every transmit pointer
        null, and the rate adapter preset for 48 kHz: 48 samples per packet, the
        accumulator half full, nothing to accumulate. Blocks still held are dropped
        without being released. */
    method Begin()
      requires Valid()
      modifies outgoing, ready, this`normalTarget, this`accumulator, this`subtract, this`leaked
      ensures Valid()
      ensures TxState() == TxQueue(None, None, offset1st)
      ensures leaked == old(leaked) + old(Held(TxSlots()))
      ensures normalTarget == 48 && accumulator == 500 && subtract == 0
    {
      ghost var held := Held(TxSlots());
      for i := 0 to Channels
        invariant forall c :: 0 <= c < i ==> outgoing[c] == null && ready[c] == null
        modifies outgoing, ready
      {
        outgoing[i] := null;
        ready[i] := null;
      }
      leaked := leaked + held;
      assert TxSlots() == Nulls() + Nulls();
      assert Held(TxSlots()) == {};
      normalTarget := AudioFrequency / 1000;
      accumulator := 500;
      subtract := AudioFrequency - normalTarget * 1000;
    }


    /** `Valid` while `update` also holds the blocks of its local `chans[]`: no block in
        two slots of `chans`, `outgoing` and `ready` together, and the pool's count of
        held blocks covers all three rows. */
    ghost predicate Holding(chans: seq<array?<int16>>)
      reads this`offset1st, this`leaked, pool`owned, outgoing, ready
    {
      && Sizes() && TxShape() && |chans| == Channels
      && (forall c :: 0 <= c < Channels && chans[c] != null ==> chans[c].Length == n)
      && Owns(chans + TxSlots(), pool.owned, leaked)
    }

    /** `AudioOutputUSB::update` (teensy4/usb_audio.cpp:341-423) with the graph delivering
        `inputs` and the host's transmit interface setting `transmitSetting`. Returns
        whether the set was queued. Not transmitting, every block is released and the
        double buffer emptied; transmitting, channels without a block get a block of
        silence and the set is queued as `Enqueue` says, unless an allocation failed, in
        which case every block obtained is released and nothing changes. */
    method Update(transmitSetting: uint8, inputs: seq<Option<seq<int16>>>) returns (queued: bool)
      requires Valid() && InputsFit(inputs, n)
      modifies this`offset1st, outgoing, ready, pool
      ensures Valid() && leaked == old(leaked) && pool.sent == old(pool.sent)
      ensures queued ==> transmitSetting != 0
      ensures transmitSetting == 0 ==> TxState() == TxQueue(None, None, 0) && pool.owned == leaked
      ensures transmitSetting != 0 && queued ==> TxState() == Enqueue(old(TxState()), Silenced(inputs, n))
      ensures transmitSetting != 0 && !queued ==> TxState() == old(TxState()) && pool.owned == old(pool.owned)
      ensures transmitSetting != 0 && (forall c :: 0 <= c < Channels ==> inputs[c].Some?) ==> queued
      ensures queued && old(ready[0]) == null ==> old(pool.owned) <= pool.owned
      ensures queued && old(ready[0]) != null ==> pool.owned !! old(Held(outgoing[..]))
    {
      var chans := Gather(inputs);
      if transmitSetting == 0 {
        Dump(chans);
        queued := false;
      } else {
        var complete := FillSilence(chans, inputs);
        if complete {
          Queue(chans, inputs);
          queued := true;
        } else {
          Discard(chans);
          queued := false;
        }
      }
    }

    /** `chans[i] = receiveReadOnly(i)` for each channel (lines 348-349). */
    method Gather(inputs: seq<Option<seq<int16>>>) returns (chans: array<array?<int16>>)
      requires Valid() && InputsFit(inputs, n)
      modifies pool
      ensures fresh(chans) && Holding(chans[..]) && Carries(chans[..], inputs, n)
      ensures TxState() == old(TxState())
      ensures pool.sent == old(pool.sent) && old(pool.owned) <= pool.owned
      ensures forall c :: 0 <= c < Channels ==> (chans[c] == null <==> inputs[c].None?)
    {
      chans := new array?<int16>[Channels](_ => null);
      ghost var slots := TxSlots();
      assert chans[..] == Nulls();
      NullsBefore(slots);
      for i := 0 to Channels
        invariant Owns(chans[..] + slots, pool.owned, leaked)
        invariant forall c :: 0 <= c < Channels && chans[c] != null ==>
                    chans[c].Length == n && chans[c][..] == Silenced(inputs, n)[c]
        invariant pool.sent == old(pool.sent) && old(pool.owned) <= pool.owned
        invariant forall c :: 0 <= c < Channels ==> (chans[c] == null <==> (i <= c || inputs[c].None?))
        modifies chans, pool
      {
        ghost var before := pool.owned;
        var b := pool.ReceiveReadOnly(inputs[i]);
        if b != null {
          Adopt(chans[..], slots, i, b, before, leaked);
        } else {
          assert chans[..][i := b] == chans[..];
        }
        chans[i] := b;
      }
    }

    /** Not transmitting (lines 351-367): release every block received and every block
        in `outgoing` and `ready`, clear both rows and the read offset. */
    method Dump(chans: array<array?<int16>>)
      requires Holding(chans[..]) && chans != outgoing && chans != ready
      modifies this`offset1st, outgoing, ready, pool
      ensures Valid() && leaked == old(leaked) && pool.sent == old(pool.sent)
      ensures TxState() == TxQueue(None, None, 0) && pool.owned == leaked
    {
      ghost var all := chans[..] + TxSlots();
      ghost var start := pool.owned;
      for i := 0 to Channels
        invariant forall c :: 0 <= c < i ==> outgoing[c] == null && ready[c] == null
        invariant forall c :: i <= c < Channels ==> outgoing[c] == all[Channels + c] && ready[c] == all[2 * Channels + c]
        invariant pool.owned == start - Released(all, i) && pool.sent == old(pool.sent)
        modifies outgoing, ready, pool
      {
        ReleaseColumn(chans, i, all, start);
      }
      offset1st := 0;
      AllReleased(all);
      assert outgoing[..] == Nulls() && ready[..] == Nulls();
      NullsAfter(Nulls());
    }

    /** One pass of the loop of lines 353-366: release channel `i`'s received, outgoing
        and ready blocks, and clear its two slots. */
    method ReleaseColumn(chans: array<array?<int16>>, i: nat, ghost all: seq<array?<int16>>, ghost start: set<Block>)
      requires chans != outgoing && chans != ready
      requires chans.Length == Channels && outgoing.Length == Channels && ready.Length == Channels
      requires |all| == 3 * Channels && Distinct(all) && Held(all) <= start && i < Channels
      requires chans[i] == all[i] && outgoing[i] == all[Channels + i] && ready[i] == all[2 * Channels + i]
      requires pool.owned == start - Released(all, i)
      modifies outgoing, ready, pool
      ensures outgoing[..] == old(outgoing[..])[i := null] && ready[..] == old(ready[..])[i := null]
      ensures pool.owned == start - Released(all, i + 1) && pool.sent == old(pool.sent)
    {
      NextColumn(all, i);
      if chans[i] != null {
        pool.Release(chans[i]);
      }
      if outgoing[i] != null {
        pool.Release(outgoing[i]);
        outgoing[i] := null;
      }
      if ready[i] != null {
        pool.Release(ready[i]);
        ready[i] := null;
      }
    }

    /** Every channel gets a real block (lines 371-381): a null input is replaced by a
        newly allocated block of zeros; the first failed allocation stops the loop.
        `complete` is the test `i >= AUDIO_CHANNELS` of line 383. */
    method FillSilence(chans: array<array?<int16>>, inputs: seq<Option<seq<int16>>>) returns (complete: bool)
      requires Holding(chans[..]) && chans != outgoing && chans != ready && InputsFit(inputs, n)
      requires Carries(chans[..], inputs, n)
      requires forall c :: 0 <= c < Channels && inputs[c].Some? ==> chans[c] != null
      modifies chans, pool
      ensures Holding(chans[..]) && Carries(chans[..], inputs, n)
      ensures TxState() == old(TxState())
      ensures pool.sent == old(pool.sent) && old(pool.owned) <= pool.owned
      ensures complete <==> forall c :: 0 <= c < Channels ==> chans[c] != null
      ensures (forall c :: 0 <= c < Channels ==> old(chans[c]) != null) ==> complete
    {
      ghost var slots := TxSlots();
      var i := 0;
      while i < Channels
        invariant i <= Channels
        invariant Owns(chans[..] + slots, pool.owned, leaked)
        invariant forall c :: 0 <= c < Channels && chans[c] != null ==>
                    chans[c].Length == n && chans[c][..] == Silenced(inputs, n)[c]
        invariant pool.sent == old(pool.sent) && old(pool.owned) <= pool.owned
        invariant forall c :: 0 <= c < i ==> chans[c] != null
        invariant forall c :: i <= c < Channels ==> chans[c] == old(chans[c])
        modifies chans, pool
      {
        if chans[i] == null {
          ghost var before := pool.owned;
          var b := pool.Allocate();
          if b == null {
            // no block available, exit early
            break;
          }
          Silence(b);
          Adopt(chans[..], slots, i, b, before, leaked);
          chans[i] := b;
        }
        i := i + 1;
      }
      complete := i >= Channels;
    }

    /** Some channel has no block (lines 416-421): release every block obtained. */
    method Discard(chans: array<array?<int16>>)
      requires Holding(chans[..]) && chans != outgoing && chans != ready
      modifies pool
      ensures Valid() && pool.sent == old(pool.sent)
      ensures pool.owned == old(pool.owned) - Held(chans[..])
    {
      ghost var all := chans[..] + TxSlots();
      ghost var start := pool.owned;
      for i := 0 to Channels
        invariant pool.owned == start - Held(all[..i]) && pool.sent == old(pool.sent)
        modifies pool
      {
        assert all[i] == chans[i] && all[..i] == all[0..0 + i] && all[..i + 1] == all[0..0 + i + 1];
        HeldGrow(all, 0, i);
        if chans[i] != null {
          Untaken(all, i, 0, i);
          pool.Release(chans[i]);
        }
      }
      assert all[..Channels] == chans[..];
      Apart(chans[..], TxSlots());
      HeldConcat(chans[..], TxSlots());
    }

    /** The full set goes into the double buffer (lines 385-414): into `outgoing` from
        offset 0 when it is empty, else into `ready` when that is empty, else `ready`
        moves up, the unread `outgoing` blocks are released and the set becomes `ready`. */
    method Queue(chans: array<array?<int16>>, inputs: seq<Option<seq<int16>>>)
      requires Holding(chans[..]) && chans != outgoing && chans != ready && InputsFit(inputs, n)
      requires Carries(chans[..], inputs, n) && forall c :: 0 <= c < Channels ==> chans[c] != null
      modifies this`offset1st, outgoing, ready, pool
      ensures Valid() && leaked == old(leaked) && pool.sent == old(pool.sent)
      ensures TxState() == Enqueue(old(TxState()), Silenced(inputs, n))
      ensures old(ready[0]) == null ==> pool.owned == old(pool.owned)
      ensures old(ready[0]) != null ==> pool.owned == old(pool.owned) - old(Held(outgoing[..]))
    {
      RowCarries(chans[..], inputs, n);
      if outgoing[0] == null {
        QueueFirst(chans);
      } else if ready[0] == null {
        QueueNext(chans);
      } else {
        QueueOverrun(chans);
      }
    }

    /** Just (re-)starting: the set becomes `outgoing`, read from offset 0. */
    method QueueFirst(chans: array<array?<int16>>)
      requires Holding(chans[..]) && chans != outgoing && chans != ready && outgoing[0] == null
      requires forall c :: 0 <= c < Channels ==> chans[c] != null
      modifies this`offset1st, outgoing
      ensures Valid() && outgoing[..] == chans[..] && ready[..] == Nulls() && offset1st == 0
    {
      assert TxSlots() == Nulls() + Nulls();
      Apart(chans[..], TxSlots());
      HeldConcat(chans[..], TxSlots());
      NullsAfter(Nulls());
      assert Held(Nulls()) == {};
      NullsAfter(chans[..]);
      for i := 0 to Channels
        invariant forall c :: 0 <= c < i ==> outgoing[c] == chans[c]
        modifies outgoing
      {
        outgoing[i] := chans[i];
      }
      offset1st := 0;
      assert outgoing[..] == chans[..];
    }

    /** `outgoing` is being sent and `ready` is free: the set becomes `ready`. */
    method QueueNext(chans: array<array?<int16>>)
      requires Holding(chans[..]) && chans != outgoing && chans != ready
      requires outgoing[0] != null && ready[0] == null
      requires forall c :: 0 <= c < Channels ==> chans[c] != null
      modifies ready
      ensures Valid() && ready[..] == chans[..]
    {
      ghost var all := chans[..] + TxSlots();
      ghost var out := outgoing[..];
      assert ready[..] == Nulls();
      for i := 0 to Channels
        invariant forall c :: 0 <= c < i ==> ready[c] == chans[c]
        modifies ready
      {
        ready[i] := chans[i];
      }
      assert ready[..] == chans[..];
      assert all[Channels..2 * Channels] == out && all[..Channels] == chans[..];
      DistinctWindows(all, Channels, 0, Channels);
      HeldConcat(out, chans[..]);
      HeldConcat(chans[..], out + Nulls());
      NullsAfter(out);
    }

    /** Buffer overrun, the host is consuming too slowly: each unread `outgoing` block is
        released, `ready` moves up, the set becomes `ready`, and reading restarts at 0. */
    method QueueOverrun(chans: array<array?<int16>>)
      requires Holding(chans[..]) && chans != outgoing && chans != ready
      requires outgoing[0] != null && ready[0] != null
      requires forall c :: 0 <= c < Channels ==> chans[c] != null
      modifies this`offset1st, outgoing, ready, pool
      ensures Valid() && leaked == old(leaked) && pool.sent == old(pool.sent)
      ensures outgoing[..] == old(ready[..]) && ready[..] == chans[..] && offset1st == 0
      ensures pool.owned == old(pool.owned) - old(Held(outgoing[..]))
    {
      ghost var all := chans[..] + TxSlots();
      ghost var out, rd := outgoing[..], ready[..];
      ghost var start := pool.owned;
      assert all[Channels..2 * Channels] == out && all[2 * Channels..] == rd && all[..Channels] == chans[..];
      OverrunOwnership(all, start, leaked);
      for i := 0 to Channels
        invariant forall c :: 0 <= c < i ==> outgoing[c] == rd[c] && ready[c] == chans[c]
        invariant forall c :: i <= c < Channels ==> outgoing[c] == out[c] && ready[c] == rd[c]
        invariant pool.owned == start - Held(all[Channels..Channels + i]) && pool.sent == old(pool.sent)
        modifies outgoing, ready, pool
      {
        ShiftColumn(chans, i, all, start);
      }
      offset1st := 0;
      assert outgoing[..] == rd && ready[..] == chans[..];
      assert all[Channels..Channels + Channels] == out;
    }

    /** One pass of the overrun loop (lines 402-408): channel `i`'s outgoing block is
        released, its ready block moves up and the new block takes its place. */
    method ShiftColumn(chans: array<array?<int16>>, i: nat, ghost all: seq<array?<int16>>, ghost start: set<Block>)
      requires chans != outgoing && chans != ready && outgoing != ready
      requires chans.Length == Channels && outgoing.Length == Channels && ready.Length == Channels
      requires |all| == 3 * Channels && Distinct(all) && Held(all) <= start && i < Channels
      requires outgoing[i] == all[Channels + i] && outgoing[i] != null
      requires pool.owned == start - Held(all[Channels..Channels + i])
      modifies outgoing, ready, pool
      ensures outgoing[..] == old(outgoing[..])[i := old(ready[i])] && ready[..] == old(ready[..])[i := chans[i]]
      ensures pool.owned == start - Held(all[Channels..Channels + i + 1]) && pool.sent == old(pool.sent)
    {
      var discard := outgoing[i];
      Untaken(all, Channels + i, Channels, i);
      HeldGrow(all, Channels, i);
      outgoing[i] := ready[i];
      ready[i] := chans[i];
      pool.Release(discard);
    }

    /** The transmit side is well formed in the sense of `DoubleBuffer`, and a present
        outgoing row reads as the contents of its eight blocks. */
    lemma TxStateWf()
      requires Valid()
      ensures QueueWf(TxState(), n)
      ensures TxState().outgoing.Some? <==> outgoing[0] != null
      ensures outgoing[0] != null ==> TxState().outgoing.value == ChannelContents(outgoing[..])
    {
    }

    /** `usb_audio_transmit_callback` (teensy4/usb_audio.cpp:445-509): pick the sample
        target, then copy up to that many frames from the double buffer into the
        transmit buffer, promoting `ready` at the end of a block, and zero-fill as the
        source does when the queue runs dry. Returns the packet length in bytes, 16 per
        frame even when frames were missing. */
    method TransmitCallback() returns (bytes: nat)
      requires Valid()
      modifies this`accumulator, this`packetCount, this`offset1st, outgoing, ready, pool, transmitBuffer
      ensures Valid() && leaked == old(leaked) && pool.sent == old(pool.sent)
      ensures accumulator == Pacing.AdapterNext(old(accumulator), old(subtract))
      ensures packetCount == Pacing.NextCount(old(packetCount))
      ensures var target := Pacing.CycleTarget(old(packetCount));
              var q := old(TxState());
              && QueueWf(q, n)
              && bytes == 16 * target
              && TxState() == Advance(q, Drained(q, n, target), n)
              && transmitBuffer[..] == PacketImage(old(transmitBuffer[..]), q, n, target)
    {
      TxStateWf();
      ghost var q := TxState();
      ghost var b0 := transmitBuffer[..];
      var target := Pace();
      var len: nat := 0;
      assert Pending(q, n)[..0] == [] && b0[8 * 0..] == b0;
      while len < target
        invariant Valid() && leaked == old(leaked) && pool.sent == old(pool.sent)
        invariant len <= target && len <= |Pending(q, n)|
        invariant TxState() == Advance(q, len, n)
        invariant transmitBuffer[..] == Written(b0, Pending(q, n), len)
        decreases target - len
        modifies this`offset1st, outgoing, ready, pool, transmitBuffer
      {
        if outgoing[0] == null {
          // buffer underrun: the host is reading faster than the audio arrives
          Underrun(len, target, q, b0);
          return target * 16;
        }
        len := DrainStep(len, target, q, b0);
      }
      PacketAfter(b0, q, n, target, len);
      return target * 16;
    }

    /** The underrun `memset` of line 470 after `len` frames, when the queue ran dry: the
        packet image is complete. */
    method Underrun(len: nat, target: nat, ghost q: TxQueue, ghost b0: seq<uint16>)
      requires Valid() && outgoing[0] == null
      requires len < target <= n && 8 * target <= transmitBuffer.Length
      requires QueueWf(q, n) && len <= |Pending(q, n)| && TxState() == Advance(q, len, n)
      requires |b0| == transmitBuffer.Length && transmitBuffer[..] == Written(b0, Pending(q, n), len)
      modifies transmitBuffer
      ensures Drained(q, n, target) == len
      ensures transmitBuffer[..] == PacketImage(b0, q, n, target)
    {
      DrainedAll(q, len);
      ZeroFill(len, target - len);
      PacketAfter(b0, q, n, target, len);
    }

    /** When the outgoing row is empty after `len` frames, all pending frames were taken. */
    lemma DrainedAll(q: TxQueue, len: nat)
      requires Valid() && outgoing[0] == null
      requires QueueWf(q, n) && len <= |Pending(q, n)| && len <= n && TxState() == Advance(q, len, n)
      ensures len == |Pending(q, n)|
    {
      TxStateWf();
      AdvancePending(q, len, n);
    }

    /** The sample target of lines 447-462: the accumulator adapter moves `accumulator`
        and may ask for one more than `normal_target`, then the cycle counter overrides
        that choice with 44, or 45 every tenth call. */
    method Pace() returns (target: nat)
      modifies this`accumulator, this`packetCount
      ensures target == Pacing.CycleTarget(old(packetCount))
      ensures accumulator == Pacing.AdapterNext(old(accumulator), old(subtract))
      ensures packetCount == Pacing.NextCount(old(packetCount))
    {
      var t := normalTarget;
      accumulator := accumulator - subtract;
      if accumulator <= 0 {
        t := t + 1;
        accumulator := accumulator + 1000;
      }
      packetCount := packetCount + 1;
      if packetCount < 10 {
        t := 44;
      } else {
        packetCount := 0;
        t := 45;
      }
      target := t;
    }

    /** The underrun `memset` of line 470: `8 * num` zeros from 16-bit position `len`. */
    method ZeroFill(len: nat, num: nat)
      requires len + 8 * num <= transmitBuffer.Length
      modifies transmitBuffer
      ensures transmitBuffer[..] == Zeroed(old(transmitBuffer[..]), len, 8 * num)
    {
      forall i | len <= i < len + 8 * num {
        transmitBuffer[i] := 0;
      }
    }

    /** One pass of the loop of `usb_audio_transmit_callback` with an outgoing row
        (lines 473-506): copy the frames still wanted, at most to the end of the block,
        and advance the read offset, promoting `ready` at the end of the block. `q` and
        `b0` are the queue and the buffer at the start of the packet, `len` the frames
        already copied. */
    method DrainStep(len: nat, target: nat, ghost q: TxQueue, ghost b0: seq<uint16>) returns (len': nat)
      requires Valid() && outgoing[0] != null
      requires len < target <= n && 8 * target <= transmitBuffer.Length
      requires QueueWf(q, n) && len <= |Pending(q, n)| && TxState() == Advance(q, len, n)
      requires |b0| == transmitBuffer.Length && transmitBuffer[..] == Written(b0, Pending(q, n), len)
      modifies this`offset1st, outgoing, ready, pool, transmitBuffer
      ensures Valid() && leaked == old(leaked) && pool.sent == old(pool.sent)
      ensures len < len' <= target && len' <= |Pending(q, n)|
      ensures TxState() == Advance(q, len', n)
      ensures transmitBuffer[..] == Written(b0, Pending(q, n), len')
    {
      var num := target - len;
      var avail := n - offset1st;
      if num > avail {
        num := avail;
      }
      CopyFrames(len, num, q, b0);
      ghost var image := transmitBuffer[..];
      AdvanceBy(num, q, len);
      len' := len + num;
      assert transmitBuffer[..] == image;
    }

    /** `copy_from_buffers` of `num` frames of the outgoing row, from the read offset,
        to frame position `len` of the transmit buffer: the next `num` pending frames. */
    method CopyFrames(len: nat, num: nat, ghost q: TxQueue, ghost b0: seq<uint16>)
      requires Valid() && outgoing[0] != null
      requires 0 < num && offset1st + num <= n && 8 * (len + num) <= transmitBuffer.Length
      requires QueueWf(q, n) && len <= |Pending(q, n)| && len <= n && TxState() == Advance(q, len, n)
      requires |b0| == transmitBuffer.Length && transmitBuffer[..] == Written(b0, Pending(q, n), len)
      modifies transmitBuffer
      ensures len + num <= |Pending(q, n)|
      ensures transmitBuffer[..] == Written(b0, Pending(q, n), len + num)
    {
      TxStateWf();
      ghost var p := TxState();
      ghost var all := Pending(q, n);
      PendingPrefix(p, num, n);
      AdvancePending(q, len, n);
      ghost var chunk := Frames(ChannelContents(outgoing[..]), offset1st, offset1st + num);
      assert chunk == all[len..len + num] by { assert all[len..][..num] == all[len..len + num]; }
      ghost var before := transmitBuffer[..];
      CopyFromBuffers(transmitBuffer, len, outgoing[..], offset1st, num);
      WrittenGrow(b0, all, len, num, before, transmitBuffer[..]);
    }

    /** The read offset moves past `num` frames; reaching the end of the block promotes
        `ready` (lines 493-505). With `len` frames of the packet already taken from `q`,
        the packet has now taken `len + num`. */
    method AdvanceBy(num: nat, ghost q: TxQueue, ghost len: nat)
      requires Valid() && outgoing[0] != null && offset1st + num <= n
      requires QueueWf(q, n) && len + num <= |Pending(q, n)| && len + num <= n && TxState() == Advance(q, len, n)
      modifies this`offset1st, outgoing, ready, pool
      ensures Valid() && leaked == old(leaked) && pool.sent == old(pool.sent)
      ensures TxState() == Advance(q, len + num, n)
    {
      TxStateWf();
      AdvanceTwice(q, len, num, n);
      var offset := offset1st + num;
      if offset >= n {
        Promote();
      } else {
        offset1st := offset;
      }
    }

    /** The end of an outgoing block: release each outgoing block, move each ready
        pointer into its place and clear it, and restart at offset 0. */
    method Promote()
      requires Valid() && outgoing[0] != null
      modifies this`offset1st, outgoing, ready, pool
      ensures Valid() && leaked == old(leaked) && pool.sent == old(pool.sent)
      ensures pool.owned == old(pool.owned) - old(Held(outgoing[..]))
      ensures TxState() == TxQueue(old(TxState()).ready, None, 0)
    {
      ghost var out, rd := outgoing[..], ready[..];
      ghost var slots := TxSlots();
      assert slots[..Channels] == out;
      for i := 0 to Channels
        invariant forall c :: 0 <= c < i ==> outgoing[c] == rd[c] && ready[c] == null
        invariant forall c :: i <= c < Channels ==> outgoing[c] == out[c] && ready[c] == rd[c]
        invariant pool.owned == old(pool.owned) - Held(out[..i]) && pool.sent == old(pool.sent)
        modifies outgoing, ready, pool
      {
        assert out[i] in pool.owned by {
          assert slots[i] == out[i] && out[i] in Held(slots);
          HeldSnoc(slots, i);
          assert slots[..i] == out[..i];
        }
        HeldSnoc(slots, i);
        assert slots[..i + 1] == out[..i + 1] && slots[..i] == out[..i];
        pool.Release(outgoing[i]);
        outgoing[i] := ready[i];
        ready[i] := null;
      }
      offset1st := 0;
      assert out[..Channels] == out;
      PromoteOwnership(out, rd, old(pool.owned), leaked);
      assert outgoing[..] == rd && ready[..] == seq(Channels, _ => null);
    }
  }
}
