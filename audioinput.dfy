/** The receive half of teensy4/usb_audio.cpp: the statics of `AudioInputUSB`
    (`incoming_*`, `ready_*`, `incoming_count`, `receive_flag`, `features`) together
    with the file globals that only the receive path and `usb_audio_configure` write
    (`feedback_accumulator`, `usb_audio_underrun_count`, `usb_audio_overrun_count`).
    Each entry point is one atomic step: the interrupt-disabled section of `update`
    exists to make it atomic with respect to the USB callbacks. */
module AudioInput {
  import opened Words
  import opened Blocks
  import opened Reassembly
  import opened Copying
  import Feedback
  import FeatureUnit

  /** The block a slot holds, if any. */
  function Slot(b: array?<int16>): set<Block>
  {
    if b == null then {} else {b}
  }

  /** The first `k` samples of an in-progress block, None while it is not allocated. */
  ghost function Prefix(b: array?<int16>, k: nat): Option<seq<int16>>
    reads b
  {
    if b == null then None else Some(b[..if k <= b.Length then k else b.Length])
  }

  class AudioInputUSB {
    /** AUDIO_BLOCK_SAMPLES */
    const n: nat
    /** FEATURE_MAX_VOLUME */
    const maxVolume: nat
    /** The audio library's block allocator, as far as the blocks of this class go. */
    const pool: BlockPool

    var incomingLeft: array?<int16>
    var incomingRight: array?<int16>
    var readyLeft: array?<int16>
    var readyRight: array?<int16>
    var incomingCount: nat
    var receiveFlag: bool
    var features: FeatureUnit.Features

    // globals of usb_audio.cpp written by the receive path
    var feedbackAccumulator: uint32
    var underrunCount: uint32
    var overrunCount: uint32

    /** Blocks `begin` dropped while this class still held them. */
    ghost var leaked: set<Block>

    /** The blocks held in the four receive slots. */
    ghost function RxHeld(): set<Block>
      reads this`incomingLeft, this`incomingRight, this`readyLeft, this`readyRight
    {
      Slot(incomingLeft) + Slot(incomingRight) + Slot(readyLeft) + Slot(readyRight)
    }

    /** No block sits in two receive slots. */
    ghost predicate RxDistinct()
      reads this`incomingLeft, this`incomingRight, this`readyLeft, this`readyRight
    {
      && (incomingLeft != null ==> incomingLeft != incomingRight && incomingLeft != readyLeft && incomingLeft != readyRight)
      && (incomingRight != null ==> incomingRight != readyLeft && incomingRight != readyRight)
      && (readyLeft != null ==> readyLeft != readyRight)
    }


    /** The object invariant: the block size, the shape of the receive side, and block
        ownership. */
    ghost predicate Valid()
      reads this`incomingLeft, this`incomingRight, this`readyLeft, this`readyRight, this`incomingCount,
            this`leaked, pool`owned
    {
      Sizes() && RxShape() && Ownership()
    }

    /** AUDIO_BLOCK_SAMPLES is even and at least 45, and the pool hands out blocks of it. */
    ghost predicate Sizes()
    {
      && 45 <= n < 0x1_0000 && n % 2 == 0
      && pool.blockSamples == n
    }

    /** Every receive block holds `n` samples; the count is within the block and 0 unless
        both in-progress blocks exist; the ready pair is published as a whole. */
    ghost predicate RxShape()
      reads this`incomingLeft, this`incomingRight, this`readyLeft, this`readyRight, this`incomingCount
    {
      && (incomingLeft != null ==> incomingLeft.Length == n)
      && (incomingRight != null ==> incomingRight.Length == n)
      && (readyLeft != null ==> readyLeft.Length == n)
      && (readyRight != null ==> readyRight.Length == n)
      && incomingCount <= n
      && (incomingLeft == null || incomingRight == null ==> incomingCount == 0)
      && (readyLeft == null <==> readyRight == null)
    }


    /** Every block the pool counts as held by this class sits in exactly one slot, or
        was dropped by `begin`. */
    ghost predicate Ownership()
      reads this`incomingLeft, this`incomingRight, this`readyLeft, this`readyRight, this`leaked, pool`owned
    {
      && RxDistinct()
      && pool.owned == RxHeld() + leaked
      && leaked !! RxHeld()
    }

    /** The receive side as `Reassembly` sees it, with `count` samples written. */
    ghost function RxViewAt(count: nat): RxView
      reads this`incomingLeft, this`incomingRight, this`readyLeft, this`readyRight, this`overrunCount,
            incomingLeft, incomingRight, readyLeft, readyRight
    {
      RxView(Prefix(incomingLeft, count), Prefix(incomingRight, count),
             if readyLeft != null && readyRight != null then Some(BlockPair(readyLeft[..], readyRight[..])) else None,
             overrunCount)
    }

    /** The receive side as `Reassembly` sees it. */
    ghost function RxState(): RxView
      reads this`incomingLeft, this`incomingRight, this`readyLeft, this`readyRight, this`overrunCount,
            this`incomingCount, incomingLeft, incomingRight, readyLeft, readyRight
    {
      RxViewAt(incomingCount)
    }


    /** Static initialization: every pointer null, every counter zero, the features at
        `{0, 0, FEATURE_MAX_VOLUME/2}`. */
    constructor (blockSamples: nat, maxVolume: nat)
      requires 45 <= blockSamples < 0x1_0000 && blockSamples % 2 == 0
      ensures Valid() && fresh(pool) && pool.owned == {} && pool.sent == [] && leaked == {}
      ensures n == blockSamples && this.maxVolume == maxVolume
      ensures RxState() == RxView(None, None, None, 0) && !receiveFlag
      ensures feedbackAccumulator == 0 && underrunCount == 0
      ensures features == FeatureUnit.InitialFeatures(maxVolume)
    {
      n := blockSamples;
      this.maxVolume := maxVolume;
      pool := new BlockPool(blockSamples);
      incomingLeft, incomingRight, readyLeft, readyRight := null, null, null, null;
      incomingCount := 0;
      receiveFlag := false;
      features := FeatureUnit.InitialFeatures(maxVolume);
      feedbackAccumulator, underrunCount, overrunCount := 0, 0, 0;
      leaked := {};
    }

    /** The receive side is well formed in the sense of `Reassembly`. */
    lemma RxStateWf()
      requires Valid()
      ensures Wf(RxState(), n)
      ensures Count(RxState()) == incomingCount
    {
    }

    /** `AudioInputUSB::begin` (teensy4/usb_audio.cpp:116-130): every receive pointer
        null, the count and the flag cleared. Blocks still held are dropped without
        being released. */
    method Begin()
      requires Valid()
      modifies this`incomingCount, this`incomingLeft, this`incomingRight, this`readyLeft, this`readyRight,
               this`receiveFlag, this`leaked
      ensures Valid()
      ensures RxState() == RxView(None, None, None, overrunCount) && !receiveFlag
      ensures leaked == old(leaked) + old(RxHeld())
    {
      leaked := leaked + RxHeld();
      incomingCount := 0;
      incomingLeft := null;
      incomingRight := null;
      readyLeft := null;
      readyRight := null;
      receiveFlag := false;
    }

    /** `AudioInputUSB::update` (teensy4/usb_audio.cpp:235-271): take and clear the
        published pair and the receive flag in one step; when data arrived since the
        last update, move the feedback accumulator by the fill error of the in-progress
        pair, and by the underrun bias too when no pair was published; count a missing
        pair as an underrun; send the pair downstream on channels 0 and 1 and drop it. */
    method Update()
      requires Valid()
      modifies this`readyLeft, this`readyRight, this`receiveFlag, this`feedbackAccumulator,
               this`underrunCount, pool
      ensures Valid() && leaked == old(leaked)
      ensures var v := old(RxState());
              var missing := v.mailbox.None?;
              && RxState() == v.(mailbox := None)
              && !receiveFlag
              && feedbackAccumulator
                 == Feedback.Step(old(feedbackAccumulator), old(receiveFlag), old(incomingCount), n, missing)
              && underrunCount == (if missing then Inc32(old(underrunCount)) else old(underrunCount))
              && pool.sent == old(pool.sent)
                              + (if missing then [] else [Sent(0, v.mailbox.value.left), Sent(1, v.mailbox.value.right)])
    {
      var left, right := TakeReady();
      UpdateFeedback(incomingCount, left == null || right == null);
    }

    /** The flag and counter updates of `AudioInputUSB::update` (teensy4/usb_audio.cpp:
        242-262): take and clear the receive flag, then move the accumulator and the
        underrun count, given the fill level `count` and `missing` when no pair was
        published. */
    method UpdateFeedback(count: int, missing: bool)
      modifies this`receiveFlag, this`feedbackAccumulator, this`underrunCount
      ensures !receiveFlag
      ensures feedbackAccumulator == Feedback.Step(old(feedbackAccumulator), old(receiveFlag), count, n, missing)
      ensures underrunCount == if missing then Inc32(old(underrunCount)) else old(underrunCount)
    {
      var flag := receiveFlag;
      receiveFlag := false;
      if flag {
        var diff := n / 2 - count;
        feedbackAccumulator := Add32(feedbackAccumulator, diff * 1);
      }
      if missing {
        underrunCount := Inc32(underrunCount);
        if flag {
          feedbackAccumulator := Add32(feedbackAccumulator, Feedback.UnderrunBias);
        }
      }
    }

    /** The block handling of `AudioInputUSB::update`: take the published pair and clear
        its pointers, then `transmit` it on channels 0 and 1 and `release` it. The source
        transmits after updating the counters; within one atomic step the order does
        not matter. */
    method TakeReady() returns (left: array?<int16>, right: array?<int16>)
      requires Valid()
      modifies this`readyLeft, this`readyRight, pool
      ensures Valid() && leaked == old(leaked)
      ensures left == old(readyLeft) && right == old(readyRight)
      ensures var v := old(RxState());
              && RxState() == v.(mailbox := None)
              && pool.sent == old(pool.sent)
                              + (if v.mailbox.None? then [] else [Sent(0, v.mailbox.value.left), Sent(1, v.mailbox.value.right)])
    {
      left := readyLeft;
      readyLeft := null;
      right := readyRight;
      readyRight := null;
      SendPair(left, right);
    }

    /** The tail of `AudioInputUSB::update`: `transmit` and `release` each block of a
        published pair. */
    method SendPair(left: array?<int16>, right: array?<int16>)
      requires left != null ==> left in pool.owned && left != right
      requires right != null ==> right in pool.owned
      modifies pool
      ensures pool.owned == old(pool.owned) - Slot(left) - Slot(right)
      ensures pool.sent == old(pool.sent) + (if left != null then [Sent(0, left[..])] else [])
                                          + (if right != null then [Sent(1, right[..])] else [])
    {
      if left != null {
        pool.Transmit(left, 0);
        pool.Release(left);
      }
      if right != null {
        pool.Transmit(right, 1);
        pool.Release(right);
      }
    }


    /** The receive-side part of `usb_audio_configure` (teensy4/usb_audio.cpp:95-97):
        both counters cleared and the feedback accumulator seeded with 44.1 samples per
        frame. */
    method Configure()
      requires Valid()
      modifies this`underrunCount, this`overrunCount, this`feedbackAccumulator
      ensures Valid()
      ensures underrunCount == 0 && feedbackAccumulator == Feedback.Seed
      ensures RxState() == old(RxState()).(overruns := 0)
    {
      underrunCount := 0;
      overrunCount := 0;
      feedbackAccumulator := Feedback.Seed;
    }

    /** `usb_audio_set_feature` (teensy4/usb_audio.cpp:576-596) on `features`. */
    method SetFeature(setup: seq<uint8>, buf: seq<uint8>) returns (handled: bool)
      requires FeatureUnit.IsSetup(setup) && (FeatureUnit.SetHandled(setup) ==> |buf| >= 1)
      modifies this`features
      ensures handled == FeatureUnit.SetHandled(setup)
      ensures features == FeatureUnit.SetFeature(setup, buf, old(features))
    {
      handled := false;
      if setup[0] == FeatureUnit.SetRequestType {
        if setup[3] == FeatureUnit.MuteControl {
          if setup[1] == FeatureUnit.SetCur {
            features := features.(mute := buf[0] as int, change := 1);
            handled := true;
          }
        } else if setup[3] == FeatureUnit.VolumeControl {
          if setup[1] == FeatureUnit.SetCur {
            features := features.(volume := buf[0] as int, change := 1);
            handled := true;
          }
        }
      }
    }


    /** `usb_audio_receive_callback(len)` (teensy4/usb_audio.cpp:161-232) for the
        packet `rx`: raise the receive flag; allocate a missing in-progress block, giving
        up when the pool is exhausted (`primed` false); then deliver the `len/4` stereo
        words as `Reassembly.Deliver` describes, `freshOk` saying whether the
        allocations after a publication succeeded. The transmit side is untouched and
        nothing is sent downstream. */
    method ReceiveCallback(rx: seq<uint32>, len: nat) returns (ghost primed: bool, ghost freshOk: bool)
      requires Valid() && len / 4 <= |rx|
      modifies this`receiveFlag, this`incomingLeft, this`incomingRight, this`incomingCount,
               this`readyLeft, this`readyRight, this`overrunCount, pool, incomingLeft, incomingRight
      ensures Valid() && leaked == old(leaked) && pool.sent == old(pool.sent)
      ensures receiveFlag
      ensures primed ==> RxState() == Deliver(Prime(old(RxState())), Lefts(rx[..len / 4]), Rights(rx[..len / 4]), n, freshOk)
      ensures !primed ==> && (old(incomingLeft) == null || old(incomingRight) == null)
                          && (RxState() == old(RxState()) || RxState() == old(RxState()).(inLeft := Some([])))
    {
      RxStateWf();
      ghost var v := RxState();
      assert Primed(Prime(v), n);
      receiveFlag := true;
      assert v == RxState();
      freshOk := true;
      var haveBlocks := PrimeBlocks();
      primed := haveBlocks;
      if haveBlocks {
        ghost var p := RxState();
        assert p == Prime(v);
        freshOk := DeliverWords(rx, len / 4);
        assert RxState() == Deliver(p, Lefts(rx[..len / 4]), Rights(rx[..len / 4]), n, freshOk);
      }
    }

    /** The loop of `usb_audio_receive_callback` (teensy4/usb_audio.cpp:184-230) over
        the `words` stereo words of `rx`, with both in-progress blocks allocated: the
        receive side ends as `Reassembly.Deliver` describes, `freshOk` saying whether
        the allocations after a publication succeeded. */
    method DeliverWords(rx: seq<uint32>, words: nat) returns (ghost freshOk: bool)
      requires Valid() && words <= |rx| && incomingLeft != null && incomingRight != null
      modifies this`incomingLeft, this`incomingRight, this`incomingCount,
               this`readyLeft, this`readyRight, this`overrunCount, pool, incomingLeft, incomingRight
      ensures Valid() && leaked == old(leaked) && pool.sent == old(pool.sent)
      ensures RxState() == Deliver(old(RxState()), Lefts(rx[..words]), Rights(rx[..words]), n, freshOk)
    {
      freshOk := true;
      ghost var p0 := RxState();
      ghost var L, R := Lefts(rx[..words]), Rights(rx[..words]);
      var count: nat := incomingCount;
      var d: nat := 0;
      var remaining: nat := words;
      ghost var published := false;
      RxStateWf();
      assert L[d..] == L && R[d..] == R;
      assert RxViewAt(count) == p0;
      while remaining > 0
        invariant Valid() && leaked == old(leaked) && pool.sent == old(pool.sent)
        invariant incomingLeft != null && incomingRight != null && count <= n
        invariant (incomingLeft == old(incomingLeft) || fresh(incomingLeft))
                  && (incomingRight == old(incomingRight) || fresh(incomingRight))
        invariant d + remaining == words
        invariant !published ==> count == incomingCount
        invariant published ==> readyLeft != null && freshOk && count < n
        invariant Primed(RxViewAt(count), n)
        invariant Deliver(p0, L, R, n, true) == Deliver(RxViewAt(count), L[d..], R[d..], n, true)
        invariant !published ==> Deliver(p0, L, R, n, false) == Deliver(RxViewAt(count), L[d..], R[d..], n, false)
        decreases remaining, if count == n then 1 else 0
      {
        ghost var v, ls, rs := RxViewAt(count), L[d..], R[d..];
        var done, failed;
        done, failed, count, d := ReceiveStep(rx, words, count, d);
        if done {
          if failed {
            freshOk := false;
          }
          assert RxState() == Deliver(v, ls, rs, n, freshOk);
          return;
        }
        remaining := words - d;
        published := true;
      }
      assert L[d..] == [] && R[d..] == [];
      DeliverNothing(RxViewAt(count), n, freshOk);
      SetCount(count);
    }

    /** Store the fill level the loop of `usb_audio_receive_callback` reached. */
    method SetCount(count: nat)
      requires Valid() && incomingLeft != null && incomingRight != null && count <= n
      modifies this`incomingCount
      ensures Valid() && incomingCount == count
    {
      incomingCount := count;
    }

    /** One pass of the loop of `usb_audio_receive_callback` (teensy4/usb_audio.cpp:
        184-230) with `count` samples in the in-progress pair and words `d` to `words`
        of `rx` still to deliver. Either the callback returns here (`done`; `failed`
        when that is because a fresh allocation failed), or the full pair was published
        and the loop goes on with fresh blocks: exactly one unfolding of
        `Reassembly.Deliver`. The source copies up to capacity before looking at the
        mailbox; the test does not depend on the copy, so here each outcome does its own
        copying. */
    method ReceiveStep(rx: seq<uint32>, words: nat, count: nat, d: nat)
      returns (done: bool, failed: bool, count': nat, d': nat)
      requires Valid() && incomingLeft != null && incomingRight != null && count <= n
      requires d < words <= |rx|
      requires count == incomingCount || count < n
      modifies this`incomingLeft, this`incomingRight, this`incomingCount, this`readyLeft, this`readyRight,
               this`overrunCount, pool, incomingLeft, incomingRight
      ensures Valid() && leaked == old(leaked) && pool.sent == old(pool.sent)
      ensures failed ==> done && old(readyLeft) == null
      ensures !done ==> && old(readyLeft) == null && readyLeft != null
                        && incomingLeft != null && incomingRight != null && fresh(incomingLeft) && fresh(incomingRight)
                        && count' == 0 && d' == d + (n - count) <= words
      ensures var ls, rs := Lefts(rx[..words])[d..], Rights(rx[..words])[d..];
              var v := old(RxViewAt(count));
              && (done && !failed ==> RxState() == Deliver(v, ls, rs, n, true) == Deliver(v, ls, rs, n, false))
              && (failed ==> RxState() == Deliver(v, ls, rs, n, false))
              && (!done ==> Primed(RxViewAt(count'), n)
                            && Deliver(v, ls, rs, n, true)
                               == Deliver(RxViewAt(count'), Lefts(rx[..words])[d'..], Rights(rx[..words])[d'..], n, true))
    {
      var remaining := words - d;
      var avail := n - count;
      if remaining < avail {
        Accept(rx, words, count, d);
        return true, false, count, d;
      }
      if readyLeft != null || readyRight != null {
        if avail > 0 {
          Overrun(rx, words, count, d);
        } else {
          // the pair is full and the mailbox occupied: the samples are dropped
          ghost var v := RxViewAt(count);
          assert Count(v) == n && v.mailbox.Some? && Primed(v, n);
        }
        return true, false, count, d;
      }
      var ok := Send(rx, words, count, d);
      assert Lefts(rx[..words])[d..][avail..] == Lefts(rx[..words])[d + avail..];
      assert Rights(rx[..words])[d..][avail..] == Rights(rx[..words])[d + avail..];
      return !ok, !ok, 0, d + avail;
    }

    /** `len < avail`: the remaining samples fit in the in-progress pair; they are
        copied and the count moves past them. */
    method Accept(rx: seq<uint32>, words: nat, count: nat, d: nat)
      requires Valid() && incomingLeft != null && incomingRight != null
      requires d <= words <= |rx| && count + (words - d) < n
      modifies this`incomingCount, incomingLeft, incomingRight
      ensures Valid()
      ensures var ls, rs := Lefts(rx[..words])[d..], Rights(rx[..words])[d..];
              var v := old(RxViewAt(count));
              RxState() == Deliver(v, ls, rs, n, true) == Deliver(v, ls, rs, n, false)
    {
      ghost var v := RxViewAt(count);
      ghost var ls, rs := Lefts(rx[..words])[d..], Rights(rx[..words])[d..];
      assert Count(v) == count && Primed(v, n);
      var remaining := words - d;
      Chunk(rx, words, d, remaining);
      Fill(rx, d, count, remaining);
      incomingCount := count + remaining;
      assert ls[..remaining] == ls && rs[..remaining] == rs;
      FitStep(v, ls, rs, n, true);
      FitStep(v, ls, rs, n, false);
    }

    /** The mailbox is still occupied: fill the in-progress pair to capacity, and count
        an overrun when samples are left over (they are dropped). */
    method Overrun(rx: seq<uint32>, words: nat, count: nat, d: nat)
      requires Valid() && incomingLeft != null && incomingRight != null && readyLeft != null
      requires d <= words <= |rx| && count < n <= count + (words - d)
      modifies this`incomingCount, this`overrunCount, incomingLeft, incomingRight
      ensures Valid()
      ensures var ls, rs := Lefts(rx[..words])[d..], Rights(rx[..words])[d..];
              var v := old(RxViewAt(count));
              RxState() == Deliver(v, ls, rs, n, true) == Deliver(v, ls, rs, n, false)
    {
      ghost var v := RxViewAt(count);
      ghost var ls, rs := Lefts(rx[..words])[d..], Rights(rx[..words])[d..];
      assert Count(v) == count && Primed(v, n) && v.mailbox.Some?;
      var avail := n - count;
      Chunk(rx, words, d, avail);
      Fill(rx, d, count, avail);
      incomingCount := count + avail;
      ghost var filled := RxState();
      assert filled == v.(inLeft := Some(v.inLeft.value + ls[..avail]), inRight := Some(v.inRight.value + rs[..avail]));
      if words - d - avail > 0 {
        overrunCount := Inc32(overrunCount);
      }
      assert RxState() == filled.(overruns := overrunCount);
      FillStep(v, ls, rs, n, true);
      FillStep(v, ls, rs, n, false);
    }

    /** The mailbox is free: fill the in-progress pair to capacity and publish it
        (`Publish`); on success the loop continues with the samples after them. */
    method Send(rx: seq<uint32>, words: nat, count: nat, d: nat) returns (ok: bool)
      requires Valid() && incomingLeft != null && incomingRight != null && readyLeft == null && readyRight == null
      requires d < words <= |rx| && count <= n <= count + (words - d)
      modifies this`incomingLeft, this`incomingRight, this`incomingCount, this`readyLeft, this`readyRight,
               pool, incomingLeft, incomingRight
      ensures Valid() && leaked == old(leaked) && pool.sent == old(pool.sent)
      ensures var ls, rs := Lefts(rx[..words])[d..], Rights(rx[..words])[d..];
              var v := old(RxViewAt(count));
              var k := n - count;
              && (!ok ==> RxState() == Deliver(v, ls, rs, n, false))
              && (ok ==> && readyLeft != null && incomingLeft != null && incomingRight != null
                         && fresh(incomingLeft) && fresh(incomingRight) && Primed(RxViewAt(0), n)
                         && Deliver(v, ls, rs, n, true) == Deliver(RxViewAt(0), ls[k..], rs[k..], n, true))
    {
      ghost var v := RxViewAt(count);
      ghost var ls, rs := Lefts(rx[..words])[d..], Rights(rx[..words])[d..];
      assert Count(v) == count && Primed(v, n);
      var avail := n - count;
      Chunk(rx, words, d, avail);
      if avail > 0 {
        Fill(rx, d, count, avail);
      } else {
        assert ls[..0] == [] && rs[..0] == [];
        assert v.inLeft.value + [] == v.inLeft.value && v.inRight.value + [] == v.inRight.value;
      }
      assert incomingLeft[..] == incomingLeft[..n] && incomingRight[..] == incomingRight[..n];
      assert incomingLeft[..] == v.inLeft.value + ls[..avail] && incomingRight[..] == v.inRight.value + rs[..avail];
      ghost var published := BlockPair(v.inLeft.value + ls[..avail], v.inRight.value + rs[..avail]);
      ok := Publish();
      if !ok {
        PublishFails(v, ls, rs, n);
      } else {
        PublishStep(v, ls, rs, n);
        assert incomingLeft[..0] == [] && incomingRight[..0] == [];
        assert RxViewAt(0) == RxView(Some([]), Some([]), Some(published), v.overruns);
      }
    }

    /** The start of `usb_audio_receive_callback`: allocate whichever in-progress block
        is missing, storing a left block even when the right allocation then fails. */
    method PrimeBlocks() returns (primed: bool)
      requires Valid()
      modifies this`incomingLeft, this`incomingRight, pool
      ensures Valid() && leaked == old(leaked) && pool.sent == old(pool.sent)
      ensures (incomingLeft == old(incomingLeft) || fresh(incomingLeft))
              && (incomingRight == old(incomingRight) || fresh(incomingRight))
      ensures primed ==> incomingLeft != null && incomingRight != null && RxState() == Prime(old(RxState()))
      ensures !primed ==> && (old(incomingLeft) == null || old(incomingRight) == null)
                          && (RxState() == old(RxState()) || RxState() == old(RxState()).(inLeft := Some([])))
    {
      primed := PrimeLeft();
      if primed {
        primed := PrimeRight();
      }
    }

    /** `if (!left) { left = allocate(); if (!left) return; incoming_left = left; }`:
        on success the left in-progress block exists, an old one with its samples, a
        fresh one empty. */
    method PrimeLeft() returns (ok: bool)
      requires Valid()
      modifies this`incomingLeft, pool
      ensures Valid() && leaked == old(leaked) && pool.sent == old(pool.sent)
      ensures incomingLeft == old(incomingLeft) || fresh(incomingLeft)
      ensures ok == (incomingLeft != null)
      ensures var v := old(RxState());
              && (ok ==> RxState() == v.(inLeft := Prime(v).inLeft))
              && (!ok ==> RxState() == v)
    {
      if incomingLeft == null {
        var b := pool.Allocate();
        if b == null {
          return false;
        }
        incomingLeft := b;
      }
      return true;
    }

    /** The same for the right in-progress block. */
    method PrimeRight() returns (ok: bool)
      requires Valid()
      modifies this`incomingRight, pool
      ensures Valid() && leaked == old(leaked) && pool.sent == old(pool.sent)
      ensures incomingRight == old(incomingRight) || fresh(incomingRight)
      ensures ok == (incomingRight != null)
      ensures var v := old(RxState());
              && (ok ==> RxState() == v.(inRight := Prime(v).inRight))
              && (!ok ==> RxState() == v)
    {
      if incomingRight == null {
        var b := pool.Allocate();
        if b == null {
          return false;
        }
        incomingRight := b;
      }
      return true;
    }

    /** `copy_to_buffers` of `k` words from word `d` of `rx` into the in-progress pair at
        sample `count`: both blocks grow by those samples and nothing else changes. */
    method Fill(rx: seq<uint32>, d: nat, count: nat, k: nat)
      requires Valid() && incomingLeft != null && incomingRight != null
      requires d + k <= |rx| && count + k <= n
      modifies incomingLeft, incomingRight
      ensures var v := old(RxViewAt(count));
              RxViewAt(count + k) == v.(inLeft := Some(v.inLeft.value + Lefts(rx[d..d + k])),
                                        inRight := Some(v.inRight.value + Rights(rx[d..d + k])))
    {
      assert incomingLeft in RxHeld() && incomingRight in RxHeld();
      CopyToBuffers(rx, d, incomingLeft, incomingRight, count, k);
      assert incomingLeft[..count + k] == old(incomingLeft[..count]) + Lefts(rx[d..d + k]);
      assert incomingRight[..count + k] == old(incomingRight[..count]) + Rights(rx[d..d + k]);
    }

    /** The `send:` label of `usb_audio_receive_callback`: the full in-progress pair
        becomes the ready pair, then two fresh blocks are allocated; if either
        allocation fails (a fresh left block is released again) the receive side is left
        without an in-progress pair. */
    method Publish() returns (ok: bool)
      requires Valid() && incomingLeft != null && incomingRight != null && readyLeft == null && readyRight == null
      modifies this`readyLeft, this`readyRight, this`incomingLeft, this`incomingRight, this`incomingCount, pool
      ensures Valid() && leaked == old(leaked) && pool.sent == old(pool.sent)
      ensures readyLeft == old(incomingLeft) && readyRight == old(incomingRight)
      ensures ok ==> && incomingLeft != null && incomingRight != null
                     && fresh(incomingLeft) && fresh(incomingRight) && incomingCount == old(incomingCount)
      ensures !ok ==> incomingLeft == null && incomingRight == null && incomingCount == 0
    {
      readyLeft := incomingLeft;
      readyRight := incomingRight;
      var left := pool.Allocate();
      if left == null {
        incomingLeft := null;
        incomingRight := null;
        incomingCount := 0;
        return false;
      }
      var right := pool.Allocate();
      if right == null {
        pool.Release(left);
        incomingLeft := null;
        incomingRight := null;
        incomingCount := 0;
        return false;
      }
      incomingLeft := left;
      incomingRight := right;
      return true;
    }

  }

  /** The `k` words from word `d` of the packet are the next `k` samples of the stream. */
  lemma Chunk(rx: seq<uint32>, words: nat, d: nat, k: nat)
    requires words <= |rx| && d + k <= words
    ensures Lefts(rx[d..d + k]) == Lefts(rx[..words])[d..][..k]
    ensures Rights(rx[d..d + k]) == Rights(rx[..words])[d..][..k]
  {
    assert rx[..words][d..d + k] == rx[d..d + k];
    LeftsRightsSlice(rx[..words], d, d + k);
  }
}
