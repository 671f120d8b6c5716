/** The receive reassembler of usb_audio.cpp on abstract values: what happens to the
    in-progress block pair, the one-slot mailbox (`ready_left`/`ready_right`) and the
    overrun counter when a run of interleaved stereo words arrives. */
module Reassembly {
  import opened Words

  /** Left samples of interleaved words: the low half of each word, as `int16_t`. */
  function Lefts(ws: seq<uint32>): seq<int16>
  {
    seq(|ws|, k requires 0 <= k < |ws| => Signed(Lo(ws[k])))
  }

  /** Right samples of interleaved words: the high half of each word, as `int16_t`. */
  function Rights(ws: seq<uint32>): seq<int16>
  {
    seq(|ws|, k requires 0 <= k < |ws| => Signed(Hi(ws[k])))
  }

  lemma LeftsRightsSlice(ws: seq<uint32>, i: nat, j: nat)
    requires i <= j <= |ws|
    ensures Lefts(ws[i..j]) == Lefts(ws)[i..j]
    ensures Rights(ws[i..j]) == Rights(ws)[i..j]
  {
    forall k | 0 <= k < j - i
      ensures Lefts(ws[i..j])[k] == Lefts(ws)[i..j][k] && Rights(ws[i..j])[k] == Rights(ws)[i..j][k]
    {
      assert ws[i..j][k] == ws[i + k];
    }
  }

  /** A completed left/right block pair. */
  datatype BlockPair = BlockPair(left: seq<int16>, right: seq<int16>)

  /** What the receive side holds: the samples written so far into the in-progress
      left and right blocks (None while that block is not allocated), the mailbox, and
      `usb_audio_overrun_count`. */
  datatype RxView = RxView(inLeft: Option<seq<int16>>, inRight: Option<seq<int16>>,
                           mailbox: Option<BlockPair>, overruns: uint32)

  /** The samples written into the in-progress pair: `incoming_count`. */
  function Count(v: RxView): nat
  {
    match v.inLeft
    case Some(l) => |l|
    case None => 0
  }

  /** The invariants of the receive side for blocks of `n` samples: the count never
      exceeds the block size, it is 0 unless both blocks are allocated, and a published
      pair is complete. */
  ghost predicate Wf(v: RxView, n: nat)
  {
    && (v.inLeft.Some? && v.inRight.Some? ==>
          |v.inLeft.value| == |v.inRight.value| <= n)
    && (v.inLeft.None? || v.inRight.None? ==>
          (v.inLeft.Some? ==> v.inLeft.value == []) && (v.inRight.Some? ==> v.inRight.value == []))
    && (v.mailbox.Some? ==> |v.mailbox.value.left| == n && |v.mailbox.value.right| == n)
  }

  /** Both in-progress blocks are allocated, so samples can be accepted. */
  ghost predicate Primed(v: RxView, n: nat)
  {
    Wf(v, n) && v.inLeft.Some? && v.inRight.Some?
  }

  /** The receive side once a missing in-progress block has been allocated. */
  function Prime(v: RxView): RxView
  {
    v.(inLeft := Some(if v.inLeft.Some? then v.inLeft.value else []),
       inRight := Some(if v.inRight.Some? then v.inRight.value else []))
  }

  /** The loop of `usb_audio_receive_callback` (teensy4/usb_audio.cpp:184-231) for blocks
      of `n` samples: accept left samples `ls` and right samples `rs` into a primed
      receive side. `freshOk` says whether allocating the two fresh blocks after a
      publication succeeds. */
  function Deliver(v: RxView, ls: seq<int16>, rs: seq<int16>, n: nat, freshOk: bool): (r: RxView)
    requires Primed(v, n) && |ls| == |rs| && n > 0
    ensures Wf(r, n)
    ensures v.mailbox.Some? ==> r.mailbox == v.mailbox
    ensures freshOk ==> Primed(r, n)
    decreases if v.mailbox.None? then 1 else 0
  {
    var c := Count(v);
    var l := v.inLeft.value;
    var rt := v.inRight.value;
    if |ls| < n - c then
      // room for everything: append
      v.(inLeft := Some(l + ls), inRight := Some(rt + rs))
    else if v.mailbox.Some? then
      if c == n then
        // already full and the mailbox is still occupied: drop without counting
        v
      else
        // fill to capacity; count an overrun when samples are left over
        v.(inLeft := Some(l + ls[..n - c]), inRight := Some(rt + rs[..n - c]),
           overruns := if |ls| > n - c then Inc32(v.overruns) else v.overruns)
    else if |ls| == 0 then
      v
    else
      var published := BlockPair(l + ls[..n - c], rt + rs[..n - c]);
      if !freshOk then
        RxView(None, None, Some(published), v.overruns)
      else
        Deliver(RxView(Some([]), Some([]), Some(published), v.overruns),
                ls[n - c..], rs[n - c..], n, freshOk)
  }

  /** While the mailbox is occupied it is left untouched: the in-progress pair is filled
      at most to capacity, the rest is dropped, and the overrun counter rises (by one)
      exactly when samples were dropped from a pair that still had room
      (teensy4/usb_audio.cpp:186-203, 227). */
  lemma StalledMailbox(v: RxView, ls: seq<int16>, rs: seq<int16>, n: nat, freshOk: bool)
    requires Primed(v, n) && |ls| == |rs| && n > 0 && v.mailbox.Some?
    ensures var r := Deliver(v, ls, rs, n, freshOk);
            var keep := if |ls| < n - Count(v) then |ls| else n - Count(v);
            && r.mailbox == v.mailbox
            && r.inLeft == Some(v.inLeft.value + ls[..keep])
            && r.inRight == Some(v.inRight.value + rs[..keep])
            && (r.overruns != v.overruns <==> Count(v) < n && |ls| > n - Count(v))
            && (r.overruns != v.overruns ==> r.overruns == Inc32(v.overruns))
  {
    assert ls[..|ls|] == ls && rs[..|rs|] == rs;
    assert ls[..0] == [] && rs[..0] == [];
    assert v.inLeft.value + [] == v.inLeft.value && v.inRight.value + [] == v.inRight.value;
  }

  /** With the mailbox empty, the first `n` samples of the stream (the held ones followed
      by the new ones) are published as soon as they are complete; then either the fresh
      allocation failed and the in-progress pair is gone, or the rest continues in fresh
      blocks, filled at most to capacity, with one overrun if samples are left over
      (teensy4/usb_audio.cpp:204-231). */
  lemma Publication(v: RxView, ls: seq<int16>, rs: seq<int16>, n: nat, freshOk: bool)
    requires Primed(v, n) && |ls| == |rs| && n > 0 && v.mailbox.None?
    ensures var r := Deliver(v, ls, rs, n, freshOk);
            var c := Count(v);
            var streamL := v.inLeft.value + ls;
            var streamR := v.inRight.value + rs;
            if c + |ls| < n || |ls| == 0 then
              r == v.(inLeft := Some(streamL), inRight := Some(streamR))
            else
              && r.mailbox == Some(BlockPair(streamL[..n], streamR[..n]))
              && (!freshOk ==> r.inLeft.None? && r.inRight.None? && r.overruns == v.overruns)
              && (freshOk ==>
                    var keep := if c + |ls| - n < n then c + |ls| - n else n;
                    && r.inLeft == Some(streamL[n..n + keep])
                    && r.inRight == Some(streamR[n..n + keep])
                    && r.overruns == if c + |ls| > 2 * n then Inc32(v.overruns) else v.overruns)
  {
    var c := Count(v);
    if c + |ls| < n || |ls| == 0 {
      if |ls| == 0 {
        assert v.inLeft.value + ls == v.inLeft.value;
        assert v.inRight.value + rs == v.inRight.value;
      }
    } else {
      var streamL := v.inLeft.value + ls;
      var streamR := v.inRight.value + rs;
      assert streamL[..n] == v.inLeft.value + ls[..n - c];
      assert streamR[..n] == v.inRight.value + rs[..n - c];
      if freshOk {
        var w := RxView(Some([]), Some([]), Some(BlockPair(streamL[..n], streamR[..n])), v.overruns);
        var keep := if c + |ls| - n < n then c + |ls| - n else n;
        StalledMailbox(w, ls[n - c..], rs[n - c..], n, freshOk);
        assert streamL[n..n + keep] == [] + ls[n - c..][..keep];
        assert streamR[n..n + keep] == [] + rs[n - c..][..keep];
      }
    }
  }

  /** Chunk-size independence: with allocations succeeding, feeding `la` then `lb` leaves
      the same in-progress samples and the same mailbox as feeding `la + lb` at once. The
      overrun counts agree too, except when the first chunk filled a stalled pair exactly
      to capacity: a later arrival is then dropped without counting (the `avail == 0`
      path, teensy4/usb_audio.cpp:226-227) where one larger arrival would have counted. */
  lemma {:induction false} DeliverInChunks(v: RxView, la: seq<int16>, ra: seq<int16>,
                                           lb: seq<int16>, rb: seq<int16>, n: nat)
    requires Primed(v, n) && n > 0 && |la| == |ra| && |lb| == |rb|
    ensures var mid := Deliver(v, la, ra, n, true);
            var two := Deliver(mid, lb, rb, n, true);
            var one := Deliver(v, la + lb, ra + rb, n, true);
            && two.inLeft == one.inLeft && two.inRight == one.inRight
            && two.mailbox == one.mailbox
            && (two.overruns == one.overruns
                || (mid.mailbox.Some? && Count(mid) == n && |lb| > 0
                    && two.overruns == mid.overruns && one.overruns == Inc32(two.overruns)))
    decreases if v.mailbox.None? then 1 else 0
  {
    var c := Count(v);
    var l, rt := v.inLeft.value, v.inRight.value;
    var mid := Deliver(v, la, ra, n, true);
    if |la| < n - c {
      FirstChunkFits(v, la, ra, lb, rb, n);
    } else if v.mailbox.Some? {
      FirstChunkStalls(v, la, ra, lb, rb, n);
    } else if |la| == 0 {
      assert la + lb == lb && ra + rb == rb;
    } else {
      var k := n - c;
      var published := BlockPair(l + la[..k], rt + ra[..k]);
      var w := RxView(Some([]), Some([]), Some(published), v.overruns);
      SplitAt(la, lb, k);
      SplitAt(ra, rb, k);
      PublishStep(v, la, ra, n);
      PublishStep(v, la + lb, ra + rb, n);
      DeliverInChunks(w, la[k..], ra[k..], lb, rb, n);
    }
  }

  /** One publication step of `Deliver` with allocations succeeding. */
  lemma PublishStep(v: RxView, ls: seq<int16>, rs: seq<int16>, n: nat)
    requires Primed(v, n) && |ls| == |rs| && n > 0 && v.mailbox.None? && 0 < |ls| && n - Count(v) <= |ls|
    ensures var k := n - Count(v);
            var w := RxView(Some([]), Some([]),
                            Some(BlockPair(v.inLeft.value + ls[..k], v.inRight.value + rs[..k])), v.overruns);
            Deliver(v, ls, rs, n, true) == Deliver(w, ls[k..], rs[k..], n, true)
  {
  }

  /** One step of `Deliver` whose samples all fit in the in-progress pair. */
  lemma FitStep(v: RxView, ls: seq<int16>, rs: seq<int16>, n: nat, freshOk: bool)
    requires Primed(v, n) && |ls| == |rs| && n > 0 && |ls| < n - Count(v)
    ensures Deliver(v, ls, rs, n, freshOk)
            == v.(inLeft := Some(v.inLeft.value + ls), inRight := Some(v.inRight.value + rs))
  {
  }

  /** Delivering no samples changes nothing. */
  lemma DeliverNothing(v: RxView, n: nat, freshOk: bool)
    requires Primed(v, n) && n > 0
    ensures Deliver(v, [], [], n, freshOk) == v
  {
    assert v.inLeft.value + [] == v.inLeft.value && v.inRight.value + [] == v.inRight.value;
  }

  /** One publication step of `Deliver` whose fresh allocation fails. */
  lemma PublishFails(v: RxView, ls: seq<int16>, rs: seq<int16>, n: nat)
    requires Primed(v, n) && |ls| == |rs| && n > 0 && v.mailbox.None? && 0 < |ls| && n - Count(v) <= |ls|
    ensures var k := n - Count(v);
            Deliver(v, ls, rs, n, false)
            == RxView(None, None, Some(BlockPair(v.inLeft.value + ls[..k], v.inRight.value + rs[..k])), v.overruns)
  {
  }

  /** A first chunk that fits in the in-progress pair makes no difference at all. */
  lemma FirstChunkFits(v: RxView, la: seq<int16>, ra: seq<int16>, lb: seq<int16>, rb: seq<int16>, n: nat)
    requires Primed(v, n) && n > 0 && |la| == |ra| && |lb| == |rb| && |la| < n - Count(v)
    ensures Deliver(Deliver(v, la, ra, n, true), lb, rb, n, true) == Deliver(v, la + lb, ra + rb, n, true)
  {
    var l, rt := v.inLeft.value, v.inRight.value;
    var mid := v.(inLeft := Some(l + la), inRight := Some(rt + ra));
    assert Deliver(v, la, ra, n, true) == mid;
    var k := n - Count(v) - |la|;
    if |lb| < k {
      BothFit(v, la, ra, lb, rb, n);
    } else if v.mailbox.None? {
      FitThenPublish(v, la, ra, lb, rb, n);
    } else {
      FitThenFill(v, la, ra, lb, rb, n);
    }
  }

  /** A fitting first chunk, then a second that completes the pair for an empty mailbox. */
  lemma FitThenPublish(v: RxView, la: seq<int16>, ra: seq<int16>, lb: seq<int16>, rb: seq<int16>, n: nat)
    requires Primed(v, n) && n > 0 && |la| == |ra| && |lb| == |rb| && v.mailbox.None?
    requires |la| < n - Count(v) <= |la| + |lb|
    ensures var mid := v.(inLeft := Some(v.inLeft.value + la), inRight := Some(v.inRight.value + ra));
            Deliver(mid, lb, rb, n, true) == Deliver(v, la + lb, ra + rb, n, true)
  {
    var l, rt := v.inLeft.value, v.inRight.value;
    var mid := v.(inLeft := Some(l + la), inRight := Some(rt + ra));
    var k := n - Count(v) - |la|;
    var c := Count(v);
    var w := RxView(Some([]), Some([]), Some(BlockPair(l + (la + lb)[..n - c], rt + (ra + rb)[..n - c])), v.overruns);
    assert Deliver(mid, lb, rb, n, true) == Deliver(w, (la + lb)[n - c..], (ra + rb)[n - c..], n, true) by {
      Regroup(l, la, lb, k);
      Regroup(rt, ra, rb, k);
      PublishStep(mid, lb, rb, n);
    }
    assert Deliver(v, la + lb, ra + rb, n, true) == Deliver(w, (la + lb)[n - c..], (ra + rb)[n - c..], n, true) by {
      PublishStep(v, la + lb, ra + rb, n);
    }
  }

  /** A fitting first chunk, then a second that fills the pair while the mailbox is
      occupied. */
  lemma FitThenFill(v: RxView, la: seq<int16>, ra: seq<int16>, lb: seq<int16>, rb: seq<int16>, n: nat)
    requires Primed(v, n) && n > 0 && |la| == |ra| && |lb| == |rb| && v.mailbox.Some?
    requires |la| < n - Count(v) <= |la| + |lb|
    ensures var mid := v.(inLeft := Some(v.inLeft.value + la), inRight := Some(v.inRight.value + ra));
            Deliver(mid, lb, rb, n, true) == Deliver(v, la + lb, ra + rb, n, true)
  {
    var l, rt := v.inLeft.value, v.inRight.value;
    var mid := v.(inLeft := Some(l + la), inRight := Some(rt + ra));
    var k := n - Count(v) - |la|;
    var c := Count(v);
    var r := v.(inLeft := Some(l + (la + lb)[..n - c]), inRight := Some(rt + (ra + rb)[..n - c]),
                overruns := if |la + lb| > n - c then Inc32(v.overruns) else v.overruns);
    assert Count(mid) == c + |la|;
    FillStep(mid, lb, rb, n, true);
    var d := mid.(inLeft := Some((l + la) + lb[..k]), inRight := Some((rt + ra) + rb[..k]),
                  overruns := if |lb| > k then Inc32(v.overruns) else v.overruns);
    assert Deliver(mid, lb, rb, n, true) == d;
    assert d == r by {
      assert |la| + k == n - c;
      Regroup(l, la, lb, k);
      Regroup(rt, ra, rb, k);
      assert (l + la) + lb[..k] == l + (la + lb)[..n - c];
      assert (rt + ra) + rb[..k] == rt + (ra + rb)[..n - c];
    }
    assert Deliver(v, la + lb, ra + rb, n, true) == r by {
      FillStep(v, la + lb, ra + rb, n, true);
    }
  }

  lemma BothFit(v: RxView, la: seq<int16>, ra: seq<int16>, lb: seq<int16>, rb: seq<int16>, n: nat)
    requires Primed(v, n) && n > 0 && |la| == |ra| && |lb| == |rb| && |la| + |lb| < n - Count(v)
    ensures Deliver(Deliver(v, la, ra, n, true), lb, rb, n, true) == Deliver(v, la + lb, ra + rb, n, true)
  {
    var l, rt := v.inLeft.value, v.inRight.value;
    assert (l + la) + lb == l + (la + lb);
    assert (rt + ra) + rb == rt + (ra + rb);
  }

  /** One step of `Deliver` that fills a pair while the mailbox is occupied. */
  lemma FillStep(v: RxView, ls: seq<int16>, rs: seq<int16>, n: nat, freshOk: bool)
    requires Primed(v, n) && |ls| == |rs| && n > 0 && v.mailbox.Some? && Count(v) < n && n - Count(v) <= |ls|
    ensures var k := n - Count(v);
            Deliver(v, ls, rs, n, freshOk)
            == v.(inLeft := Some(v.inLeft.value + ls[..k]), inRight := Some(v.inRight.value + rs[..k]),
                  overruns := if |ls| > k then Inc32(v.overruns) else v.overruns)
  {
  }

  lemma SplitAt(a: seq<int16>, b: seq<int16>, k: nat)
    requires k <= |a|
    ensures (a + b)[..k] == a[..k] && (a + b)[k..] == a[k..] + b
  {
  }

  /** Held samples, a chunk, then part of the next chunk, grouped either way. */
  lemma Regroup(h: seq<int16>, a: seq<int16>, b: seq<int16>, k: nat)
    requires k <= |b|
    ensures (h + a) + b[..k] == h + (a + b)[..|a| + k]
    ensures b[k..] == (a + b)[|a| + k..]
  {
    assert (a + b)[..|a| + k] == a + b[..k];
  }

  /** With the mailbox occupied, a first chunk that fills the in-progress pair leaves the
      same samples as the whole arrival, and counts the same overrun unless it filled
      the pair exactly. */
  lemma FirstChunkStalls(v: RxView, la: seq<int16>, ra: seq<int16>, lb: seq<int16>, rb: seq<int16>, n: nat)
    requires Primed(v, n) && n > 0 && |la| == |ra| && |lb| == |rb| && |la| >= n - Count(v) && v.mailbox.Some?
    ensures var mid := Deliver(v, la, ra, n, true);
            var two := Deliver(mid, lb, rb, n, true);
            var one := Deliver(v, la + lb, ra + rb, n, true);
            && two.inLeft == one.inLeft && two.inRight == one.inRight
            && two.mailbox == one.mailbox
            && (two.overruns == one.overruns
                || (Count(mid) == n && |lb| > 0
                    && two.overruns == mid.overruns && one.overruns == Inc32(two.overruns)))
  {
    var c := Count(v);
    if c < n {
      assert (la + lb)[..n - c] == la[..n - c];
      assert (ra + rb)[..n - c] == ra[..n - c];
    }
  }

  /** The overrun count is not chunk-independent: a stalled pair filled exactly to
      capacity by one arrival makes the next arrival vanish uncounted, while the same
      samples in one arrival count an overrun. */
  lemma StalledArrivalUncounted()
    ensures var v := RxView(Some([0]), Some([0]), Some(BlockPair([0, 0], [0, 0])), 0);
            var mid := Deliver(v, [1], [1], 2, true);
            && Deliver(mid, [2], [2], 2, true).overruns == 0
            && Deliver(v, [1, 2], [1, 2], 2, true).overruns == 1
  {
    var v := RxView(Some([0]), Some([0]), Some(BlockPair([0, 0], [0, 0])), 0);
    var one: seq<int16> := [1];
    var both: seq<int16> := [1, 2];
    StalledMailbox(v, one, one, 2, true);
    StalledMailbox(v, both, both, 2, true);
    var mid := Deliver(v, one, one, 2, true);
    assert one[..1] == one && [0] + one == [0, 1];
    assert Count(mid) == 2;
  }
}
