/** Rows of block pointers as `AudioOutputUSB` keeps them (`outgoing[]`, `ready[]` and
    the local `chans[]` of `update`): which blocks they hold, that no block sits in two
    slots, and how the set of held blocks changes when a slot is filled, cleared or
    moved. */
module Slots {
  import opened Words
  import opened Blocks
  import opened DoubleBuffer

  /** No block is held in two slots. */
  ghost predicate Distinct(s: seq<array?<int16>>)
  {
    forall i, j :: 0 <= i < |s| && 0 <= j < |s| && i != j && s[i] != null ==> s[i] != s[j]
  }

  /** The blocks held in some slot. */
  ghost function Held(s: seq<array?<int16>>): set<Block>
  {
    set b: Block | b in s
  }

  /** The block in one slot, if any. */
  ghost function Opt(p: array?<int16>): set<Block>
  {
    if p == null then {} else {p}
  }

  /** A row of `Channels` null pointers. */
  function Nulls(): seq<array?<int16>>
  {
    seq(Channels, _ => null)
  }

  /** A row of eight channel slots in lockstep: all null or all holding a block of `n`
      samples. */
  ghost predicate Lockstep(row: seq<array?<int16>>, n: nat)
  {
    && |row| == Channels
    && (forall c :: 0 <= c < Channels ==> (row[c] == null <==> row[0] == null))
    && (forall c :: 0 <= c < Channels && row[c] != null ==> row[c].Length == n)
  }

  /** The contents of a row of slots, None for a row of null pointers. */
  ghost function Row(row: seq<array?<int16>>): Option<ChannelSet>
    requires |row| == Channels
    reads set c | 0 <= c < Channels :: row[c]
  {
    if row[0] == null then None
    else Some(seq(Channels, c requires 0 <= c < Channels reads set c' | 0 <= c' < Channels :: row[c'] =>
                              if row[c] == null then [] else row[c][..]))
  }

  /** The pool's count of held blocks `owned` is the blocks of the row `all`, each in
      exactly one slot, plus blocks dropped elsewhere (`leaked`). */
  ghost predicate Owns(all: seq<array?<int16>>, owned: set<Block>, leaked: set<Block>)
  {
    Distinct(all) && owned == Held(all) + leaked && leaked !! Held(all)
  }

  /** A block new to the pool, stored into an empty slot of the first part of a row. */
  lemma Adopt(s: seq<array?<int16>>, rest: seq<array?<int16>>, i: nat, b: Block, owned: set<Block>, leaked: set<Block>)
    requires Owns(s + rest, owned, leaked) && i < |s| && s[i] == null && b !in owned
    ensures Owns(s[i := b] + rest, owned + {b}, leaked)
  {
    Place(s + rest, i, b);
    assert (s + rest)[i := b] == s[i := b] + rest;
  }

  lemma HeldConcat(a: seq<array?<int16>>, b: seq<array?<int16>>)
    ensures Held(a + b) == Held(a) + Held(b)
  {
    forall x: Block | x in Held(a + b)
      ensures x in Held(a) + Held(b)
    {
      var k :| 0 <= k < |a + b| && (a + b)[k] == x;
      if k >= |a| {
        assert b[k - |a|] == x;
      }
    }
  }

  /** The slots of a distinct row taken in order: slot `i` is not among the blocks of the
      slots before it, and joins them. */
  lemma HeldSnoc(s: seq<array?<int16>>, i: nat)
    requires Distinct(s) && i < |s| && s[i] != null
    ensures s[i] !in Held(s[..i])
    ensures Held(s[..i + 1]) == Held(s[..i]) + {s[i]}
  {
    assert s[..i + 1] == s[..i] + [s[i]];
    forall j | 0 <= j < i
      ensures s[..i][j] != s[i]
    {
      assert s[..i][j] == s[j];
    }
  }

  /** Growing a window `[off, off + i)` of `all` by one slot adds that slot's block. */
  lemma HeldGrow(all: seq<array?<int16>>, off: nat, i: nat)
    requires off + i < |all|
    ensures Held(all[off..off + i + 1]) == Held(all[off..off + i]) + Opt(all[off + i])
  {
    assert all[off..off + i + 1] == all[off..off + i] + [all[off + i]];
    HeldConcat(all[off..off + i], [all[off + i]]);
  }

  /** In a distinct row, a block is not held by any window of slots that leaves its own
      slot out. */
  lemma Untaken(all: seq<array?<int16>>, x: nat, off: nat, i: nat)
    requires Distinct(all) && x < |all| && all[x] != null && off + i <= |all|
    requires x < off || off + i <= x
    ensures all[x] !in Held(all[off..off + i])
  {
    var w := all[off..off + i];
    forall j | 0 <= j < i
      ensures w[j] != all[x]
    {
      assert w[j] == all[off + j];
    }
  }

  /** Filling an empty slot with a block held nowhere else keeps the row distinct and
      adds that block. */
  lemma Place(s: seq<array?<int16>>, i: nat, b: Block)
    requires Distinct(s) && i < |s| && s[i] == null && b !in Held(s)
    ensures Distinct(s[i := b])
    ensures Held(s[i := b]) == Held(s) + {b}
  {
    var t := s[i := b];
    forall x: Block | x in Held(t)
      ensures x in Held(s) + {b}
    {
      var k :| 0 <= k < |t| && t[k] == x;
      if k != i {
        assert s[k] == x;
      }
    }
    forall x: Block | x in Held(s)
      ensures x in Held(t)
    {
      var k :| 0 <= k < |s| && s[k] == x;
      assert t[k] == x;
    }
    assert t[i] == b;
  }

  /** Three rows side by side: the blocks of the whole are those of the three thirds. */
  lemma HeldThirds(all: seq<array?<int16>>)
    requires |all| == 3 * Channels
    ensures Held(all) == Held(all[..Channels]) + Held(all[Channels..2 * Channels]) + Held(all[2 * Channels..])
  {
    assert all == all[..Channels] + all[Channels..2 * Channels] + all[2 * Channels..];
    HeldConcat(all[..Channels] + all[Channels..2 * Channels], all[2 * Channels..]);
    HeldConcat(all[..Channels], all[Channels..2 * Channels]);
  }

  /** Two disjoint windows of a distinct row, one after the other, form a distinct row. */
  lemma DistinctWindows(all: seq<array?<int16>>, x: nat, y: nat, len: nat)
    requires Distinct(all) && x + len <= |all| && y + len <= |all|
    requires x + len <= y || y + len <= x
    ensures Distinct(all[x..x + len] + all[y..y + len])
  {
    var s := all[x..x + len] + all[y..y + len];
    forall i, j | 0 <= i < |s| && 0 <= j < |s| && i != j && s[i] != null
      ensures s[i] != s[j]
    {
      var p := if i < len then x + i else y + i - len;
      var q := if j < len then x + j else y + j - len;
      assert s[i] == all[p] && s[j] == all[q];
    }
  }

  /** A distinct row followed by null slots is distinct and holds the same blocks. */
  lemma NullsAfter(s: seq<array?<int16>>)
    requires Distinct(s)
    ensures Distinct(s + Nulls()) && Held(s + Nulls()) == Held(s)
  {
    HeldConcat(s, Nulls());
    assert Held(Nulls()) == {};
  }

  /** A distinct row after null slots is distinct and holds the same blocks. */
  lemma NullsBefore(s: seq<array?<int16>>)
    requires Distinct(s)
    ensures Distinct(Nulls() + s) && Held(Nulls() + s) == Held(s)
  {
    HeldConcat(Nulls(), s);
    assert Held(Nulls()) == {};
    var t := Nulls() + s;
    forall i, j | 0 <= i < |t| && 0 <= j < |t| && i != j && t[i] != null
      ensures t[i] != t[j]
    {
      assert t[i] == s[i - Channels];
      if j >= Channels {
        assert t[j] == s[j - Channels];
      }
    }
  }

  /** The slots after the end of a block: the ready row moved into the outgoing row and
      the ready row cleared. With the outgoing blocks released, ownership still holds. */
  lemma PromoteOwnership(out: seq<array?<int16>>, rd: seq<array?<int16>>, owned: set<Block>, leaked: set<Block>)
    requires |out| == |rd| == Channels
    requires Distinct(out + rd) && owned == Held(out + rd) + leaked && leaked !! Held(out + rd)
    ensures var after := rd + Nulls();
            && Distinct(after)
            && owned - Held(out) == Held(after) + leaked
            && leaked !! Held(after)
  {
    var after := rd + Nulls();
    var both := out + rd;
    assert Held(after) == Held(rd);
    assert Held(both) == Held(out) + Held(rd);
    forall i, j | 0 <= i < Channels && 0 <= j < Channels && out[i] != null
      ensures out[i] != rd[j]
    {
      assert both[i] == out[i] && both[Channels + j] == rd[j];
    }
    assert Held(out) !! Held(rd);
    forall i, j | 0 <= i < |after| && 0 <= j < |after| && i != j && after[i] != null
      ensures after[i] != after[j]
    {
      assert after[i] == both[Channels + i];
      if j < Channels {
        assert after[j] == both[Channels + j];
      }
    }
  }
  /** The halves of a distinct row are distinct and share no block. */
  lemma Apart(a: seq<array?<int16>>, b: seq<array?<int16>>)
    requires Distinct(a + b)
    ensures Distinct(a) && Distinct(b) && Held(a) !! Held(b)
  {
    var s := a + b;
    forall i, j | 0 <= i < |a| && 0 <= j < |a| && i != j && a[i] != null
      ensures a[i] != a[j]
    {
      assert s[i] == a[i] && s[j] == a[j];
    }
    forall i, j | 0 <= i < |b| && 0 <= j < |b| && i != j && b[i] != null
      ensures b[i] != b[j]
    {
      assert s[|a| + i] == b[i] && s[|a| + j] == b[j];
    }
    forall i, j | 0 <= i < |a| && 0 <= j < |b| && a[i] != null
      ensures a[i] != b[j]
    {
      assert s[i] == a[i] && s[|a| + j] == b[j];
    }
  }

  /** The blocks of the first `i` slots of each third of a row of three rows. */
  ghost function Released(all: seq<array?<int16>>, i: nat): set<Block>
    requires |all| == 3 * Channels && i <= Channels
  {
    Held(all[..i]) + Held(all[Channels..Channels + i]) + Held(all[2 * Channels..2 * Channels + i])
  }

  /** Column `i` of three distinct rows: its blocks are new to the columns before it and
      to each other, and join them. */
  lemma NextColumn(all: seq<array?<int16>>, i: nat)
    requires |all| == 3 * Channels && Distinct(all) && i < Channels
    ensures var a, o, r := all[i], all[Channels + i], all[2 * Channels + i];
            && Released(all, i + 1) == Released(all, i) + Opt(a) + Opt(o) + Opt(r)
            && (a != null ==> a !in Released(all, i))
            && (o != null ==> o !in Released(all, i) && o != a)
            && (r != null ==> r !in Released(all, i) && r != a && r != o)
  {
    assert Released(all, i + 1) == Released(all, i) + Opt(all[i]) + Opt(all[Channels + i]) + Opt(all[2 * Channels + i]) by {
      assert all[..i] == all[0..0 + i] && all[..i + 1] == all[0..0 + i + 1];
      HeldGrow(all, 0, i);
      HeldGrow(all, Channels, i);
      HeldGrow(all, 2 * Channels, i);
    }
    if all[i] != null {
      NotReleased(all, i, i);
    }
    if all[Channels + i] != null {
      NotReleased(all, Channels + i, i);
    }
    if all[2 * Channels + i] != null {
      NotReleased(all, 2 * Channels + i, i);
    }
  }

  /** A block in column `i` is not among the blocks of the columns before it. */
  lemma NotReleased(all: seq<array?<int16>>, x: nat, i: nat)
    requires |all| == 3 * Channels && Distinct(all) && i < Channels
    requires x == i || x == Channels + i || x == 2 * Channels + i
    requires all[x] != null
    ensures all[x] !in Released(all, i)
  {
    assert all[..i] == all[0..0 + i];
    Untaken(all, x, 0, i);
    Untaken(all, x, Channels, i);
    Untaken(all, x, 2 * Channels, i);
  }

  /** All columns taken: every block of the row. */
  lemma AllReleased(all: seq<array?<int16>>)
    requires |all| == 3 * Channels
    ensures Released(all, Channels) == Held(all)
  {
    HeldThirds(all);
    assert all[Channels..Channels + Channels] == all[Channels..2 * Channels];
    assert all[2 * Channels..2 * Channels + Channels] == all[2 * Channels..];
  }
  /** The overrun shift of `update` on a row `chans ++ outgoing ++ ready`: with the
      outgoing blocks released, the pool holds exactly `ready ++ chans`. */
  lemma OverrunOwnership(all: seq<array?<int16>>, owned: set<Block>, leaked: set<Block>)
    requires |all| == 3 * Channels && Owns(all, owned, leaked)
    ensures Owns(all[2 * Channels..] + all[..Channels], owned - Held(all[Channels..2 * Channels]), leaked)
  {
    var ch, out, rd := all[..Channels], all[Channels..2 * Channels], all[2 * Channels..];
    assert all[2 * Channels..2 * Channels + Channels] == rd && all[0..0 + Channels] == ch;
    assert all[Channels..Channels + Channels] == out;
    DistinctWindows(all, 2 * Channels, 0, Channels);
    HeldThirds(all);
    DistinctWindows(all, Channels, 0, Channels);
    Apart(out, ch);
    DistinctWindows(all, Channels, 2 * Channels, Channels);
    Apart(out, rd);
    HeldConcat(rd, ch);
  }
}
