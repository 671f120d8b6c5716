/** The two sample-moving loops of usb_audio.cpp: `copy_to_buffers` splits received
    interleaved stereo words into a left and a right block, `copy_from_buffers` interleaves
    eight channel blocks into the 16-bit transmit buffer. Pointers become indices; a
    32-bit store through a cast pointer becomes two 16-bit stores, low half first. */
module Copying {
  import opened Words
  import opened Reassembly
  import opened DoubleBuffer

  /** `copy_to_buffers(src + from, left->data + at, right->data + at, len)`
      (teensy4/usb_audio.cpp:132-155). Block data starts on a 4-byte boundary, so the address
      `left->data + at` is 4-byte aligned exactly when `at` is even: single words
      are moved until it is, pairs of words are then moved with one 32-bit store per
      side while more than two words remain, and the rest one word at a time. Whatever
      the path, the samples land in order and nothing outside `[at, at + len)` changes. */
  method CopyToBuffers(src: seq<uint32>, from: nat, left: array<int16>, right: array<int16>, at: nat, len: nat)
    requires left != right
    requires from + len <= |src| && at + len <= left.Length && at + len <= right.Length
    modifies left, right
    ensures left[..] == old(left[..at]) + Lefts(src[from..from + len]) + old(left[at + len..])
    ensures right[..] == old(right[..at]) + Rights(src[from..from + len]) + old(right[at + len..])
  {
    ghost var l0, r0 := left[..], right[..];
    var i := 0;
    // one word at a time until the destination is 4-byte aligned
    while i < len && (at + i) % 2 != 0
      invariant i <= len
      invariant Copied(left[..], l0, src, from, at, i, false)
      invariant Copied(right[..], r0, src, from, at, i, true)
    {
      MoveWord(src, from, left, right, at, i, l0, r0);
      i := i + 1;
    }
    // two words per step, one 32-bit store into each block
    i := CopyPairs(src, from, left, right, at, len, i, l0, r0);
    // the remaining words one at a time
    while i < len
      invariant i <= len
      invariant Copied(left[..], l0, src, from, at, i, false)
      invariant Copied(right[..], r0, src, from, at, i, true)
    {
      MoveWord(src, from, left, right, at, i, l0, r0);
      i := i + 1;
    }
    SpliceHalves(left[..], l0, src, from, at, len, false);
    SpliceHalves(right[..], r0, src, from, at, len, true);
  }

  /** `uint32_t n = *src++; *left++ = n & 0xFFFF; *right++ = n >> 16;`: word `i` split
      into sample `at + i` of each block. */
  method MoveWord(src: seq<uint32>, from: nat, left: array<int16>, right: array<int16>, at: nat, i: nat,
                  ghost l0: seq<int16>, ghost r0: seq<int16>)
    requires left != right
    requires Copied(left[..], l0, src, from, at, i, false) && Copied(right[..], r0, src, from, at, i, true)
    requires from + i < |src| && at + i < left.Length && at + i < right.Length
    modifies left, right
    ensures Copied(left[..], l0, src, from, at, i + 1, false) && Copied(right[..], r0, src, from, at, i + 1, true)
  {
    var n := src[from + i];
    left[at + i] := Signed(Lo(n));
    right[at + i] := Signed(Hi(n));
  }

  /** The middle loop of `copy_to_buffers`: while more than two words remain, move two
      words with one 32-bit store per block, the two low halves packed into the left
      word and the two high halves into the right word. */
  method CopyPairs(src: seq<uint32>, from: nat, left: array<int16>, right: array<int16>, at: nat, len: nat,
                   i0: nat, ghost l0: seq<int16>, ghost r0: seq<int16>) returns (i: nat)
    requires left != right
    requires Copied(left[..], l0, src, from, at, i0, false) && Copied(right[..], r0, src, from, at, i0, true)
    requires i0 <= len && from + len <= |src| && at + len <= left.Length && at + len <= right.Length
    modifies left, right
    ensures i0 <= i <= len && len <= i + 2
    ensures Copied(left[..], l0, src, from, at, i, false) && Copied(right[..], r0, src, from, at, i, true)
  {
    i := i0;
    while i + 2 < len
      invariant i0 <= i <= len
      invariant Copied(left[..], l0, src, from, at, i, false)
      invariant Copied(right[..], r0, src, from, at, i, true)
    {
      var n1 := src[from + i];
      var n := src[from + i + 1];
      var l := Pack(Lo(n1), Lo(n));
      var r := Pack(Hi(n1), Hi(n));
      assert Lo(l) == Lo(n1) && Hi(l) == Lo(n) && Lo(r) == Hi(n1) && Hi(r) == Hi(n);
      left[at + i] := Signed(Lo(l));
      left[at + i + 1] := Signed(Hi(l));
      right[at + i] := Signed(Lo(r));
      right[at + i + 1] := Signed(Hi(r));
      i := i + 2;
    }
  }

  /** `a` holds the low (or high) halves of words `from` to `from + len` of `src` at
      `at` onwards and agrees with `base` everywhere else. */
  ghost predicate Copied(a: seq<int16>, base: seq<int16>, src: seq<uint32>, from: nat, at: nat, len: nat, high: bool)
  {
    && |a| == |base| && at + len <= |a| && from + len <= |src|
    && (forall j :: at <= j < at + len ==> a[j] == Signed(if high then Hi(src[from + (j - at)]) else Lo(src[from + (j - at)])))
    && (forall j :: 0 <= j < |a| && !(at <= j < at + len) ==> a[j] == base[j])
  }

  /** The block contents `copy_to_buffers` leaves: the low (left) or high (right) halves
      of words `from` to `from + len` of `src`, spliced into `base` at `at`. */
  lemma SpliceHalves(a: seq<int16>, base: seq<int16>, src: seq<uint32>, from: nat, at: nat, len: nat, high: bool)
    requires Copied(a, base, src, from, at, len, high)
    ensures !high ==> a == base[..at] + Lefts(src[from..from + len]) + base[at + len..]
    ensures high ==> a == base[..at] + Rights(src[from..from + len]) + base[at + len..]
  {
    var ins := if high then Rights(src[from..from + len]) else Lefts(src[from..from + len]);
    assert forall j :: at <= j < at + len ==> a[j] == ins[j - at];
    Splice(a, base, ins, at);
  }

  /** A sequence that agrees with `ins` on `[at, at + |ins|)` and with `base` elsewhere is
      `base` with that range replaced by `ins`. */
  lemma Splice<T>(a: seq<T>, base: seq<T>, ins: seq<T>, at: nat)
    requires |a| == |base| && at + |ins| <= |a|
    requires forall j :: at <= j < at + |ins| ==> a[j] == ins[j - at]
    requires forall j :: 0 <= j < |a| && !(at <= j < at + |ins|) ==> a[j] == base[j]
    ensures a == base[..at] + ins + base[at + |ins|..]
  {
  }

  /** The contents of eight channel blocks. */
  ghost function ChannelContents(chans: seq<array?<int16>>): (s: ChannelSet)
    requires |chans| == Channels && forall c :: 0 <= c < Channels ==> chans[c] != null
    reads set c | 0 <= c < Channels :: chans[c]
    ensures |s| == Channels && forall c :: 0 <= c < Channels ==> s[c] == chans[c][..]
  {
    seq(Channels, c requires 0 <= c < Channels reads set c' | 0 <= c' < Channels :: chans[c'] => chans[c][..])
  }

  /** One 32-bit word of the transmit buffer: `(right << 16) | (left & 0xFFFF)`, the
      16-bit patterns of a channel pair. */
  function PairWord(left: int16, right: int16): uint32
  {
    Pack(Bits(left), Bits(right))
  }

  /** `copy_from_buffers((uint32_t *)buffer + 4*at, chans[0]->data + offset, ...,
      chans[7]->data + offset, len)` (teensy4/usb_audio.cpp:324-334, 489): frames
      `offset` to `offset + len` of the eight channels go, as their wire image, to 16-bit
      positions `8*at` onwards, and nothing else in the buffer changes. */
  method CopyFromBuffers(dst: array<uint16>, at: nat, chans: seq<array?<int16>>, offset: nat, len: nat)
    requires |chans| == Channels
    requires forall c :: 0 <= c < Channels ==> chans[c] != null && offset + len <= chans[c].Length
    requires 8 * (at + len) <= dst.Length
    modifies dst
    ensures dst[..] == old(dst[..8 * at])
                       + Wire(Frames(ChannelContents(chans), offset, offset + len))
                       + old(dst[8 * (at + len)..])
  {
    ghost var s := ChannelContents(chans);
    ghost var d0 := dst[..];
    var j := 0;
    while j < len
      invariant j <= len
      invariant dst[..] == d0[..8 * at] + Wire(Frames(s, offset, offset + j)) + d0[8 * (at + j)..]
    {
      NextFrame(dst, at, chans, offset, j, s, d0);
      j := j + 1;
    }
  }

  /** One pass of the loop of `copy_from_buffers`: frame `offset + j` goes out after the
      `j` frames already written at `8 * at`. */
  method NextFrame(dst: array<uint16>, at: nat, chans: seq<array?<int16>>, offset: nat, j: nat,
                   ghost s: ChannelSet, ghost d0: seq<uint16>)
    requires |chans| == Channels
    requires forall c :: 0 <= c < Channels ==> chans[c] != null && offset + j < chans[c].Length
    requires s == ChannelContents(chans)
    requires 8 * (at + j + 1) <= dst.Length == |d0|
    requires dst[..] == d0[..8 * at] + Wire(Frames(s, offset, offset + j)) + d0[8 * (at + j)..]
    modifies dst
    ensures dst[..] == d0[..8 * at] + Wire(Frames(s, offset, offset + j + 1)) + d0[8 * (at + j + 1)..]
  {
    var w := 8 * (at + j);
    ghost var frame := seq(Channels, c requires 0 <= c < Channels => Bits(s[c][offset + j]));
    ghost var before := dst[..];
    PutFrame(dst, w, chans, offset + j, frame);
    assert before[..w] == d0[..8 * at] + Wire(Frames(s, offset, offset + j));
    assert before[w + 8..] == d0[8 * (at + j + 1)..];
    FramesSnoc(s, offset, offset + j);
  }

  /** The four stores of one `copy_from_buffers` iteration: the words of frame `k`, whose 16-bit
      patterns are `frame`, at 16-bit position `w`. */
  method PutFrame(dst: array<uint16>, w: nat, chans: seq<array?<int16>>, k: nat, ghost frame: seq<uint16>)
    requires |chans| == Channels && w + 8 <= dst.Length
    requires forall c :: 0 <= c < Channels ==> chans[c] != null && k < chans[c].Length
    requires |frame| == Channels && forall c :: 0 <= c < Channels ==> frame[c] == Bits(chans[c][k])
    modifies dst
    ensures dst[..] == old(dst[..w]) + frame + old(dst[w + 8..])
  {
    var a := PairWord(chans[0][k], chans[1][k]);
    dst[w], dst[w + 1] := Lo(a), Hi(a);
    var b := PairWord(chans[2][k], chans[3][k]);
    dst[w + 2], dst[w + 3] := Lo(b), Hi(b);
    var c := PairWord(chans[4][k], chans[5][k]);
    dst[w + 4], dst[w + 5] := Lo(c), Hi(c);
    var d := PairWord(chans[6][k], chans[7][k]);
    dst[w + 6], dst[w + 7] := Lo(d), Hi(d);
    Splice(dst[..], old(dst[..]), frame, w);
  }

  /** Extending a run of frames by one frame appends that frame's wire image. */
  lemma FramesSnoc(s: ChannelSet, from: nat, to: nat)
    requires from <= to && |s| == Channels && forall c :: 0 <= c < Channels ==> to < |s[c]|
    ensures Wire(Frames(s, from, to + 1))
            == Wire(Frames(s, from, to)) + seq(Channels, c requires 0 <= c < Channels => Bits(s[c][to]))
  {
    var fs := Frames(s, from, to + 1);
    assert fs[..|fs| - 1] == Frames(s, from, to);
  }
}
