/** The explicit feedback value of section 5.12.4.2 of the USB 2.0 Specification, as
    usb_audio.cpp keeps it: a 32-bit accumulator holding samples per 1 ms frame scaled
    by 2^24, nudged by the receive fill level and sent shifted right by a
    speed-dependent amount. */
module Feedback {
  import opened Words

  /** The seed written by `usb_audio_configure` (teensy4/usb_audio.cpp:97). */
  const Seed: uint32 := 739875226

  /** Extra correction added on a period in which no received block pair was ready
      (teensy4/usb_audio.cpp:261). */
  const UnderrunBias: int := 3500

  /** `usb_audio_sync_nbytes` and `usb_audio_sync_rshift`. */
  datatype SyncFormat = SyncFormat(nbytes: nat, rshift: nat)

  /** The speed-dependent format chosen by `usb_audio_configure`
      (teensy4/usb_audio.cpp:98-104). */
  function Format(highSpeed: bool): SyncFormat
  {
    if highSpeed then SyncFormat(4, 8) else SyncFormat(3, 10)
  }

  function Pow2(k: nat): (p: nat)
    ensures p >= 1
  {
    if k == 0 then 1 else 2 * Pow2(k - 1)
  }

  /** `feedback_accumulator >> usb_audio_sync_rshift` (teensy4/usb_audio.cpp:86, 302). */
  function Value(accumulator: uint32, rshift: nat): uint32
  {
    DivBelow(accumulator as int, Pow2(rshift));
    (accumulator as int / Pow2(rshift)) as uint32
  }

  lemma DivBelow(a: nat, p: nat)
    requires p >= 1
    ensures 0 <= a / p <= a
  {
    var q := a / p;
    assert q * p <= a;
    assert q * p == q + q * (p - 1);
    assert q * (p - 1) >= 0;
  }

  /** The seed is 44.1 samples per frame in the accumulator's scale: the nearest integer
      to 44.1 * 2^24. */
  lemma SeedIsNominalRate()
    ensures -5 <= 10 * Seed as int - 441 * Pow2(24) < 5
  {
    assert Pow2(24) == 16777216 by {
      assert Pow2(8) == 256;
      assert Pow2(16) == 65536 by { assert Pow2(16) == 256 * Pow2(8) by { Pow2Add(8, 8); } }
      Pow2Add(16, 8);
    }
  }

  lemma {:induction false} Pow2Add(a: nat, b: nat)
    ensures Pow2(a + b) == Pow2(a) * Pow2(b)
    decreases a
  {
    if a > 0 {
      Pow2Add(a - 1, b);
    }
  }

  /** The value sent fits in the `nbytes` bytes of the feedback transfer at either speed:
      a 10.14 value in 3 bytes at full speed, a 16.16 value in 4 bytes at high speed. */
  lemma ValueFits(accumulator: uint32, highSpeed: bool)
    ensures var f := Format(highSpeed);
            Value(accumulator, f.rshift) as int < Pow2(8 * f.nbytes)
  {
    assert Pow2(16) == 0x1_0000 by { Pow2Add(8, 8); }
    if highSpeed {
      assert Pow2(32) == 0x1_0000_0000 by { Pow2Add(16, 16); }
      assert Value(accumulator, 8) as int == accumulator as int / 0x100;
    } else {
      assert Pow2(24) == 0x100_0000 by { Pow2Add(16, 8); }
      assert Pow2(10) == 0x400 by { Pow2Add(8, 2); }
      assert Value(accumulator, 10) as int == accumulator as int / 0x400;
    }
  }

  /** The feedback accumulator after one `AudioInputUSB::update` (teensy4/usb_audio.cpp:
      248-262), for blocks of `blockSamples` samples: when data arrived since the last
      period (`flag`), add the distance of the fill level `count` below half a block, and
      when a block pair was missing add the underrun bias too. */
  function Step(accumulator: uint32, flag: bool, count: int, blockSamples: nat, missing: bool): uint32
  {
    var a := if flag then Add32(accumulator, blockSamples / 2 - count) else accumulator;
    if missing && flag then Add32(a, UnderrunBias) else a
  }

  lemma Add32Twice(x: uint32, d: int, e: int)
    ensures Add32(Add32(x, d), e) == Add32(x, d + e)
  {
    var m := 0x1_0000_0000;
    var y := (x as int + d) % m;
    assert (x as int + d) == ((x as int + d) / m) * m + y;
    assert (y + e) % m == (x as int + d + e) % m by {
      assert x as int + d + e == y + e + ((x as int + d) / m) * m;
      ModMultiple(y + e, (x as int + d) / m, m);
    }
  }

  lemma ModMultiple(a: int, k: int, m: int)
    requires m > 0
    ensures (a + k * m) % m == a % m
  {
    var q := a / m;
    var r := a % m;
    assert a + k * m == (q + k) * m + r;
    ModUnique(a + k * m, q + k, r, m);
  }

  /** The remainder is the only `r` in [0, m) with `x == q * m + r`. */
  lemma ModUnique(x: int, q: int, r: int, m: int)
    requires m > 0 && 0 <= r < m && x == q * m + r
    ensures x % m == r
  {
    var d := x / m - q;
    assert d * m == r - x % m;
    ScaledAway(d, m);
  }

  /** A nonzero multiple of `m` is at least `m` away from zero. */
  lemma ScaledAway(d: int, m: int)
    requires m > 0
    ensures d >= 1 ==> d * m >= m
    ensures d <= -1 ==> d * m <= -m
  {
    assert d * m == m + (d - 1) * m;
    assert d * m == -m + (d + 1) * m;
  }

  /** One update moves the accumulator (modulo 2^32) by exactly the fill-level error
      `blockSamples/2 - count`, plus the underrun bias when a block pair was missing, and
      only when data arrived since the last period. */
  lemma StepDelta(accumulator: uint32, flag: bool, count: int, blockSamples: nat, missing: bool)
    ensures Step(accumulator, flag, count, blockSamples, missing)
            == if flag then Add32(accumulator, blockSamples / 2 - count + (if missing then UnderrunBias else 0))
               else accumulator
  {
    if flag && missing {
      Add32Twice(accumulator, blockSamples / 2 - count, UnderrunBias);
    }
    if flag && !missing {
      assert Add32(accumulator, blockSamples / 2 - count + 0) == Add32(accumulator, blockSamples / 2 - count);
    }
  }

  /** The integral controller's direction: away from wrap-around, a fill level below half
      a block raises the feedback (asking the host for more samples), one above lowers
      it, and a half-full buffer with a pair delivered leaves it unchanged. */
  lemma StepDirection(accumulator: uint32, count: int, blockSamples: nat)
    requires 0 <= accumulator as int + blockSamples / 2 - count < 0x1_0000_0000
    ensures var r := Step(accumulator, true, count, blockSamples, false);
            && (count < blockSamples / 2 ==> r > accumulator)
            && (count > blockSamples / 2 ==> r < accumulator)
            && (count == blockSamples / 2 ==> r == accumulator)
  {
    StepDelta(accumulator, true, count, blockSamples, false);
  }
}
