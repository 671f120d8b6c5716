/** How many samples per channel `usb_audio_transmit_callback` puts into each packet
    (teensy4/usb_audio.cpp:447-462). Two mechanisms run on every call: the
    accumulator adapter of lines 450-455, whose choice is then overwritten, and the fixed
    cycle of lines 457-462 (nine packets of 44 samples, then one of 45), which decides. */
module Pacing {

  /** The static `count` after `++count` and the reset at 10. */
  function NextCount(count: int): int
  {
    if count + 1 < 10 then count + 1 else 0
  }

  /** The target the cycle picks for the call that finds the counter at `count`. */
  function CycleTarget(count: int): int
  {
    if count + 1 < 10 then 44 else 45
  }

  /** Total target of `k` consecutive calls, the first finding the counter at `count`. */
  function CycleSum(count: int, k: nat): int
    decreases k
  {
    if k == 0 then 0 else CycleTarget(count) + CycleSum(NextCount(count), k - 1)
  }

  /** The counter after `k` calls. */
  function CountAfter(count: int, k: nat): int
    decreases k
  {
    if k == 0 then count else CountAfter(NextCount(count), k - 1)
  }

  /** Each call adds 44 samples, plus one for every call that brings the counter to 10. */
  lemma {:induction false} CycleSumClosedForm(count: int, k: nat)
    requires 0 <= count < 10
    ensures CycleSum(count, k) == 44 * k + (count + k) / 10
    ensures CountAfter(count, k) == (count + k) % 10
    decreases k
  {
    if k > 0 {
      CycleSumClosedForm(NextCount(count), k - 1);
    }
  }

  /** Over any window of `k` packets the cycle emits 44.1 samples per packet to within
      one sample: 44100 samples per second at one packet per millisecond. */
  lemma CycleRate(count: int, k: nat)
    requires 0 <= count < 10
    ensures -10 < 10 * CycleSum(count, k) - 441 * k <= 9
  {
    CycleSumClosedForm(count, k);
  }

  /** Every ten consecutive packets carry exactly 441 samples and bring the counter back
      to where it started. */
  lemma TenPacketCycle(count: int)
    requires 0 <= count < 10
    ensures CycleSum(count, 10) == 441 && CountAfter(count, 10) == count
  {
    CycleSumClosedForm(count, 10);
  }

  /** The accumulator adapter of lines 450-455: the accumulator after one call. */
  function AdapterNext(accumulator: int, subtract: int): int
  {
    var a := accumulator - subtract;
    if a <= 0 then a + 1000 else a
  }

  /** Whether the adapter asks for one sample above `normal_target` on this call. */
  function AdapterExtra(accumulator: int, subtract: int): bool
  {
    accumulator - subtract <= 0
  }

  /** The adapter keeps its accumulator in (0, 1000] when it drains by less than 1000
      per call, so the `int` never overflows. */
  lemma AdapterBounded(accumulator: int, subtract: int)
    requires 0 < accumulator <= 1000 && 0 <= subtract < 1000
    ensures 0 < AdapterNext(accumulator, subtract) <= 1000
  {
  }

  /** Extra samples the adapter asks for over `k` calls. */
  function AdapterExtras(accumulator: int, subtract: int, k: nat): nat
    decreases k
  {
    if k == 0 then 0
    else (if AdapterExtra(accumulator, subtract) then 1 else 0)
         + AdapterExtras(AdapterNext(accumulator, subtract), subtract, k - 1)
  }

  /** The adapter's accumulator after `k` calls. */
  function AdapterAfter(accumulator: int, subtract: int, k: nat): int
    decreases k
  {
    if k == 0 then accumulator else AdapterAfter(AdapterNext(accumulator, subtract), subtract, k - 1)
  }

  /** Integer carry without drift: over `k` calls the adapter adds `k * subtract / 1000`
      extra samples to within one, the remainder staying in the accumulator. */
  lemma {:induction false} AdapterExact(accumulator: int, subtract: int, k: nat)
    requires 0 < accumulator <= 1000 && 0 <= subtract < 1000
    ensures 1000 * AdapterExtras(accumulator, subtract, k)
            == k * subtract + AdapterAfter(accumulator, subtract, k) - accumulator
    ensures 0 < AdapterAfter(accumulator, subtract, k) <= 1000
    ensures -1000 < 1000 * AdapterExtras(accumulator, subtract, k) - k * subtract < 1000
    decreases k
  {
    if k > 0 {
      AdapterBounded(accumulator, subtract);
      AdapterExact(AdapterNext(accumulator, subtract), subtract, k - 1);
      assert k * subtract == (k - 1) * subtract + subtract;
    }
  }
}
