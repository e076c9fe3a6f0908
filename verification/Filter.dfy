/** First-order Q16.16 low-pass filter and its validity lifecycle (core/thermal_filter.c). */
module Filter {
  import opened CInt

  datatype State = State(value: i32, valid: bool, initialized: bool)

  const RESET: State := State(0, false, false)

  datatype Sample = Sample(value: i32, valid: bool)

  function Delta(alpha: int, error: int): int { RoundQ16(alpha * error) }

  function Advance(prev: i32, sample: i32, alpha: int): i32 {
    ClampI32(prev + Delta(alpha, sample - prev))
  }

  function Step(s: State, alpha: int, sample: Sample): State {
    if !sample.valid then s.(valid := false)
    else if !s.initialized then State(sample.value, true, true)
    else State(Advance(s.value, sample.value, alpha), true, true)
  }

  class Filter {
    var filteredValue: i32
    var valid: bool
    var initialized: bool

    function View(): State reads this { State(filteredValue, valid, initialized) }

    constructor ()
      ensures View() == RESET
    {
      filteredValue, valid, initialized := 0, false, false;
    }

    method StepSample(alpha: i32, sample: i32, sampleValid: bool)
      modifies this
      ensures View() == Step(old(View()), alpha, Sample(sample, sampleValid))
    {
      if !sampleValid {
        valid := false;
        return;
      }
      if !initialized {
        filteredValue, initialized, valid := sample, true, true;
        return;
      }
      var product := alpha * (sample - filteredValue);
      var delta := if product >= 0 then (product + 32768) / Q16_ONE else -((-product + 32768) / Q16_ONE);
      var next := filteredValue + delta;
      if next > I32_MAX {
        filteredValue := I32_MAX;
      } else if next < I32_MIN {
        filteredValue := I32_MIN;
      } else {
        filteredValue := next;
      }
      valid := true;
    }
  }

  /** With a coefficient in [0, 1] the correction has the sign of the error and at most its size. */
  lemma DeltaBounded(alpha: int, e: int)
    requires 0 <= alpha <= Q16_ONE
    ensures e >= 0 ==> 0 <= Delta(alpha, e) <= e
    ensures e <= 0 ==> e <= Delta(alpha, e) <= 0
  {
    if e >= 0 {
      MulMono(0, alpha, e);
      MulMono(alpha, Q16_ONE, e);
      RoundBelow(alpha * e, e);
    } else {
      MulMono(0, alpha, -e);
      MulMono(alpha, Q16_ONE, -e);
      assert alpha * -e == -(alpha * e);
      RoundBelow(-(alpha * e), -e);
      RoundOdd(alpha * e);
    }
  }

  lemma RoundBelow(p: int, m: int)
    requires 0 <= p <= Q16_ONE * m
    ensures RoundQ16(p) <= m
  {
  }

  lemma MulNegate(a: int, e: int)
    ensures a * -e == -(a * e)
  {
  }

  lemma RoundOdd(p: int)
    ensures RoundQ16(-p) == -RoundQ16(p)
  {
  }

  /** The new value lies between the old value and the sample, so saturation never triggers. */
  lemma AdvanceBetween(prev: i32, sample: i32, alpha: int)
    requires 0 <= alpha <= Q16_ONE
    ensures Min(prev, sample) <= Advance(prev, sample, alpha) <= Max(prev, sample)
    ensures Advance(prev, sample, alpha) == prev + Delta(alpha, sample - prev)
  {
    DeltaBounded(alpha, sample - prev);
  }

  /** The correction is alpha times the error, rounded to the nearest count, halves away from zero. */
  lemma AdvanceRounds(prev: i32, sample: i32, alpha: int)
    requires 0 <= alpha <= Q16_ONE
    ensures var (n, moved) := (alpha * (sample - prev), Advance(prev, sample, alpha) - prev);
            2 * Abs(n - Q16_ONE * moved) <= Q16_ONE &&
            (2 * Abs(n - Q16_ONE * moved) == Q16_ONE ==> Abs(Q16_ONE * moved) > Abs(n))
  {
    AdvanceBetween(prev, sample, alpha);
    HalvesGoOut(alpha * (sample - prev));
  }

  lemma HalvesGoOut(p: int)
    ensures 2 * Abs(p - Q16_ONE * RoundQ16(p)) == Q16_ONE ==> Abs(Q16_ONE * RoundQ16(p)) > Abs(p)
  {
  }

  /** The lifecycle: the filter is valid exactly while its samples are; an invalid sample holds the value, and the
      first valid one sets it. */
  lemma Lifecycle(s: State, alpha: int, sample: Sample)
    ensures var t := Step(s, alpha, sample);
            t.valid == sample.valid && t.initialized == (s.initialized || sample.valid) &&
            (!sample.valid ==> t.value == s.value) && (sample.valid && !s.initialized ==> t.value == sample.value) &&
            (sample.valid && s.initialized ==> t.value == Advance(s.value, sample.value, alpha))
  {
  }

  lemma DeltaOdd(alpha: int, error: int)
    ensures Delta(alpha, -error) == -Delta(alpha, error)
  {
    MulNegate(alpha, error);
    RoundOdd(alpha * error);
  }

  /** Rounding is symmetric: negating input and state negates the result. */
  lemma AdvanceOdd(prev: i32, sample: i32, alpha: int)
    requires 0 <= alpha <= Q16_ONE
    requires prev > I32_MIN && sample > I32_MIN
    ensures Advance(-prev, -sample, alpha) + Advance(prev, sample, alpha) == 0
  {
    DeltaBounded(alpha, sample - prev);
    DeltaOdd(alpha, sample - prev);
    assert -sample - -prev == -(sample - prev);
  }

  // ----- Whole runs

  ghost function Run(s: State, alpha: int, samples: seq<Sample>): State {
    if |samples| == 0 then s
    else Step(Run(s, alpha, samples[..|samples| - 1]), alpha, samples[|samples| - 1])
  }

  /** Bounds on the initial value (once there is one) and on the valid samples bound every later value. */
  lemma {:induction false} RunStaysInHull(s: State, alpha: int, samples: seq<Sample>, lo: int, hi: int)
    requires 0 <= alpha <= Q16_ONE
    requires s.initialized ==> lo <= s.value <= hi
    requires forall k :: 0 <= k < |samples| && samples[k].valid ==> lo <= samples[k].value <= hi
    ensures Run(s, alpha, samples).initialized ==> lo <= Run(s, alpha, samples).value <= hi
    ensures Run(s, alpha, samples).initialized <==>
      s.initialized || exists k :: 0 <= k < |samples| && samples[k].valid
  {
    if |samples| > 0 {
      var k := |samples| - 1;
      RunStaysInHull(s, alpha, samples[..k], lo, hi);
      var before := Run(s, alpha, samples[..k]);
      if samples[k].valid && before.initialized {
        AdvanceBetween(before.value, samples[k].value, alpha);
      }
      if exists j :: 0 <= j < |samples| && samples[j].valid {
        var j :| 0 <= j < |samples| && samples[j].valid;
        assert j < k ==> samples[..k][j].valid;
      }
    }
  }

  lemma {:induction false} ValidIsInitialized(s: State, alpha: int, samples: seq<Sample>)
    requires s.valid ==> s.initialized
    ensures Run(s, alpha, samples).valid ==> Run(s, alpha, samples).initialized
  {
    if |samples| > 0 { ValidIsInitialized(s, alpha, samples[..|samples| - 1]); }
  }

  lemma AbsProduct(a: int, e: int)
    requires a >= 0
    ensures Abs(a * e) == a * Abs(e)
  {
    MulMono(0, a, Abs(e));
    MulNegate(a, e);
  }

  /** The filter is at rest exactly when the scaled error rounds to zero; otherwise the error shrinks. */
  lemma ErrorShrinks(prev: i32, target: i32, alpha: int)
    requires 0 <= alpha <= Q16_ONE
    ensures alpha * Abs(target - prev) < 32768 ==> Advance(prev, target, alpha) == prev
    ensures alpha * Abs(target - prev) >= 32768 ==>
      Abs(target - Advance(prev, target, alpha)) < Abs(target - prev)
  {
    var e := target - prev;
    AdvanceBetween(prev, target, alpha);
    DeltaBounded(alpha, e);
    AbsProduct(alpha, e);
  }

  /** The number of steps a constant input needs before the value stops moving. */
  ghost function SettleTicks(prev: i32, target: i32, alpha: int): nat
    requires 0 <= alpha <= Q16_ONE
    decreases Abs(target - prev)
  {
    if alpha * Abs(target - prev) < 32768 then 0
    else
      ErrorShrinks(prev, target, alpha);
      1 + SettleTicks(Advance(prev, target, alpha), target, alpha)
  }

  ghost function Held(target: i32, n: nat): seq<Sample> { seq(n, _ => Sample(target, true)) }

  /** A filter at rest stays where it is. */
  lemma {:induction false} Rests(v: i32, target: i32, alpha: int, n: nat)
    requires 0 <= alpha <= Q16_ONE && alpha * Abs(target - v) < 32768
    ensures Run(State(v, true, true), alpha, Held(target, n)) == State(v, true, true)
  {
    if n > 0 {
      assert Held(target, n)[..n - 1] == Held(target, n - 1);
      Rests(v, target, alpha, n - 1);
      ErrorShrinks(v, target, alpha);
    }
  }

  /** The error itself bounds the settling time. */
  lemma {:induction false} SettleBound(v: i32, target: i32, alpha: int)
    requires 0 <= alpha <= Q16_ONE
    ensures SettleTicks(v, target, alpha) <= Abs(target - v)
    decreases Abs(target - v)
  {
    if alpha * Abs(target - v) >= 32768 {
      ErrorShrinks(v, target, alpha);
      SettleBound(Advance(v, target, alpha), target, alpha);
    }
  }

  /** Under a constant valid input the error is below half a count over alpha from tick
      SettleTicks on, and the value never moves again. */
  lemma {:induction false} Settles(v: i32, target: i32, alpha: int, n: nat)
    requires 0 <= alpha <= Q16_ONE && n >= SettleTicks(v, target, alpha)
    ensures var r := Run(State(v, true, true), alpha, Held(target, n));
            alpha * Abs(target - r.value) < 32768 &&
            r == Run(State(v, true, true), alpha, Held(target, SettleTicks(v, target, alpha)))
    decreases Abs(target - v)
  {
    if alpha * Abs(target - v) < 32768 {
      Rests(v, target, alpha, n);
      Rests(v, target, alpha, 0);
    } else {
      ErrorShrinks(v, target, alpha);
      var w := Advance(v, target, alpha);
      Settles(w, target, alpha, n - 1);
      HeldShift(v, target, alpha, n - 1);
      HeldShift(v, target, alpha, SettleTicks(w, target, alpha));
    }
  }

  lemma {:induction false} HeldShift(v: i32, target: i32, alpha: int, n: nat)
    ensures Run(State(v, true, true), alpha, Held(target, n + 1))
         == Run(State(Advance(v, target, alpha), true, true), alpha, Held(target, n))
  {
    assert Held(target, n + 1)[..n] == Held(target, n);
    if n > 0 {
      assert Held(target, n)[..n - 1] == Held(target, n - 1);
      HeldShift(v, target, alpha, n - 1);
    } else {
      assert Run(State(v, true, true), alpha, Held(target, 0)) == State(v, true, true);
    }
  }
}
