/** The inputs for which the intermediate values of the C code fit their types, so that the unbounded
    arithmetic of the other modules is the arithmetic the C code performs (core/thermal_filter.c:37-42,
    core/thermal_pid.c:54-97, core/thermal_curve.c:27-38, core/thermal_zone.c:57-76,
    core/thermal_fault.c:207-218, 290-302, core/thermal_governor.c:20). */
module Ranges {
  import opened CInt
  import opened Config
  import opened Fault
  import opened Governor
  import Curve
  import Detectors
  import Filter
  import Pid
  import Runaway
  import Zone

  const I64_MIN: int := -0x8000_0000_0000_0000
  const I64_MAX: int := 0x7FFF_FFFF_FFFF_FFFF

  predicate FitsI64(v: int) { I64_MIN <= v <= I64_MAX }

  /** A product is at most the product of the bounds of its factors. */
  lemma ProductBounded(a: int, b: int, m: int, n: int)
    requires -m <= a <= m && -n <= b <= n
    ensures -(m * n) <= a * b <= m * n
  {
    var p, q := Abs(a), Abs(b);
    MulMono(p, m, q);
    MulMono(q, n, m);
    assert q * m == m * q && n * m == m * n;
    assert a * b == p * q || a * b == -(p * q);
  }

  // ----- The filter

  /** The difference, the rounded product and the sum of one filter step. */
  predicate FilterFits(value: i32, sample: i32, alpha: int) {
    var product := alpha * (sample - value);
    FitsI32(sample - value) && FitsI64(product + 32768) && FitsI64(-product + 32768) &&
    FitsI64(value + Filter.Delta(alpha, sample - value))
  }

  lemma CloseValuesFit(value: i32, sample: i32, alpha: int)
    requires 0 <= alpha <= Q16_ONE && FitsI32(sample - value)
    ensures FilterFits(value, sample, alpha)
  {
    ProductBounded(alpha, sample - value, Q16_ONE, 0x8000_0000);
    Filter.AdvanceBetween(value, sample, alpha);
  }

  predicate Bounded(samples: seq<Filter.Sample>, lo: int, hi: int) {
    forall k :: 0 <= k < |samples| && samples[k].valid ==> lo <= samples[k].value <= hi
  }

  /** The step that takes sample k of a run. */
  ghost predicate SampleFits(alpha: int, samples: seq<Filter.Sample>, k: nat)
    requires k < |samples|
  {
    var before := Filter.Run(Filter.RESET, alpha, samples[..k]);
    samples[k].valid && before.initialized ==> FilterFits(before.value, samples[k].value, alpha)
  }

  lemma BoundedSampleFits(alpha: int, samples: seq<Filter.Sample>, k: nat, lo: int, hi: int)
    requires 0 <= alpha <= Q16_ONE && Bounded(samples, lo, hi) && hi - lo <= I32_MAX && k < |samples|
    ensures SampleFits(alpha, samples, k)
  {
    Filter.RunStaysInHull(Filter.RESET, alpha, samples[..k], lo, hi);
    var before := Filter.Run(Filter.RESET, alpha, samples[..k]);
    if samples[k].valid && before.initialized { CloseValuesFit(before.value, samples[k].value, alpha); }
  }

  /** Every run of samples within [lo, hi] fits. */
  ghost predicate EveryRunFits(lo: int, hi: int) {
    forall alpha, samples, k: nat ::
      (0 <= alpha <= Q16_ONE && Bounded(samples, lo, hi) && k < |samples|) ==> SampleFits(alpha, samples, k)
  }

  /** No filter run over samples of a range overflows if and only if the width of the range fits int32. */
  lemma FilterFitsIff(lo: i32, hi: i32)
    requires lo <= hi
    ensures EveryRunFits(lo, hi) <==> hi - lo <= I32_MAX
  {
    if hi - lo <= I32_MAX {
      forall alpha, samples, k: nat | 0 <= alpha <= Q16_ONE && Bounded(samples, lo, hi) && k < |samples|
        ensures SampleFits(alpha, samples, k)
      {
        BoundedSampleFits(alpha, samples, k, lo, hi);
      }
    } else {
      var samples := [Filter.Sample(lo, true), Filter.Sample(hi, true)];
      assert samples[..1] == [samples[0]] && samples[..1][..0] == [];
      assert Filter.Run(Filter.RESET, 0, samples[..1]) == Filter.State(lo, true, true);
      assert !SampleFits(0, samples, 1);
    }
  }

  // ----- The PID controller

  /** Every sum, difference and product of one controller step. */
  predicate PidFits(s: Pid.State, g: Pid.Gains, inp: Pid.Input, dt: u16)
    requires dt > 0
  {
    var error, dTemp := inp.temp - inp.setpoint, inp.temp - s.prevTemp;
    var d := Pid.DTerm(s, g, inp.temp, dt).0;
    FitsI32(error) && FitsI64(g.kp * error) && FitsI64(g.ki * error) && FitsI64(g.ki * error * dt) &&
    FitsI64(s.integral + Pid.Increment(g.ki, error, dt)) &&
    (s.initialized ==> FitsI32(dTemp) && FitsI64(g.kd * dTemp) && FitsI64(g.kd * dTemp * 1000)) &&
    FitsI64(g.kp * error + ClampI32(s.integral + Pid.Increment(g.ki, error, dt)) + d)
  }

  /** Gains of at most 256 (ki) and 8192 (kd), in Q16.16. */
  predicate ModerateGains(g: Pid.Gains) {
    -0x100_0000 <= g.ki <= 0x100_0000 && -0x2000_0000 <= g.kd <= 0x2000_0000
  }

  /** A range of temperatures narrower than 2^23 millidegrees, about 8388 degrees. */
  predicate Narrow(lo: int, hi: int) { hi - lo < 0x80_0000 }

  predicate Near(inp: Pid.Input, lo: int, hi: int) { lo <= inp.temp <= hi && lo <= inp.setpoint <= hi }

  lemma IntegralProduct(ki: int, error: int, dt: u16)
    requires -0x100_0000 <= ki <= 0x100_0000 && -0x7F_FFFF <= error <= 0x7F_FFFF
    ensures FitsI64(ki * error) && FitsI64(ki * error * dt)
    ensures -I64_MAX / 1000 <= Pid.Increment(ki, error, dt) <= I64_MAX / 1000
  {
    ProductBounded(ki, error, 0x100_0000, 0x7F_FFFF);
    ProductBounded(ki * error, dt, 0x100_0000 * 0x7F_FFFF, 0xFFFF);
  }

  lemma DerivativeProduct(kd: int, dTemp: int, dt: u16)
    requires -0x2000_0000 <= kd <= 0x2000_0000 && -0x7F_FFFF <= dTemp <= 0x7F_FFFF && dt > 0
    ensures FitsI64(kd * dTemp) && FitsI64(kd * dTemp * 1000)
    ensures -0x4000_0000_0000_0000 <= Pid.Derivative(kd, dTemp, dt) <= 0x4000_0000_0000_0000
  {
    ProductBounded(kd, dTemp, 0x2000_0000, 0x7F_FFFF);
    QuotientShrinks(kd * dTemp * 1000, dt);
  }

  lemma QuotientShrinks(n: int, d: int)
    requires d > 0
    ensures Abs(TruncDiv(n, d)) <= Abs(n)
  {
    var q := TruncDiv(n, d);
    MulMono(1, d, Abs(q));
    assert Abs(d * q) == d * Abs(q) by { ProductSign(d, q); }
  }

  lemma ProductSign(d: int, q: int)
    requires d > 0
    ensures Abs(d * q) == d * Abs(q)
  {
    if q < 0 { MulMono(q, 0, d); assert d * -q == -(d * q); } else { MulMono(0, q, d); }
  }

  /** A step over a narrow range fits, whatever the proportional gain. */
  lemma NarrowStepFits(s: Pid.State, g: Pid.Gains, inp: Pid.Input, dt: u16, lo: int, hi: int)
    requires ModerateGains(g) && Narrow(lo, hi) && Near(inp, lo, hi) && dt > 0
    requires s.initialized ==> lo <= s.prevTemp <= hi
    ensures PidFits(s, g, inp, dt)
  {
    var error := inp.temp - inp.setpoint;
    IntegralProduct(g.ki, error, dt);
    ProductBounded(g.kp, error, 0x8000_0000, 0x7F_FFFF);
    if s.initialized { DerivativeProduct(g.kd, inp.temp - s.prevTemp, dt); }
  }

  /** With moderate gains and all temperatures and setpoints in a narrow range, no step of any run since
      reset overflows. */
  lemma {:induction false} PidRunFits(g: Pid.Gains, lim: Pid.Limits, inputs: seq<Pid.Input>, inp: Pid.Input,
                                      lo: int, hi: int)
    requires ModerateGains(g) && Narrow(lo, hi) && lim.Valid()
    requires (forall k :: 0 <= k < |inputs| ==> Near(inputs[k], lo, hi)) && Near(inp, lo, hi)
    ensures var s := Pid.Run(Pid.RESET, g, lim, inputs);
            PidFits(s, g, inp, Pid.DtMs(s, inp.now, lim)) && (s.initialized ==> lo <= s.prevTemp <= hi)
  {
    var s := Pid.Run(Pid.RESET, g, lim, inputs);
    if |inputs| > 0 {
      var k := |inputs| - 1;
      PidRunFits(g, lim, inputs[..k], inputs[k], lo, hi);
    }
    NarrowStepFits(s, g, inp, Pid.DtMs(s, inp.now, lim), lo, hi);
  }

  /** The integral product, for all errors up to a size and all clamped intervals, fits if and only if its
      extreme value does. */
  lemma IntegralProductIff(ki: int, error: int, dtMax: int)
    requires 0 <= error && 0 <= dtMax
    ensures IntegralProductsFit(ki, error, dtMax) <==> Abs(ki) * error * dtMax <= I64_MAX
  {
    if Abs(ki) * error * dtMax <= I64_MAX {
      forall e, dt | -error <= e <= error && 0 <= dt <= dtMax ensures FitsI64(ki * e * dt) {
        ProductBounded(ki, e, Abs(ki), error);
        ProductBounded(ki * e, dt, Abs(ki) * error, dtMax);
      }
    } else {
      var e := if ki < 0 then -error else error;
      assert ki * e == Abs(ki) * error;
      assert !FitsI64(ki * e * dtMax);
    }
  }

  predicate IntegralProductsFit(ki: int, error: int, dtMax: int) {
    forall e, dt :: -error <= e <= error && 0 <= dt <= dtMax ==> FitsI64(ki * e * dt)
  }

  // ----- Curves

  /** The differences, the product, the quotient and the sum of one interpolation. */
  predicate InterpFits(p: Curve.Point, q: Curve.Point, axis: Curve.Axis, x: i32)
    requires p.x < q.x
  {
    var rise := Curve.Y(q, axis) - Curve.Y(p, axis);
    FitsI32(x - p.x) && FitsI32(q.x - p.x) && FitsI32(rise) && FitsI64((x - p.x) * rise) &&
    FitsI32(TruncDiv((x - p.x) * rise, q.x - p.x)) &&
    FitsI32(Curve.Interp(p.x, Curve.Y(p, axis), q.x, Curve.Y(q, axis), x))
  }

  /** A segment interpolates without overflow, at every abscissa it brackets, if and only if its two
      differences fit int32. */
  lemma SegmentFitsIff(p: Curve.Point, q: Curve.Point, axis: Curve.Axis)
    requires p.x < q.x
    ensures (forall x: i32 :: p.x < x <= q.x ==> InterpFits(p, q, axis, x))
      <==> (q.x - p.x <= I32_MAX && FitsI32(Curve.Y(q, axis) - Curve.Y(p, axis)))
  {
    var rise := Curve.Y(q, axis) - Curve.Y(p, axis);
    if q.x - p.x <= I32_MAX && FitsI32(rise) {
      forall x: i32 | p.x < x <= q.x ensures InterpFits(p, q, axis, x) { NearPointsFit(p, q, axis, x); }
    } else {
      assert !InterpFits(p, q, axis, q.x);
    }
  }

  lemma NearPointsFit(p: Curve.Point, q: Curve.Point, axis: Curve.Axis, x: i32)
    requires p.x < x <= q.x && q.x - p.x <= I32_MAX && FitsI32(Curve.Y(q, axis) - Curve.Y(p, axis))
    ensures InterpFits(p, q, axis, x)
  {
    Curve.InterpBetween(p.x, Curve.Y(p, axis), q.x, Curve.Y(q, axis), x);
    ProductBounded(x - p.x, Curve.Y(q, axis) - Curve.Y(p, axis), I32_MAX, 0x8000_0000);
  }

  // ----- The weighted mean of a zone

  /** Every product and every partial sum of the weighted mean, over the usable slots. */
  ghost predicate WeightedSumFits(slots: seq<Zone.Slot>) {
    (forall i :: 0 <= i < |slots| && slots[i].valid ==> FitsI64(slots[i].value * slots[i].weight)) &&
    forall k :: 0 <= k <= |slots| ==> PartialFits(slots[..k])
  }

  predicate PartialFits(slots: seq<Zone.Slot>) {
    FitsI64(Zone.WeightedSum(slots)) && FitsI64(Zone.WeightTotal(slots))
  }

  /** Usable readings of at most v and usable weights of at most w in size. */
  predicate SlotsSmall(slots: seq<Zone.Slot>, v: nat, w: nat) {
    forall i :: 0 <= i < |slots| && slots[i].valid ==>
      Abs(slots[i].value) <= v && Abs(slots[i].weight) <= w
  }

  lemma {:induction false} SumsBounded(slots: seq<Zone.Slot>, v: nat, w: nat)
    requires SlotsSmall(slots, v, w)
    ensures Abs(Zone.WeightedSum(slots)) <= |slots| * (v * w) && Abs(Zone.WeightTotal(slots)) <= |slots| * w
  {
    if |slots| > 0 {
      var k, s := |slots| - 1, slots[|slots| - 1];
      SumsBounded(slots[..k], v, w);
      if s.valid { ProductBounded(s.value, s.weight, v, w); }
      OneMore(k, v * w);
      OneMore(k, w);
    }
  }

  lemma OneMore(k: nat, m: nat)
    ensures (k + 1) * m == k * m + m
  {
  }

  /** Slots that all read v with weight w. */
  function Alike(n: nat, v: i32, w: i32): (slots: seq<Zone.Slot>)
    ensures |slots| == n
  {
    seq(n, _ => Zone.Slot(v, true, w))
  }

  lemma {:induction false} AlikeSum(n: nat, v: i32, w: i32)
    ensures Zone.WeightedSum(Alike(n, v, w)) == n * (v * w)
  {
    if n > 0 {
      assert Alike(n, v, w)[..n - 1] == Alike(n - 1, v, w);
      AlikeSum(n - 1, v, w);
      assert n * (v * w) == (n - 1) * (v * w) + v * w;
    }
  }

  /** Every zone of n slots, readings up to v and weights up to w. */
  ghost predicate EveryZoneFits(n: nat, v: nat, w: nat) {
    forall slots: seq<Zone.Slot> :: |slots| == n && SlotsSmall(slots, v, w) ==> WeightedSumFits(slots)
  }

  /** No weighted mean of n slots overflows if and only if n times the extreme product fits int64. */
  lemma WeightedSumFitsIff(n: nat, v: nat, w: nat)
    requires 0 < n <= MAX_SENSORS_PER_ZONE && v <= I32_MAX && w <= I32_MAX
    ensures EveryZoneFits(n, v, w) <==> n * (v * w) <= I64_MAX
  {
    if n * (v * w) <= I64_MAX {
      forall slots: seq<Zone.Slot> | |slots| == n && SlotsSmall(slots, v, w) ensures WeightedSumFits(slots) {
        SmallSlotsFit(slots, v, w);
      }
    } else {
      var slots := Alike(n, v, w);
      AlikeSum(n, v, w);
      assert slots[..n] == slots;
      assert !PartialFits(slots[..n]);
    }
  }

  lemma SmallSlotsFit(slots: seq<Zone.Slot>, v: nat, w: nat)
    requires |slots| <= MAX_SENSORS_PER_ZONE && SlotsSmall(slots, v, w) && w <= I32_MAX
    requires |slots| * (v * w) <= I64_MAX
    ensures WeightedSumFits(slots)
  {
    forall i | 0 <= i < |slots| && slots[i].valid ensures FitsI64(slots[i].value * slots[i].weight) {
      ProductBounded(slots[i].value, slots[i].weight, v, w);
      MulMono(1, |slots|, v * w);
    }
    forall k | 0 <= k <= |slots| ensures PartialFits(slots[..k]) {
      SumsBounded(slots[..k], v, w);
      MulMono(k, |slots|, v * w);
      MulMono(k, MAX_SENSORS_PER_ZONE, w);
    }
  }

  // ----- The span of a stuck-sensor window

  /** The span is evaluated only when a window closes, on its flatness or on a material change of context. */
  predicate SpanFits(w: Detectors.Stuck, fc: DetectorCfg, r: Detectors.Reading) {
    var v := Detectors.StuckAccumulate(w, fc, r);
    Detectors.WindowDone(v, fc) && Detectors.Moved(v, fc) ==> FitsI32(v.valueMax - v.valueMin)
  }

  predicate ReadingSmall(r: Detectors.Reading, lo: int, hi: int) { r.valid ==> lo <= r.value <= hi }

  /** An open window holds values within [lo, hi]. */
  predicate WindowSmall(w: Detectors.Stuck, lo: int, hi: int) {
    w.ticks > 0 ==> lo <= w.valueMin <= w.valueMax <= hi
  }

  lemma StuckKeepsSmall(w: Detectors.Stuck, fc: DetectorCfg, r: Detectors.Reading, lo: int, hi: int)
    requires WindowSmall(w, lo, hi) && ReadingSmall(r, lo, hi)
    ensures WindowSmall(Detectors.StuckAccumulate(w, fc, r), lo, hi)
    ensures WindowSmall(Detectors.StuckStep(w, fc, r), lo, hi)
  {
  }

  lemma {:induction false} StuckRunSmall(fc: DetectorCfg, readings: seq<Detectors.Reading>, now: u32, lo: int, hi: int)
    requires forall k :: 0 <= k < |readings| ==> ReadingSmall(readings[k], lo, hi)
    ensures WindowSmall(Detectors.StuckRun(fc, readings, now).1, lo, hi)
  {
    if |readings| > 0 {
      var k := |readings| - 1;
      StuckRunSmall(fc, readings[..k], now, lo, hi);
      StuckKeepsSmall(Detectors.StuckRun(fc, readings[..k], now).1, fc, readings[k], lo, hi);
    }
  }

  /** Every run of readings within [lo, hi], under every configuration. */
  ghost predicate EverySpanFits(lo: int, hi: int, now: u32) {
    forall fc, readings, r ::
      ((forall k :: 0 <= k < |readings| ==> ReadingSmall(readings[k], lo, hi)) && ReadingSmall(r, lo, hi)) ==>
        SpanFits(Detectors.StuckRun(fc, readings, now).1, fc, r)
  }

  /** No window span overflows if and only if the width of the range of readings fits int32. */
  lemma SpanFitsIff(lo: i32, hi: i32, now: u32)
    requires lo <= hi
    ensures EverySpanFits(lo, hi, now) <==> hi - lo <= I32_MAX
  {
    if hi - lo <= I32_MAX {
      forall fc, readings, r | (forall k :: 0 <= k < |readings| ==> ReadingSmall(readings[k], lo, hi)) &&
                               ReadingSmall(r, lo, hi)
        ensures SpanFits(Detectors.StuckRun(fc, readings, now).1, fc, r)
      {
        StuckRunSmall(fc, readings, now, lo, hi);
        StuckKeepsSmall(Detectors.StuckRun(fc, readings, now).1, fc, r, lo, hi);
      }
    } else {
      WideSpan(lo, hi, now);
    }
  }

  /** A flatness window of two ticks that reads lo, then hi. */
  lemma WideSpan(lo: i32, hi: i32, now: u32)
    requires hi - lo > I32_MAX
    ensures !EverySpanFits(lo, hi, now)
  {
    var fc := DetectorCfg(true, 1, 0, 1, 0, 1, 2, 0, NO_CONTEXT);
    var readings := [Detectors.Reading(lo, true, 0, false)];
    assert readings[..0] == [];
    assert Detectors.StuckRun(fc, readings, now).1 == Detectors.StuckStep(Detectors.STUCK_RESET, fc, readings[0]);
    assert !SpanFits(Detectors.StuckRun(fc, readings, now).1, fc, Detectors.Reading(hi, true, 0, false));
  }

  // ----- Cold edges

  predicate ColdEdgeFits(t: Trip) { FitsI32(t.tempMc - t.hystMc) }

  /** The governor's table at any acceptable offset: validation keeps every cold edge but the lowest above the
      previous trip, so the table fits if and only if the lowest edge is not too low and no negative hysteresis
      lifts an edge too high. */
  lemma ColdEdgesFitIff(trips: seq<Trip>, offset: int)
    requires ValidAt(trips, offset)
    ensures (forall i :: 0 <= i < |trips| ==> ColdEdgeFits(Shifted(trips, offset)[i]))
      <==> (|trips| > 0 ==> trips[0].tempMc + offset - trips[0].hystMc >= I32_MIN) &&
           (forall i :: 0 <= i < |trips| && trips[i].hystMc < 0 ==>
             trips[i].tempMc + offset - trips[i].hystMc <= I32_MAX)
  {
    var s := Shifted(trips, offset);
    forall i | 0 <= i < |trips|
      ensures ColdEdgeFits(s[i]) <==>
        (i == 0 ==> trips[i].tempMc + offset - trips[i].hystMc >= I32_MIN) &&
        (trips[i].hystMc < 0 ==> trips[i].tempMc + offset - trips[i].hystMc <= I32_MAX)
    {
      assert FitsI32(s[i].tempMc);
      if i > 0 { assert s[i - 1].tempMc <= s[i].tempMc - s[i].hystMc; }
    }
  }

  // ----- The runaway window

  /** While every sample of the history lies in a range whose width fits int32, so does the rise over the
      window. */
  lemma RiseFits(s: Runaway.State, width: nat, h: seq<Runaway.Sample>, lo: int, hi: int)
    requires Runaway.Refines(s, width, h) && s.filled && hi - lo <= I32_MAX
    requires forall k :: 0 <= k < |h| ==> lo <= h[k].temp <= hi
    ensures FitsI32(s.window[(s.head + width - 1) % width].temp - s.window[s.head].temp)
  {
    Runaway.EndsOfWindow(s, width, h);
  }
}
