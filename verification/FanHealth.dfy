/** Advisory fan-health detector (core/thermal_fan_health.c), for a configuration accepted by
    validate_fan_health (core/thermal_core.c:1297-1348). */
module FanHealth {
  import opened CInt
  import opened Curve

  const HEALTHY: u8 := 0
  const AGING: u8 := 1
  const DEGRADED: u8 := 2
  const FAILING: u8 := 3
  const SRC_MODEL: u8 := 2
  const MAX_POINTS: nat := 8
  const EMA_MAX: int := 127 * 256

  datatype Config = Config(enable: bool, source: u8, baseline: seq<Point>, pwmTicks: u16, pwmTolerance: u8,
                           rpmTicks: u16, rpmTolerancePct: u8, minPoints: u8, agingPct: int, degradedPct: int,
                           failingPct: int)
  {
    predicate Valid() {
      2 <= |baseline| <= MAX_POINTS && Ascending(baseline) && Rising(baseline, Axis0) &&
      (forall p :: 0 <= p < |baseline| ==> 0 <= baseline[p].x <= 255 && 1 <= baseline[p].value0 <= 65535) &&
      source <= SRC_MODEL && rpmTolerancePct <= 100 && 0 < pwmTicks && 0 < rpmTicks &&
      0 > agingPct > degradedPct > failingPct && 1 <= minPoints <= |baseline|
    }
  }

  /** The steady-window tracker. */
  datatype Window = Window(haveRef: bool, refPwm: u8, pwmRun: u16, prevRpm: u16, rpmRun: u16,
                           prevPwmLow: bool, spinup: u16, prevOverride: bool)

  datatype Report = Report(delta: int, severity: u8, confidence: nat)

  datatype State = State(window: Window, ema: seq<int>, count: seq<u16>, report: Report)

  function Reset(): State {
    State(Window(false, 0, 0, 0, 0, true, 0, false), seq(MAX_POINTS, _ => 0), seq(MAX_POINTS, _ => 0),
          Report(0, HEALTHY, 0))
  }

  datatype Input = Input(pwm: u8, rpm: u16, tachValid: bool, slewLimited: bool, faultOverride: bool, spinupTicks: u16)

  /** Nearest integer to num / den, halves away from zero. */
  function DivRoundHalfAway(num: int, den: int): (r: int)
    requires den > 0
  {
    if num >= 0 then TruncDiv(2 * num + den, 2 * den) else TruncDiv(2 * num - den, 2 * den)
  }

  lemma RoundsToNearest(num: int, den: int)
    requires den > 0
    ensures 2 * Abs(num - den * DivRoundHalfAway(num, den)) <= den
  {
    var r := DivRoundHalfAway(num, den);
    TruncParts(if num >= 0 then 2 * num + den else 2 * num - den, 2 * den);
    assert r * (2 * den) == 2 * (den * r);
  }

  // ----- Gate and steady window

  function Saturated(run: u16): u16 { if run < 0xFFFF then run + 1 else run }

  function SpinupSeen(cfg: Config, w: Window, inp: Input): u16
    requires cfg.Valid()
  {
    if w.prevPwmLow && inp.pwm >= cfg.baseline[0].x then inp.spinupTicks else w.spinup
  }

  /** A tick that is no evidence about ageing. */
  predicate Gated(cfg: Config, w: Window, inp: Input)
    requires cfg.Valid()
  {
    !inp.tachValid || inp.pwm < cfg.baseline[0].x || SpinupSeen(cfg, w, inp) > 0 || inp.slewLimited ||
    inp.faultOverride || w.prevOverride
  }

  predicate RpmSettled(cfg: Config, prev: u16, rpm: u16) {
    Abs(rpm - prev) * 100 <= cfg.rpmTolerancePct as int * prev as int
  }

  predicate PwmSteady(cfg: Config, ref: u8, pwm: u8) { Abs(pwm - ref) <= cfg.pwmTolerance }

  function Track(cfg: Config, w: Window, inp: Input): Window
    requires cfg.Valid()
  {
    var spin := SpinupSeen(cfg, w, inp);
    var v := w.(prevPwmLow := inp.pwm < cfg.baseline[0].x, spinup := if spin > 0 then spin - 1 else 0,
                prevOverride := inp.faultOverride);
    if Gated(cfg, w, inp) then v.(haveRef := false, pwmRun := 0, rpmRun := 0)
    else if !w.haveRef || !PwmSteady(cfg, w.refPwm, inp.pwm) then
      v.(haveRef := true, refPwm := inp.pwm, pwmRun := 1, prevRpm := inp.rpm, rpmRun := 1)
    else
      v.(pwmRun := Saturated(w.pwmRun), prevRpm := inp.rpm,
         rpmRun := if RpmSettled(cfg, w.prevRpm, inp.rpm) then Saturated(w.rpmRun) else 1)
  }

  /** This tick folds a sample: ungated, at the held operating point, and steady long enough. */
  predicate Folds(cfg: Config, w: Window, inp: Input)
    requires cfg.Valid()
  {
    !Gated(cfg, w, inp) && w.haveRef && PwmSteady(cfg, w.refPwm, inp.pwm) &&
    Track(cfg, w, inp).pwmRun >= cfg.pwmTicks && Track(cfg, w, inp).rpmRun >= cfg.rpmTicks
  }

  // ----- Accumulators

  /** Index of the baseline point nearest in PWM, the lowest one on ties. */
  function Nearest(b: seq<Point>, pwm: int, n: nat): (best: nat)
    requires 0 < n <= |b|
    ensures best < n
    ensures forall i :: 0 <= i < n ==> Abs(pwm - b[best].x) <= Abs(pwm - b[i].x)
    ensures forall i :: 0 <= i < best ==> Abs(pwm - b[best].x) < Abs(pwm - b[i].x)
  {
    if n == 1 then 0
    else
      var best := Nearest(b, pwm, n - 1);
      if Abs(pwm - b[n - 1].x) < Abs(pwm - b[best].x) then n - 1 else best
  }

  function Clamp127(d: int): int { if d > 127 then 127 else if d < -127 then -127 else d }

  /** Percentage deviation from the interpolated expectation, clamped. */
  function Deviation(cfg: Config, inp: Input): int
    requires cfg.Valid()
  {
    var expected := Eval(cfg.baseline, Axis0, inp.pwm);
    if expected <= 0 then 0 else Clamp127(DivRoundHalfAway((inp.rpm - expected) * 100, expected))
  }

  function FoldEma(ema: int, count: u16, target: int): int {
    if count == 0 then target else ema + TruncDiv(target - ema, 8)
  }

  function Weight(cfg: Config, count: seq<u16>, p: nat): nat
    requires p < |count|
  {
    Min(count[p], 16) * if p == 0 || p == |cfg.baseline| - 1 then 1 else 2
  }

  function SumW(cfg: Config, count: seq<u16>, n: nat): nat
    requires n <= |count|
  {
    if n == 0 then 0 else SumW(cfg, count, n - 1) + Weight(cfg, count, n - 1)
  }

  function SumWx(cfg: Config, ema: seq<int>, count: seq<u16>, n: nat): int
    requires n <= |count| == |ema|
  {
    if n == 0 then 0
    else SumWx(cfg, ema, count, n - 1) + Weight(cfg, count, n - 1) * Min(ema[n - 1], 0)
  }

  /** Baseline points with at least one sample. */
  function Observed(count: seq<u16>, n: nat): (c: nat)
    requires n <= |count|
    ensures c <= n
  {
    if n == 0 then 0 else Observed(count, n - 1) + if count[n - 1] > 0 then 1 else 0
  }

  function Severity(cfg: Config, delta: int, confidence: nat): u8 {
    if confidence < cfg.minPoints then HEALTHY
    else if delta <= cfg.failingPct then FAILING
    else if delta <= cfg.degradedPct then DEGRADED
    else if cfg.source != SRC_MODEL && delta <= cfg.agingPct then AGING
    else HEALTHY
  }

  function Recompute(cfg: Config, ema: seq<int>, count: seq<u16>): Report
    requires |cfg.baseline| <= |count| == |ema|
  {
    var n := |cfg.baseline|;
    var w := SumW(cfg, count, n);
    var delta := if w > 0 then DivRoundHalfAway(SumWx(cfg, ema, count, n), w * 256) else 0;
    Report(delta, Severity(cfg, delta, Observed(count, n)), Observed(count, n))
  }

  predicate Sized(s: State) { |s.ema| == |s.count| == MAX_POINTS }

  function Fold(cfg: Config, s: State, inp: Input): State
    requires cfg.Valid() && Sized(s)
  {
    var p := Nearest(cfg.baseline, inp.pwm, |cfg.baseline|);
    var ema := s.ema[p := FoldEma(s.ema[p], s.count[p], Deviation(cfg, inp) * 256)];
    var count := s.count[p := Saturated(s.count[p])];
    State(s.window, ema, count, Recompute(cfg, ema, count))
  }

  function Step(cfg: Config, s: State, inp: Input): State
    requires cfg.Valid() && Sized(s)
  {
    if !cfg.enable then s
    else
      var t := s.(window := Track(cfg, s.window, inp));
      if Folds(cfg, s.window, inp) then Fold(cfg, t, inp) else t
  }

  // ----- Bounds over whole runs

  predicate Inv(cfg: Config, s: State) {
    cfg.Valid() && Sized(s) &&
    (forall p :: 0 <= p < MAX_POINTS ==> -EMA_MAX <= s.ema[p] <= EMA_MAX) &&
    -127 <= s.report.delta <= 0 &&
    s.report.confidence == Observed(s.count, |cfg.baseline|) &&
    (s.report.severity > HEALTHY ==> s.report.confidence >= cfg.minPoints)
  }

  lemma {:induction false} SumWxBounds(cfg: Config, ema: seq<int>, count: seq<u16>, n: nat)
    requires n <= |count| == |ema|
    requires forall p :: 0 <= p < n ==> -EMA_MAX <= ema[p] <= EMA_MAX
    ensures -EMA_MAX * SumW(cfg, count, n) <= SumWx(cfg, ema, count, n) <= 0
  {
    if n > 0 {
      SumWxBounds(cfg, ema, count, n - 1);
      var w, x := Weight(cfg, count, n - 1), Min(ema[n - 1], 0);
      MulMono(-EMA_MAX, x, w);
      MulMono(x, 0, w);
      assert w * x == x * w;
    }
  }

  /** A weighted mean of non-positive averages is a percentage in [-127, 0]. */
  lemma DeltaBounds(num: int, w: nat)
    requires w > 0 && -EMA_MAX * w <= num <= 0
    ensures -127 <= DivRoundHalfAway(num, w * 256) <= 0
  {
    var den := w * 256;
    RoundsToNearest(num, den);
    var r := DivRoundHalfAway(num, den);
    assert den * r == r * den;
    FactorOrder(r, 0, den);
    FactorOrder(-127, r, den);
  }

  lemma DeviationBounds(cfg: Config, inp: Input)
    requires cfg.Valid()
    ensures -127 <= Deviation(cfg, inp) <= 127
    ensures Eval(cfg.baseline, Axis0, inp.pwm) > 0
  {
    EvalHull(cfg.baseline, Axis0, inp.pwm, 1, 65535);
  }

  lemma FoldEmaBounds(ema: int, count: u16, target: int)
    requires -EMA_MAX <= ema <= EMA_MAX && -EMA_MAX <= target <= EMA_MAX
    ensures -EMA_MAX <= FoldEma(ema, count, target) <= EMA_MAX
    ensures count > 0 ==> Min(ema, target) <= FoldEma(ema, count, target) <= Max(ema, target)
  {
  }

  lemma StepKeepsInv(cfg: Config, s: State, inp: Input)
    requires Inv(cfg, s)
    ensures Inv(cfg, Step(cfg, s, inp))
  {
    if cfg.enable && Folds(cfg, s.window, inp) {
      var p := Nearest(cfg.baseline, inp.pwm, |cfg.baseline|);
      DeviationBounds(cfg, inp);
      FoldEmaBounds(s.ema[p], s.count[p], Deviation(cfg, inp) * 256);
      var t := Step(cfg, s, inp);
      var n := |cfg.baseline|;
      SumWxBounds(cfg, t.ema, t.count, n);
      if SumW(cfg, t.count, n) > 0 { DeltaBounds(SumWx(cfg, t.ema, t.count, n), SumW(cfg, t.count, n)); }
    }
  }

  lemma {:induction false} ObservedGrows(before: seq<u16>, after: seq<u16>, n: nat)
    requires n <= |before| == |after|
    requires forall p :: 0 <= p < n ==> (before[p] > 0 ==> after[p] > 0)
    ensures Observed(before, n) <= Observed(after, n)
  {
    if n > 0 { ObservedGrows(before, after, n - 1); }
  }

  /** Confidence never decreases and never exceeds the number of baseline points. */
  lemma ConfidenceGrows(cfg: Config, s: State, inp: Input)
    requires Inv(cfg, s)
    ensures s.report.confidence <= Step(cfg, s, inp).report.confidence <= |cfg.baseline|
  {
    ObservedGrows(s.count, Step(cfg, s, inp).count, |cfg.baseline|);
  }

  /** A worse delta never reads as a milder grade. */
  lemma SeverityMonotone(cfg: Config, worse: int, better: int, confidence: nat)
    requires cfg.Valid() && worse <= better
    ensures Severity(cfg, worse, confidence) >= Severity(cfg, better, confidence)
  {
  }

  ghost function Run(cfg: Config, inputs: seq<Input>): (s: State)
    requires cfg.Valid()
    ensures Inv(cfg, s)
  {
    if |inputs| == 0 then
      ResetInv(cfg);
      Reset()
    else
      var k := |inputs| - 1;
      StepKeepsInv(cfg, Run(cfg, inputs[..k]), inputs[k]);
      Step(cfg, Run(cfg, inputs[..k]), inputs[k])
  }

  lemma {:induction false} ZeroObserved(count: seq<u16>, n: nat)
    requires n <= |count| && forall p :: 0 <= p < n ==> count[p] == 0
    ensures Observed(count, n) == 0
  {
    if n > 0 { ZeroObserved(count, n - 1); }
  }

  lemma ResetInv(cfg: Config)
    requires cfg.Valid()
    ensures Inv(cfg, Reset())
  {
    ZeroObserved(Reset().count, |cfg.baseline|);
  }

  /** Over whole runs confidence only grows. */
  lemma {:induction false} ConfidenceMonotone(cfg: Config, inputs: seq<Input>, k: nat)
    requires cfg.Valid() && k <= |inputs|
    ensures Run(cfg, inputs[..k]).report.confidence <= Run(cfg, inputs).report.confidence <= |cfg.baseline|
    decreases |inputs|
  {
    if k == |inputs| {
      assert inputs[..k] == inputs;
    } else {
      var j := |inputs| - 1;
      assert inputs[..j][..k] == inputs[..k];
      ConfidenceMonotone(cfg, inputs[..j], k);
      ConfidenceGrows(cfg, Run(cfg, inputs[..j]), inputs[j]);
    }
  }

  // ----- Samples are folded only after a steady window

  /** The tracker over a run, by itself. */
  ghost function WindowRun(cfg: Config, inputs: seq<Input>): Window
    requires cfg.Valid()
  {
    if |inputs| == 0 then Reset().window
    else Track(cfg, WindowRun(cfg, inputs[..|inputs| - 1]), inputs[|inputs| - 1])
  }

  /** The window part of a run evolves by Track alone. */
  lemma {:induction false} WindowRunIs(cfg: Config, inputs: seq<Input>)
    requires cfg.Valid() && cfg.enable
    ensures Run(cfg, inputs).window == WindowRun(cfg, inputs)
  {
    if |inputs| > 0 { WindowRunIs(cfg, inputs[..|inputs| - 1]); }
  }

  /** The last n ticks were ungated and held the PWM within tolerance of one reference. */
  ghost predicate PwmSteadyFor(cfg: Config, inputs: seq<Input>, n: nat, ref: u8)
    requires cfg.Valid()
  {
    n <= |inputs| && forall k :: |inputs| - n <= k < |inputs| ==> SteadyAt(cfg, inputs, k, ref)
  }

  /** Tick k was ungated and held the PWM within tolerance of the reference. */
  ghost predicate SteadyAt(cfg: Config, inputs: seq<Input>, k: nat, ref: u8)
    requires cfg.Valid() && k < |inputs|
  {
    !Gated(cfg, WindowRun(cfg, inputs[..k]), inputs[k]) && PwmSteady(cfg, ref, inputs[k].pwm)
  }

  lemma SteadyAtPrefix(cfg: Config, inputs: seq<Input>, k: nat, ref: u8)
    requires cfg.Valid() && k + 1 < |inputs|
    ensures SteadyAt(cfg, inputs[..|inputs| - 1], k, ref) == SteadyAt(cfg, inputs, k, ref)
  {
    assert inputs[..|inputs| - 1][..k] == inputs[..k];
  }

  /** The speed settled over the last n ticks: n - 1 consecutive changes within tolerance. */
  ghost predicate RpmSettledFor(cfg: Config, inputs: seq<Input>, n: nat) {
    n <= |inputs| && forall k :: |inputs| - n < k < |inputs| ==> RpmSettled(cfg, inputs[k - 1].rpm, inputs[k].rpm)
  }

  /** Length of the steady window that ends now: ungated ticks since the last restart, all within tolerance of
      the PWM of the tick that opened it. */
  ghost function SteadyTicks(cfg: Config, inputs: seq<Input>): (n: nat)
    requires cfg.Valid()
    ensures n <= |inputs|
  {
    if |inputs| == 0 then 0
    else
      var k := |inputs| - 1;
      NextTicks(cfg, WindowRun(cfg, inputs[..k]), inputs[..k], SteadyTicks(cfg, inputs[..k]), inputs[k])
  }

  /** Length of the window after one more tick, n before it. */
  function NextTicks(cfg: Config, w: Window, past: seq<Input>, n: nat, inp: Input): (r: nat)
    requires cfg.Valid() && n <= |past|
    ensures r <= n + 1
  {
    if Gated(cfg, w, inp) then 0
    else if n == 0 || !PwmSteady(cfg, past[|past| - n].pwm, inp.pwm) then 1
    else n + 1
  }

  /** The PWM of the tick that opened the window. */
  ghost function Opening(cfg: Config, inputs: seq<Input>): u8
    requires cfg.Valid() && SteadyTicks(cfg, inputs) > 0
  {
    inputs[|inputs| - SteadyTicks(cfg, inputs)].pwm
  }

  /** The duty counter is the length of the window, saturated. */
  /** The tracker agrees with a window of the last n ticks. */
  ghost predicate Agrees(w: Window, inputs: seq<Input>, n: nat) {
    n <= |inputs| && (w.haveRef <==> n > 0) && w.pwmRun == Min(n, 0xFFFF) && w.rpmRun <= w.pwmRun &&
    (n > 0 ==> w.refPwm == inputs[|inputs| - n].pwm && w.prevRpm == inputs[|inputs| - 1].rpm)
  }

  lemma TrackAgrees(cfg: Config, w: Window, inputs: seq<Input>, n: nat, inp: Input)
    requires cfg.Valid() && Agrees(w, inputs, n)
    ensures Agrees(Track(cfg, w, inp), inputs + [inp], NextTicks(cfg, w, inputs, n, inp))
  {
  }

  /** The tracker is the window: the duty counter is its length, saturated. */
  lemma {:induction false} TrackerIsHistory(cfg: Config, inputs: seq<Input>)
    requires cfg.Valid()
    ensures Agrees(WindowRun(cfg, inputs), inputs, SteadyTicks(cfg, inputs))
  {
    if |inputs| > 0 {
      var k := |inputs| - 1;
      TrackerIsHistory(cfg, inputs[..k]);
      TrackAgrees(cfg, WindowRun(cfg, inputs[..k]), inputs[..k], SteadyTicks(cfg, inputs[..k]), inputs[k]);
      assert inputs[..k] + [inputs[k]] == inputs;
    }
  }

  lemma {:induction false} WindowIsSteady(cfg: Config, inputs: seq<Input>)
    requires cfg.Valid() && SteadyTicks(cfg, inputs) > 0
    ensures PwmSteadyFor(cfg, inputs, SteadyTicks(cfg, inputs), Opening(cfg, inputs))
  {
    var k, n := |inputs| - 1, SteadyTicks(cfg, inputs);
    if n > 1 {
      WindowIsSteady(cfg, inputs[..k]);
      ExtendSteady(cfg, inputs, n - 1, Opening(cfg, inputs));
    } else {
      assert SteadyAt(cfg, inputs, k, Opening(cfg, inputs));
    }
  }

  lemma ExtendSteady(cfg: Config, inputs: seq<Input>, n: nat, ref: u8)
    requires cfg.Valid() && |inputs| > 0
    requires PwmSteadyFor(cfg, inputs[..|inputs| - 1], n, ref) && SteadyAt(cfg, inputs, |inputs| - 1, ref)
    ensures PwmSteadyFor(cfg, inputs, n + 1, ref)
  {
    forall k | |inputs| - 1 - n <= k < |inputs| - 1 ensures SteadyAt(cfg, inputs, k, ref) {
      SteadyAtPrefix(cfg, inputs, k, ref);
    }
  }

  lemma PwmRunIsHistory(cfg: Config, inputs: seq<Input>, n: nat)
    requires cfg.Valid()
    ensures n <= WindowRun(cfg, inputs).pwmRun ==> PwmSteadyFor(cfg, inputs, n, WindowRun(cfg, inputs).refPwm)
  {
    TrackerIsHistory(cfg, inputs);
    if 0 < n <= WindowRun(cfg, inputs).pwmRun { WindowIsSteady(cfg, inputs); }
  }

  lemma WindowOpens(cfg: Config, inputs: seq<Input>)
    requires cfg.Valid() && SteadyTicks(cfg, inputs) <= 1
    ensures WindowRun(cfg, inputs).rpmRun == SteadyTicks(cfg, inputs)
  {
    TrackerIsHistory(cfg, inputs);
    if |inputs| > 0 { TrackerIsHistory(cfg, inputs[..|inputs| - 1]); }
  }

  lemma WindowContinues(cfg: Config, inputs: seq<Input>)
    requires cfg.Valid() && SteadyTicks(cfg, inputs) > 1
    ensures var (k, before) := (|inputs| - 1, inputs[..|inputs| - 1]);
            k > 0 && SteadyTicks(cfg, before) == SteadyTicks(cfg, inputs) - 1 &&
            WindowRun(cfg, inputs).rpmRun ==
              if RpmSettled(cfg, inputs[k - 1].rpm, inputs[k].rpm) then Saturated(WindowRun(cfg, before).rpmRun) else 1
  {
    TrackerIsHistory(cfg, inputs[..|inputs| - 1]);
  }

  /** The speed counter reaches m exactly when the window is that long and its last m readings settled. */
  lemma {:induction false} RpmRunIsHistory(cfg: Config, inputs: seq<Input>, m: u16)
    requires cfg.Valid() && m > 0
    ensures m <= WindowRun(cfg, inputs).rpmRun <==> m <= SteadyTicks(cfg, inputs) && RpmSettledFor(cfg, inputs, m)
  {
    if SteadyTicks(cfg, inputs) <= 1 {
      WindowOpens(cfg, inputs);
    } else {
      WindowContinues(cfg, inputs);
      if m > 1 {
        RpmRunIsHistory(cfg, inputs[..|inputs| - 1], m - 1);
        ExtendSettled(cfg, inputs, m - 1);
      }
    }
  }

  lemma ExtendSettled(cfg: Config, inputs: seq<Input>, n: nat)
    requires 0 < n && |inputs| > 1
    ensures RpmSettledFor(cfg, inputs, n + 1) <==>
      RpmSettledFor(cfg, inputs[..|inputs| - 1], n) &&
      RpmSettled(cfg, inputs[|inputs| - 2].rpm, inputs[|inputs| - 1].rpm)
  {
    var k, before := |inputs| - 1, inputs[..|inputs| - 1];
    if RpmSettledFor(cfg, inputs, n + 1) {
      forall j | k - n < j < k ensures RpmSettled(cfg, before[j - 1].rpm, before[j].rpm) {
        assert RpmSettled(cfg, inputs[j - 1].rpm, inputs[j].rpm);
      }
    } else if RpmSettledFor(cfg, before, n) && RpmSettled(cfg, inputs[k - 1].rpm, inputs[k].rpm) {
      forall j | k - n < j < k ensures RpmSettled(cfg, inputs[j - 1].rpm, inputs[j].rpm) {
        assert RpmSettled(cfg, before[j - 1].rpm, before[j].rpm);
      }
    }
  }

  /** The window that ends now is not its own opening, and long and settled enough for both settings. */
  ghost predicate SteadyWindow(cfg: Config, inputs: seq<Input>)
    requires cfg.Valid()
  {
    SteadyTicks(cfg, inputs) >= Max(2, Max(cfg.pwmTicks, cfg.rpmTicks)) && RpmSettledFor(cfg, inputs, cfg.rpmTicks)
  }

  lemma FoldsIff(cfg: Config, inputs: seq<Input>, inp: Input)
    requires cfg.Valid()
    ensures Folds(cfg, WindowRun(cfg, inputs), inp) <==> SteadyWindow(cfg, inputs + [inp])
  {
    var all := inputs + [inp];
    assert all[..|inputs|] == inputs;
    TrackerIsHistory(cfg, inputs);
    TrackerIsHistory(cfg, all);
    RpmRunIsHistory(cfg, all, cfg.rpmTicks);
  }

  /** A tick folds its sample into the accumulators if and only if it ends a steady window, and otherwise leaves
      them and the report alone. */
  lemma FoldsExactlySteady(cfg: Config, inputs: seq<Input>, inp: Input)
    requires cfg.Valid()
    ensures var (before, after) := (Run(cfg, inputs), Run(cfg, inputs + [inp]));
            if cfg.enable && SteadyWindow(cfg, inputs + [inp])
            then after == Fold(cfg, before.(window := after.window), inp)
            else after == before.(window := after.window)
  {
    assert (inputs + [inp])[..|inputs|] == inputs;
    if cfg.enable {
      WindowRunIs(cfg, inputs);
      FoldsIff(cfg, inputs, inp);
    }
  }

  /** So a sample changes the accumulators only at the end of as many consecutive ungated ticks at one operating
      point as both settings ask for, with settled speed readings. */
  lemma FoldNeedsSteadyWindow(cfg: Config, inputs: seq<Input>, inp: Input)
    requires cfg.Valid()
    ensures var (before, after, all) := (Run(cfg, inputs), Run(cfg, inputs + [inp]), inputs + [inp]);
            (after.count == before.count && after.ema == before.ema) ||
            ((exists ref :: PwmSteadyFor(cfg, all, Max(cfg.pwmTicks, cfg.rpmTicks), ref)) &&
             RpmSettledFor(cfg, all, cfg.rpmTicks))
  {
    FoldsExactlySteady(cfg, inputs, inp);
    if SteadyWindow(cfg, inputs + [inp]) {
      var all := inputs + [inp];
      WindowIsSteady(cfg, all);
      assert PwmSteadyFor(cfg, all, Max(cfg.pwmTicks, cfg.rpmTicks), Opening(cfg, all));
    }
  }

  // ----- The detector over its accumulator arrays

  method NearestPoint(b: seq<Point>, pwm: u8) returns (best: nat)
    requires |b| > 0
    ensures best == Nearest(b, pwm, |b|)
  {
    best := 0;
    var bestD := -1;
    for i := 0 to |b|
      invariant i > 0 ==> best == Nearest(b, pwm, i) && bestD == Abs(pwm - b[best].x)
      invariant i == 0 ==> bestD < 0
    {
      var d := pwm - b[i].x;
      if d < 0 { d := -d; }
      if bestD < 0 || d < bestD { bestD, best := d, i; }
    }
  }

  class Detector {
    const ema: array<int>
    const count: array<u16>
    var haveRef: bool
    var refPwm: u8
    var pwmRun: u16
    var prevRpm: u16
    var rpmRun: u16
    var prevPwmLow: bool
    var spinup: u16
    var prevOverride: bool
    var report: Report

    ghost predicate Valid() reads this { ema.Length == count.Length == MAX_POINTS && ema as object != count }

    function Tracker(): Window reads this {
      Window(haveRef, refPwm, pwmRun, prevRpm, rpmRun, prevPwmLow, spinup, prevOverride)
    }

    ghost function View(): State
      reads this, ema, count
    {
      State(Tracker(), ema[..], count[..], report)
    }

    constructor ()
      ensures Valid() && View() == Reset() && fresh(ema) && fresh(count)
    {
      ema := new int[MAX_POINTS](_ => 0);
      count := new u16[MAX_POINTS](_ => 0);
      haveRef, refPwm, pwmRun, prevRpm, rpmRun := false, 0, 0, 0, 0;
      prevPwmLow, spinup, prevOverride, report := true, 0, false, Reset().report;
    }

    /** Re-derives the published figures from the per-point accumulators. */
    method Publish(cfg: Config)
      requires Valid() && |cfg.baseline| <= MAX_POINTS
      modifies this`report
      ensures report == Recompute(cfg, ema[..], count[..])
    {
      var sumWx, sumW, conf := 0, 0, 0;
      for p := 0 to |cfg.baseline|
        invariant sumW == SumW(cfg, count[..], p) && sumWx == SumWx(cfg, ema[..], count[..], p)
        invariant conf == Observed(count[..], p)
      {
        if count[p] > 0 {
          conf := conf + 1;
          var w := Weight(cfg, count[..], p);
          sumW, sumWx := sumW + w, sumWx + w * Min(ema[p], 0);
        }
      }
      var delta := if sumW > 0 then DivRoundHalfAway(sumWx, sumW * 256) else 0;
      report := Report(delta, Severity(cfg, delta, conf), conf);
    }

    /** Spin-up grace, override window and the gate; a gated tick restarts the steady window. */
    method Gate(cfg: Config, inp: Input) returns (gated: bool)
      requires cfg.Valid()
      modifies this`haveRef, this`pwmRun, this`rpmRun, this`prevPwmLow, this`spinup, this`prevOverride
      ensures gated == Gated(cfg, old(Tracker()), inp)
      ensures gated ==> Tracker() == Track(cfg, old(Tracker()), inp)
      ensures !gated ==> haveRef == old(haveRef) && pwmRun == old(pwmRun) && rpmRun == old(rpmRun)
      ensures var t := Track(cfg, old(Tracker()), inp);
              (prevPwmLow, spinup, prevOverride) == (t.prevPwmLow, t.spinup, t.prevOverride)
    {
      var pwmLow := inp.pwm < cfg.baseline[0].x;
      if prevPwmLow && !pwmLow { spinup := inp.spinupTicks; }
      prevPwmLow := pwmLow;
      var inSpinup := spinup > 0;
      if inSpinup { spinup := spinup - 1; }
      var overrideWindow := inp.faultOverride || prevOverride;
      prevOverride := inp.faultOverride;
      gated := !inp.tachValid || pwmLow || inSpinup || inp.slewLimited || overrideWindow;
      if gated { haveRef, pwmRun, rpmRun := false, 0, 0; }
    }

    /** The gate and the steady-window tracker; the result says whether this tick folds. */
    method TrackTick(cfg: Config, inp: Input) returns (steady: bool)
      requires cfg.Valid()
      modifies this`haveRef, this`refPwm, this`pwmRun, this`prevRpm, this`rpmRun, this`prevPwmLow, this`spinup,
               this`prevOverride
      ensures Tracker() == Track(cfg, old(Tracker()), inp) && steady == Folds(cfg, old(Tracker()), inp)
    {
      var gated := Gate(cfg, inp);
      if gated { return false; }
      if !haveRef {
        haveRef, refPwm, pwmRun, prevRpm, rpmRun := true, inp.pwm, 1, inp.rpm, 1;
        return false;
      }
      var pwmDev := inp.pwm - refPwm;
      if pwmDev < 0 { pwmDev := -pwmDev; }
      if pwmDev > cfg.pwmTolerance {
        refPwm, pwmRun, prevRpm, rpmRun := inp.pwm, 1, inp.rpm, 1;
        return false;
      }
      if pwmRun < 0xFFFF { pwmRun := pwmRun + 1; }
      var change := inp.rpm - prevRpm;
      if change < 0 { change := -change; }
      if change * 100 <= cfg.rpmTolerancePct * prevRpm {
        if rpmRun < 0xFFFF { rpmRun := rpmRun + 1; }
      } else {
        rpmRun := 1;
      }
      prevRpm := inp.rpm;
      steady := pwmRun >= cfg.pwmTicks && rpmRun >= cfg.rpmTicks;
    }

    method StepTick(cfg: Config, inp: Input)
      requires Valid() && cfg.Valid()
      modifies this, ema, count
      ensures Valid() && View() == Step(cfg, old(View()), inp)
    {
      if !cfg.enable { return; }
      var steady := TrackTick(cfg, inp);
      if !steady { return; }
      var delta := Deviation(cfg, inp);
      var np := NearestPoint(cfg.baseline, inp.pwm);
      ema[np] := FoldEma(ema[np], count[np], delta * 256);
      count[np] := Saturated(count[np]);
      Publish(cfg);
    }
  }
}
