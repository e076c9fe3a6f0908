/** What the fan-health detector measures, gates and reports (core/thermal_fan_health.c:16-97, 124-233). */
module FanLaws {
  import opened CInt
  import opened Quotients
  import opened Curve
  import opened FanHealth

  // ----- The deviation of one sample

  lemma NearestIs(n: int, d: int, q: int)
    requires d > 0 && IsNearest(n, d, q)
    ensures q == DivRoundHalfAway(n, d)
  {
    if n >= 0 {
      NearestQuotient(n, d, q);
    } else {
      Mirrored(q, d);
      NearestQuotient(-n, d, -q);
    }
  }

  lemma NearestQuotient(n: int, d: int, q: int)
    requires d > 0 && n >= 0 && IsNearest(n, d, q)
    ensures (2 * n + d) / (2 * d) == q
  {
    NearestSign(n, d, q);
    Doubled(q, d);
    DivModIs(2 * n + d, 2 * d, q, 2 * n + d - q * (2 * d));
  }

  lemma Doubled(q: int, d: int)
    ensures q * (2 * d) == 2 * (d * q)
  {
  }

  lemma NearestSign(n: int, d: int, q: int)
    requires d > 0 && n >= 0 && IsNearest(n, d, q)
    ensures -d <= 2 * (n - d * q) < d
  {
    Swapped(d, q);
    if q >= 0 { MulMono(0, q, d); } else { MulMono(q, -1, d); }
  }

  lemma Swapped(d: int, q: int)
    ensures d * q == q * d
  {
  }

  /** The deviation is the nearest percentage of the interpolated expectation the speed is above or below it, within
      -127 and 127. */
  lemma DeviationLaw(cfg: Config, inp: Input, q: int)
    requires cfg.Valid()
    requires var expected := Eval(cfg.baseline, Axis0, inp.pwm); IsNearest(100 * (inp.rpm - expected), expected, q)
    ensures Eval(cfg.baseline, Axis0, inp.pwm) > 0 && Deviation(cfg, inp) == Max(-127, Min(127, q))
  {
    DeviationBounds(cfg, inp);
    var expected := Eval(cfg.baseline, Axis0, inp.pwm);
    NearestIs((inp.rpm - expected) * 100, expected, q);
  }

  /** A folded sample: the first one sets the average of the nearest baseline point, a later one moves it by an
      eighth of the way, truncated toward zero; the point's count grows and nothing else changes. */
  lemma FoldLaw(cfg: Config, s: State, inp: Input, p: nat, m: int)
    requires cfg.Valid() && Sized(s) && p < MAX_POINTS && p == Nearest(cfg.baseline, inp.pwm, |cfg.baseline|)
    requires IsTruncated(256 * Deviation(cfg, inp) - s.ema[p], 8, m)
    ensures var t := Fold(cfg, s, inp);
            t.window == s.window && Folded(s, t, p, if s.count[p] == 0 then 256 * Deviation(cfg, inp) else s.ema[p] + m)
  {
    TruncatedIs(256 * Deviation(cfg, inp) - s.ema[p], 8, m);
  }

  function Saturating(n: int): int { Min(n + 1, 0xFFFF) }

  /** Point p has one more sample and this average; the other points are as before. */
  predicate Folded(s: State, t: State, p: nat, average: int) {
    Sized(s) && Sized(t) && p < MAX_POINTS && t.ema[p] == average && t.count[p] == Saturating(s.count[p]) &&
    forall i :: 0 <= i < MAX_POINTS && i != p ==> t.ema[i] == s.ema[i] && t.count[i] == s.count[i]
  }

  // ----- The report

  ghost function SumOf(f: nat -> int, n: nat): int { if n == 0 then 0 else SumOf(f, n - 1) + f(n - 1) }

  /** What a baseline point weighs: its samples, at most 16 of them, and twice as much between the end points. */
  ghost function Shares(count: seq<u16>, points: nat): nat -> int {
    (p: nat) =>
      if p >= |count| then 0 else if p == 0 || p == points - 1 then Min(count[p], 16) else 2 * Min(count[p], 16)
  }

  /** Its weighted shortfall: an average above the baseline counts as 0. */
  ghost function Shortfalls(ema: seq<int>, count: seq<u16>, points: nat): nat -> int {
    (p: nat) => if p >= |ema| || ema[p] > 0 then 0 else Shares(count, points)(p) * ema[p]
  }

  lemma {:induction false} SharesAdd(cfg: Config, ema: seq<int>, count: seq<u16>, n: nat)
    requires n <= |count| == |ema|
    ensures SumOf(Shares(count, |cfg.baseline|), n) == SumW(cfg, count, n)
    ensures SumOf(Shortfalls(ema, count, |cfg.baseline|), n) == SumWx(cfg, ema, count, n)
  {
    if n > 0 { SharesAdd(cfg, ema, count, n - 1); }
  }

  /** The reported delta is the nearest integer to the weighted mean shortfall, in percent; 0 without samples. The
      confidence is the number of points with samples. */
  lemma ReportLaw(cfg: Config, ema: seq<int>, count: seq<u16>, q: int)
    requires cfg.Valid() && |ema| == |count| == MAX_POINTS
    requires var (w, x) := (SumOf(Shares(count, |cfg.baseline|), |cfg.baseline|),
                            SumOf(Shortfalls(ema, count, |cfg.baseline|), |cfg.baseline|));
             w >= 0 && if w == 0 then q == 0 else IsNearest(x, 256 * w, q)
    ensures Recompute(cfg, ema, count).delta == q
    ensures Recompute(cfg, ema, count).confidence == SumOf(Seen(count), |cfg.baseline|)
  {
    var n := |cfg.baseline|;
    SharesAdd(cfg, ema, count, n);
    if SumW(cfg, count, n) > 0 { NearestIs(SumWx(cfg, ema, count, n), 256 * SumW(cfg, count, n), q); }
    ObservedIs(count, n);
  }

  /** 1 for a point with samples. */
  ghost function Seen(count: seq<u16>): nat -> int { (p: nat) => if p < |count| && count[p] > 0 then 1 else 0 }

  lemma {:induction false} ObservedIs(count: seq<u16>, n: nat)
    requires n <= |count|
    ensures Observed(count, n) == SumOf(Seen(count), n)
  {
    if n > 0 { ObservedIs(count, n - 1); }
  }

  /** The grade: each grade or a worse one exactly when enough points have samples and the delta has reached its
      threshold; a modelled baseline never reports AGING. */
  lemma GradeLaw(cfg: Config, ema: seq<int>, count: seq<u16>)
    requires cfg.Valid() && |ema| == |count| == MAX_POINTS
    ensures var r := Recompute(cfg, ema, count);
            (r.severity == 3 <==> r.confidence >= cfg.minPoints && r.delta <= cfg.failingPct) &&
            (r.severity >= 2 <==> r.confidence >= cfg.minPoints && r.delta <= cfg.degradedPct) &&
            r.severity <= 3 &&
            (r.severity >= 1 <==> (r.confidence >= cfg.minPoints &&
                                   r.delta <= if cfg.source == SRC_MODEL then cfg.degradedPct else cfg.agingPct))
  {
  }

  // ----- The tolerances of the steady window

  /** A speed settles when its change is at most the given percentage of the previous speed. */
  lemma SettledLaw(cfg: Config, prev: u16, rpm: u16)
    ensures RpmSettled(cfg, prev, rpm) <==>
      (100 * (rpm - prev) <= cfg.rpmTolerancePct * prev && 100 * (prev - rpm) <= cfg.rpmTolerancePct * prev)
  {
  }

  /** A duty holds when it is at most the tolerance away from the one that opened the window. */
  lemma HeldLaw(cfg: Config, ref: u8, pwm: u8)
    ensures PwmSteady(cfg, ref, pwm) <==> ref - cfg.pwmTolerance <= pwm <= ref + cfg.pwmTolerance
  {
  }

  // ----- The gate

  predicate Low(cfg: Config, inp: Input)
    requires cfg.Valid()
  {
    inp.pwm < cfg.baseline[0].x
  }

  /** Tick k comes up into the range of the baseline. */
  ghost predicate ComesUp(cfg: Config, inputs: seq<Input>, k: nat)
    requires cfg.Valid() && k < |inputs|
  {
    !Low(cfg, inputs[k]) && (k == 0 || Low(cfg, inputs[k - 1]))
  }

  /** Tick k was the last to do so. */
  ghost predicate LastUp(cfg: Config, inputs: seq<Input>, k: nat)
    requires cfg.Valid() && k < |inputs|
  {
    ComesUp(cfg, inputs, k) && forall j :: k < j < |inputs| ==> !ComesUp(cfg, inputs, j)
  }

  /** Tick n, the last one or one still to come, lies within the grace the last rise was given. */
  ghost predicate Spinning(cfg: Config, inputs: seq<Input>, n: nat)
    requires cfg.Valid()
  {
    exists k :: 0 <= k < |inputs| && LastUp(cfg, inputs, k) && n - k < inputs[k].spinupTicks
  }

  lemma SpinningNext(cfg: Config, inputs: seq<Input>, inp: Input, n: nat)
    requires cfg.Valid() && n >= |inputs|
    ensures var all := inputs + [inp];
            Spinning(cfg, all, n) ==
              if ComesUp(cfg, all, |inputs|) then n - |inputs| < inp.spinupTicks else Spinning(cfg, inputs, n)
  {
    var all, last := inputs + [inp], |inputs|;
    forall k | 0 <= k < last ensures ComesUp(cfg, all, k) == ComesUp(cfg, inputs, k) { }
    forall k | 0 <= k < last
      ensures LastUp(cfg, all, k) <==> LastUp(cfg, inputs, k) && !ComesUp(cfg, all, last)
    {
      assert forall j :: k < j < last ==> ComesUp(cfg, all, j) == ComesUp(cfg, inputs, j);
    }
    assert LastUp(cfg, all, last) == ComesUp(cfg, all, last);
    if ComesUp(cfg, all, last) && n - last < inp.spinupTicks { assert LastUp(cfg, all, last) && all[last] == inp; }
    if !ComesUp(cfg, all, last) && Spinning(cfg, inputs, n) {
      var k :| 0 <= k < last && LastUp(cfg, inputs, k) && n - k < inputs[k].spinupTicks;
      assert LastUp(cfg, all, k) && all[k] == inputs[k];
    }
  }

  lemma TrackRemembers(cfg: Config, w: Window, inp: Input, m: nat)
    requires cfg.Valid()
    ensures var t := Track(cfg, w, inp);
            t.prevPwmLow == Low(cfg, inp) && t.prevOverride == inp.faultOverride &&
            (m < t.spinup <==> m + 1 < if w.prevPwmLow && !Low(cfg, inp) then inp.spinupTicks else w.spinup)
  {
  }

  /** The tracker's countdown and its two memories. */
  lemma {:induction false} TrackerRemembers(cfg: Config, inputs: seq<Input>, m: nat)
    requires cfg.Valid()
    ensures var (w, n) := (WindowRun(cfg, inputs), |inputs|);
            (w.prevPwmLow <==> n == 0 || Low(cfg, inputs[n - 1])) &&
            (w.prevOverride <==> n > 0 && inputs[n - 1].faultOverride) &&
            (m < w.spinup <==> Spinning(cfg, inputs, n + m))
  {
    if |inputs| > 0 {
      var k := |inputs| - 1;
      TrackerRemembers(cfg, inputs[..k], m + 1);
      TrackRemembers(cfg, WindowRun(cfg, inputs[..k]), inputs[k], m);
      SpinningNext(cfg, inputs[..k], inputs[k], |inputs| + m);
      assert inputs[..k] + [inputs[k]] == inputs;
    }
  }

  /** A tick is gated exactly when it has no valid tach, runs below the baseline, is slewing, is overridden now or was
      on the tick before, or lies within the spin-up grace of the last rise into range. */
  lemma GateLaw(cfg: Config, inputs: seq<Input>, inp: Input)
    requires cfg.Valid()
    ensures Gated(cfg, WindowRun(cfg, inputs), inp) <==>
      !inp.tachValid || Low(cfg, inp) || inp.slewLimited || inp.faultOverride ||
      (|inputs| > 0 && inputs[|inputs| - 1].faultOverride) || Spinning(cfg, inputs + [inp], |inputs|)
  {
    TrackerRemembers(cfg, inputs, 0);
    SpinningNext(cfg, inputs, inp, |inputs|);
  }
}
