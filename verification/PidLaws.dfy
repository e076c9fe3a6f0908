/** What one tick of the PID controller computes, said without its own arithmetic: quotients and roundings by
    the inequalities that fix them, and the direction of every term (core/thermal_pid.c:36-134). */
module PidLaws {
  import opened CInt
  import opened Quotients
  import opened Pid

  lemma RoundedIs(n: int, q: int)
    requires IsNearest(n, Q16_ONE, q)
    ensures q == RoundQ16(n)
  {
  }

  // ----- Time

  /** The interval is the time since the previous tick, across a wrap of the clock too, clamped to its limits;
      the first tick takes the lower limit. */
  lemma ElapsedLaw(s: State, g: Gains, inp: Input, lim: Limits, elapsed: u32)
    requires lim.Valid() && (s.prevNow + elapsed) % 0x1_0000_0000 == inp.now
    ensures Step(s, g, inp, lim).1.dtMs ==
      if !s.initialized || elapsed < lim.dtMin then lim.dtMin else if elapsed > lim.dtMax then lim.dtMax else elapsed
    ensures Step(s, g, inp, lim).0.prevNow == inp.now && Step(s, g, inp, lim).0.initialized
  {
    ClockGap(s.prevNow, elapsed, inp.now);
  }

  lemma ClockGap(before: u32, elapsed: u32, now: u32)
    requires (before + elapsed) % 0x1_0000_0000 == now
    ensures (now - before) % 0x1_0000_0000 == elapsed
  {
    if before + elapsed < 0x1_0000_0000 {
      DivModIs(before + elapsed, 0x1_0000_0000, 0, before + elapsed);
      DivModIs(now - before, 0x1_0000_0000, 0, elapsed);
    } else {
      DivModIs(before + elapsed, 0x1_0000_0000, 1, before + elapsed - 0x1_0000_0000);
      DivModIs(now - before, 0x1_0000_0000, -1, elapsed);
    }
  }

  // ----- The terms

  /** The derivative term: kd times the rise since the previous tick, per second; nothing on the first tick. */
  ghost predicate IsRate(s: State, g: Gains, inp: Input, dt: u16, raw: int) {
    if s.initialized then IsTruncated(g.kd * (inp.temp - s.prevTemp) * 1000, dt, raw) else raw == 0
  }

  /** Its filter: off, started by this sample, or moved by m, alpha of the way to it. */
  predicate IsFiltered(s: State, g: Gains, raw: int, m: int, d: int) {
    if !s.initialized || g.dAlpha <= 0 then d == raw
    else if !s.dFilterInit then d == ClampI32(raw)
    else IsNearest(g.dAlpha * (ClampI32(raw) - s.dFiltered), Q16_ONE, m) && d == ClampI32(s.dFiltered + m)
  }

  /** The provisional integral moves by ki times the error over the interval; the output is the integer part of
      the three terms, clamped; the integral is stored unless the output is saturated on the side it moves to. */
  lemma StepLaw(s: State, g: Gains, inp: Input, lim: Limits, inc: int, raw: int, m: int, d: int, pwm: int)
    requires lim.Valid()
    requires var dt := Step(s, g, inp, lim).1.dtMs;
             IsTruncated(g.ki * (inp.temp - inp.setpoint) * dt, 1000, inc) && IsRate(s, g, inp, dt, raw)
    requires IsFiltered(s, g, raw, m, d)
    requires var sum := ClampI32(g.kp * (inp.temp - inp.setpoint) + ClampI32(s.integral + inc) + d);
             pwm * Q16_ONE <= sum < (pwm + 1) * Q16_ONE
    ensures var (t, r) := Step(s, g, inp, lim);
            r.output == Max(lim.pwmMin, Min(pwm, lim.pwmMax)) &&
            (r.saturatedHigh <==> pwm > lim.pwmMax) && (r.saturatedLow <==> pwm < lim.pwmMin) &&
            t.integral == (if (pwm > lim.pwmMax && inc > 0) || (pwm < lim.pwmMin && inc < 0) then s.integral
                           else ClampI32(s.integral + inc)) &&
            r.iTerm == t.integral && r.pTerm == ClampI32(g.kp * (inp.temp - inp.setpoint)) && r.dTerm == ClampI32(d) &&
            t.prevTemp == inp.temp && t.dFilterInit == (s.initialized && g.dAlpha > 0) &&
            t.dFiltered == (if t.dFilterInit then d else s.dFiltered)
  {
    var dt := Step(s, g, inp, lim).1.dtMs;
    TruncatedIs(g.ki * (inp.temp - inp.setpoint) * dt, 1000, inc);
    if s.initialized { TruncatedIs(g.kd * (inp.temp - s.prevTemp) * 1000, dt, raw); }
    FilteredIs(s, g, inp, dt, raw, m, d);
    FloorIs(ClampI32(g.kp * (inp.temp - inp.setpoint) + ClampI32(s.integral + inc) + d), pwm);
  }

  lemma FilteredIs(s: State, g: Gains, inp: Input, dt: u16, raw: int, m: int, d: int)
    requires dt > 0 && raw == RawD(s, g.kd, inp.temp, dt) && IsFiltered(s, g, raw, m, d)
    ensures var (term, filtered, init) := DTerm(s, g, inp.temp, dt);
            term == d && init == (s.initialized && g.dAlpha > 0) && filtered == if init then d else s.dFiltered
  {
    if s.initialized && g.dAlpha > 0 && s.dFilterInit {
      RoundedIs(g.dAlpha * (ClampI32(raw) - s.dFiltered), m);
    }
  }

  lemma FloorIs(v: int, q: int)
    requires q * Q16_ONE <= v < (q + 1) * Q16_ONE
    ensures Floor16(v) == q
  {
  }

  lemma ProductOrder(k: int, a: int, b: int)
    requires k >= 0 && a <= b
    ensures k * a <= k * b
  {
    MulMono(a, b, k);
  }

  // ----- Directions

  predicate Rising(g: Gains) { g.kp >= 0 && g.ki >= 0 && g.kd >= 0 && g.dAlpha <= 0 }

  lemma TermsOrder(s: State, g: Gains, cool: Input, hot: Input, dt: u16)
    requires Rising(g) && dt > 0 && cool.temp <= hot.temp && cool.temp - cool.setpoint <= hot.temp - hot.setpoint
    ensures g.kp * (cool.temp - cool.setpoint) <= g.kp * (hot.temp - hot.setpoint)
    ensures Increment(g.ki, cool.temp - cool.setpoint, dt) <= Increment(g.ki, hot.temp - hot.setpoint, dt)
    ensures RawD(s, g.kd, cool.temp, dt) <= RawD(s, g.kd, hot.temp, dt)
  {
    var a, b := cool.temp - cool.setpoint, hot.temp - hot.setpoint;
    ProductOrder(g.kp, a, b);
    ProductOrder(g.ki, a, b);
    MulMono(g.ki * a, g.ki * b, dt);
    TruncDivMono(g.ki * a * dt, g.ki * b * dt, 1000);
    ProductOrder(g.kd, cool.temp - s.prevTemp, hot.temp - s.prevTemp);
    TruncDivMono(g.kd * (cool.temp - s.prevTemp) * 1000, g.kd * (hot.temp - s.prevTemp) * 1000, dt);
  }

  /** From the same state, a hotter reading never gives a lower output. */
  lemma HotterNeverLess(s: State, g: Gains, setpoint: i32, cool: i32, hot: i32, now: u32, lim: Limits)
    requires lim.Valid() && Rising(g) && cool <= hot
    ensures Step(s, g, Input(setpoint, cool, now), lim).1.output <= Step(s, g, Input(setpoint, hot, now), lim).1.output
  {
    TermsOrder(s, g, Input(setpoint, cool, now), Input(setpoint, hot, now), DtMs(s, now, lim));
  }

  /** A higher setpoint never gives a higher output. */
  lemma HigherSetpointNeverMore(s: State, g: Gains, low: i32, high: i32, temp: i32, now: u32, lim: Limits)
    requires lim.Valid() && Rising(g) && low <= high
    ensures Step(s, g, Input(high, temp, now), lim).1.output <= Step(s, g, Input(low, temp, now), lim).1.output
  {
    TermsOrder(s, g, Input(high, temp, now), Input(low, temp, now), DtMs(s, now, lim));
  }

  /** With the proportional term alone an unsaturated output is the integer part of kp times the error. */
  lemma ProportionalOnly(s: State, g: Gains, inp: Input, lim: Limits)
    requires lim.Valid() && g.ki == 0 && g.kd == 0 && g.dAlpha <= 0 && s.integral == 0
    ensures var r := Step(s, g, inp, lim).1;
            !r.saturatedHigh && !r.saturatedLow ==>
              r.output * Q16_ONE <= g.kp * (inp.temp - inp.setpoint) < (r.output + 1) * Q16_ONE
  {
    assert g.ki * (inp.temp - inp.setpoint) == 0;
    assert g.kd * (inp.temp - s.prevTemp) == 0;
  }

  /** A stored integral follows the sign of the error: it rises above the setpoint and falls below it, as soon
      as the step is worth a count and is not clipped. */
  lemma IntegralFollowsError(s: State, g: Gains, inp: Input, lim: Limits)
    requires lim.Valid() && g.ki > 0
    ensures var (t, r) := Step(s, g, inp, lim);
            var n := g.ki * (inp.temp - inp.setpoint) * r.dtMs;
            (inp.temp >= inp.setpoint ==> t.integral >= s.integral) &&
            (inp.temp <= inp.setpoint ==> t.integral <= s.integral) &&
            (n >= 1000 && !r.saturatedHigh && s.integral < I32_MAX ==> t.integral > s.integral) &&
            (n <= -1000 && !r.saturatedLow && s.integral > I32_MIN ==> t.integral < s.integral)
  {
    var e, dt := inp.temp - inp.setpoint, DtMs(s, inp.now, lim);
    IncrementSign(g.ki, e, dt);
    TruncParts(g.ki * e * dt, 1000);
  }

  /** With a positive kd a rising temperature adds to the output and a falling one takes from it. */
  lemma DerivativeSign(s: State, g: Gains, inp: Input, lim: Limits)
    requires lim.Valid() && g.kd >= 0 && g.dAlpha <= 0
    ensures var r := Step(s, g, inp, lim).1;
            (!s.initialized ==> r.dTerm == 0) && (inp.temp >= s.prevTemp ==> r.dTerm >= 0) &&
            (inp.temp <= s.prevTemp ==> r.dTerm <= 0)
  {
    var dTemp := inp.temp - s.prevTemp;
    if dTemp >= 0 { ProductOrder(g.kd, 0, dTemp); }
    if dTemp <= 0 { ProductOrder(g.kd, dTemp, 0); }
  }
}
