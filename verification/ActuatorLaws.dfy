/** What the final actuator stage outputs: one tick as a clamped move toward a target, the spin-up kick, and how a
    held demand is reached (core/thermal_core.c:2066-2210, core/thermal_slew.c). */
module ActuatorLaws {
  import opened CInt
  import opened Actuator

  /** The spin-up lasts the configured time rounded up to whole ticks, whenever that fits the counters. */
  lemma SpinupLength(ac: Config, periodMs: u16, n: nat)
    requires 0 < periodMs && n <= 0xFFFF && ac.spinupMs + periodMs <= 0x1_0000_0000
    requires (n - 1) * periodMs < ac.spinupMs <= n * periodMs
    ensures SpinupTicks(ac, periodMs) == n
  {
    var v := ac.spinupMs + periodMs - 1;
    DivModIs(v, 0x1_0000_0000, 0, v);
    assert n * periodMs == (n - 1) * periodMs + periodMs;
    DivModIs(v, periodMs, n, v - n * periodMs);
    DivModIs(n, 0x1_0000, 0, n);
  }

  /** The duty the stage wants before spin-up: pwm_max when forced, the present state while its dwell lasts, the
      demand otherwise. */
  predicate Wants(ac: Config, s: State, inp: Input, want: int) {
    if inp.forceMax then want == ac.pwmMax
    else if inp.slewUp || inp.shutdown then want == inp.demand
    else if inp.demand > 0 && s.duty == 0 && s.offTicks < ac.minOff then want == 0
    else if inp.demand == 0 && s.duty > 0 && s.onTicks < ac.minOn then want == s.duty
    else want == inp.demand
  }

  /** Ticks of spin-up left, this one included: a start from standstill arms them, a stop cancels them. */
  predicate Kicking(ac: Config, s: State, periodMs: u16, want: int, left: int) {
    if want == 0 then left == 0
    else if s.duty == 0 && s.spinup == 0 && ac.spinupMs > 0 then left == SpinupTicks(ac, periodMs)
    else left == s.spinup
  }

  /** The duty after moving from the present one toward a target: no further than the rate, and upward freely when
      bypassed or kicked. */
  function Moved(ac: Config, from: int, target: int, free: bool): int {
    if ac.slew == 0 then target
    else if target >= from then (if free then target else Min(target, from + ac.slew))
    else Max(target, from - ac.slew)
  }

  /** One tick: move toward the wanted duty, or toward the spin-up duty while a kick is on and higher; keep a running
      fan at pwm_min or more and everything at pwm_max or less; count the ticks on or off. */
  lemma StageLaw(ac: Config, s: State, inp: Input, periodMs: u16, want: int, left: int)
    requires Inv(ac, s) && Wants(ac, s, inp, want) && Kicking(ac, s, periodMs, want, left)
    ensures var t := Step(ac, s, inp, periodMs);
            var target := if left > 0 then Max(want, ac.spinupPwm) else want;
            var moved := Moved(ac, s.duty, target, inp.slewUp || target > want);
            t.duty == Min(ac.pwmMax, if moved == 0 || target == 0 then moved else Max(moved, ac.pwmMin)) &&
            t.spinup == Max(0, left - 1) && (t.slewLimited <==> moved != target) &&
            t.onTicks == (if t.duty > 0 then Min(s.onTicks + 1, 0xFFFF) else 0) &&
            t.offTicks == (if t.duty > 0 then 0 else Min(s.offTicks + 1, 0xFFFF))
  {
  }

  /** A just initialised actuator is off and owes no off-dwell. */
  lemma StartsAtOnce(ac: Config, inp: Input, periodMs: u16)
    requires ac.Valid() && inp.demand > 0 && ac.pwmMax > 0 && ac.slew == 0
    ensures Init(ac).duty == 0 && Step(ac, Init(ac), inp, periodMs).duty > 0
  {
  }

  // ----- A held demand

  /** An ordinary tick: a demand within the duty range and no bypass. */
  predicate Plain(ac: Config, d: u8, inp: Input) {
    inp == Input(d, false, false, false) && ac.pwmMin <= d <= ac.pwmMax && d > 0
  }

  ghost function Held(inp: Input, n: nat): seq<Input> { seq(n, _ => inp) }

  lemma HeldNext(ac: Config, s: State, inp: Input, periodMs: u16, n: nat)
    requires n > 0
    ensures RunFrom(ac, s, periodMs, Held(inp, n)) ==
      RunFrom(ac, Step(ac, s, inp, periodMs), periodMs, Held(inp, n - 1))
  {
    assert Held(inp, n)[1..] == Held(inp, n - 1);
  }

  /** The kick: a start from standstill holds the higher spin-up duty for exactly the spin-up ticks. */
  lemma {:induction false} SpinupKick(ac: Config, s: State, d: u8, inp: Input, periodMs: u16, k: nat)
    requires Inv(ac, s) && Plain(ac, d, inp) && d < ac.spinupPwm && ac.spinupMs > 0
    requires s.duty == 0 && s.spinup == 0 && s.offTicks >= ac.minOff && 0 < k <= SpinupTicks(ac, periodMs)
    ensures var t := RunFrom(ac, s, periodMs, Held(inp, k));
            t.duty == ac.spinupPwm && t.spinup == SpinupTicks(ac, periodMs) - k
  {
    var t := Step(ac, s, inp, periodMs);
    StepKeepsInv(ac, s, inp, periodMs);
    HeldNext(ac, s, inp, periodMs, k);
    KickHolds(ac, t, d, inp, periodMs, k - 1);
  }

  lemma {:induction false} KickHolds(ac: Config, s: State, d: u8, inp: Input, periodMs: u16, k: nat)
    requires Inv(ac, s) && Plain(ac, d, inp) && d < ac.spinupPwm && s.duty == ac.spinupPwm && k <= s.spinup
    ensures var t := RunFrom(ac, s, periodMs, Held(inp, k)); t.duty == ac.spinupPwm && t.spinup == s.spinup - k
    decreases k
  {
    if k > 0 {
      StepKeepsInv(ac, s, inp, periodMs);
      HeldNext(ac, s, inp, periodMs, k);
      KickHolds(ac, Step(ac, s, inp, periodMs), d, inp, periodMs, k - 1);
    }
  }

  /** Distance left after one more tick of the rate. */
  function Closer(ac: Config, gap: nat): nat { if ac.slew == 0 then 0 else Max(0, gap - ac.slew) }

  lemma TrackStep(ac: Config, s: State, d: u8, inp: Input, periodMs: u16)
    requires Inv(ac, s) && Plain(ac, d, inp) && s.duty >= ac.pwmMin && s.duty > 0 && s.spinup == 0
    ensures var t := Step(ac, s, inp, periodMs);
            Abs(t.duty - d) == Closer(ac, Abs(s.duty - d)) && (d <= t.duty <==> d <= s.duty || t.duty == d) &&
            t.duty >= ac.pwmMin && t.duty > 0 && t.spinup == 0
  {
  }

  /** Ticks a running fan needs to reach a held demand. */
  function ReachTicks(ac: Config, gap: nat): nat {
    if gap == 0 then 0 else if ac.slew == 0 then 1 else (gap + ac.slew - 1) / ac.slew
  }

  /** A running fan past its spin-up reaches a held demand within ceil(distance / rate) ticks, and keeps it. */
  lemma {:induction false} HeldDemandReached(ac: Config, s: State, d: u8, inp: Input, periodMs: u16, n: nat)
    requires Inv(ac, s) && Plain(ac, d, inp) && s.duty >= ac.pwmMin && s.duty > 0 && s.spinup == 0
    requires n >= ReachTicks(ac, Abs(s.duty - d))
    ensures RunFrom(ac, s, periodMs, Held(inp, n)).duty == d
    decreases n
  {
    if n == 0 {
      NoGap(ac, Abs(s.duty - d));
    } else {
      ReachStep(ac, s, d, inp, periodMs, n);
      HeldNext(ac, s, inp, periodMs, n);
      HeldDemandReached(ac, Step(ac, s, inp, periodMs), d, inp, periodMs, n - 1);
    }
  }

  lemma ReachStep(ac: Config, s: State, d: u8, inp: Input, periodMs: u16, n: nat)
    requires Inv(ac, s) && Plain(ac, d, inp) && s.duty >= ac.pwmMin && s.duty > 0 && s.spinup == 0
    requires n > 0 && n >= ReachTicks(ac, Abs(s.duty - d))
    ensures var t := Step(ac, s, inp, periodMs);
            Inv(ac, t) && t.duty >= ac.pwmMin && t.duty > 0 && t.spinup == 0 && n - 1 >= ReachTicks(ac, Abs(t.duty - d))
  {
    StepKeepsInv(ac, s, inp, periodMs);
    TrackStep(ac, s, d, inp, periodMs);
    ReachShrinks(ac, Abs(s.duty - d));
  }

  lemma NoGap(ac: Config, gap: nat)
    ensures ReachTicks(ac, gap) == 0 <==> gap == 0
  {
    if gap > 0 && ac.slew > 0 { FactorOrder(1, (gap + ac.slew - 1) / ac.slew, ac.slew); }
  }

  lemma ReachShrinks(ac: Config, gap: nat)
    ensures ReachTicks(ac, Closer(ac, gap)) <= Max(0, ReachTicks(ac, gap) - 1)
  {
    if ac.slew > 0 && gap > ac.slew {
      var v := gap + ac.slew - 1;
      var q, r := v / ac.slew, v % ac.slew;
      assert (q - 1) * ac.slew == q * ac.slew - ac.slew;
      DivModIs(v - ac.slew, ac.slew, q - 1, r);
    } else if gap > 0 {
      NoGap(ac, gap);
    }
  }

  /** While its off-dwell lasts a stopped fan stays off under any demand without a bypass. */
  lemma {:induction false} WaitsOffDwell(ac: Config, s: State, d: u8, inp: Input, periodMs: u16, k: nat)
    requires Inv(ac, s) && Plain(ac, d, inp) && s.duty == 0 && s.spinup == 0 && s.offTicks + k <= ac.minOff
    ensures var t := RunFrom(ac, s, periodMs, Held(inp, k));
            t.duty == 0 && t.spinup == 0 && t.offTicks == s.offTicks + k
    decreases k
  {
    if k > 0 {
      StepKeepsInv(ac, s, inp, periodMs);
      HeldNext(ac, s, inp, periodMs, k);
      WaitsOffDwell(ac, Step(ac, s, inp, periodMs), d, inp, periodMs, k - 1);
    }
  }

  /** And on the tick after that it starts. */
  lemma StartsAfterDwell(ac: Config, s: State, d: u8, inp: Input, periodMs: u16)
    requires Inv(ac, s) && Plain(ac, d, inp) && s.duty == 0 && s.offTicks >= ac.minOff
    ensures Step(ac, s, inp, periodMs).duty >= Min(d, Max(ac.pwmMin, 1))
  {
  }
}
