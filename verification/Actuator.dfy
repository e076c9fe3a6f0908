/** Final actuator stage of a control tick: fault force-max, dwell, spin-up, slew and clamp
    (core/thermal_core.c:2024-2031 and 2066-2210, core/thermal_slew.c). */
module Actuator {
  import opened CInt

  // ----- Slew limiter

  datatype Slewed = Slewed(duty: u8, limited: bool)

  function SlewStep(prev: u8, requested: u8, slew: u8, overrideUp: bool): (r: Slewed)
    ensures slew > 0 ==> prev - slew <= r.duty
    ensures slew > 0 && !overrideUp ==> r.duty <= prev + slew
    ensures Min(prev, requested) <= r.duty <= Max(prev, requested)
    ensures !r.limited ==> r.duty == requested
    ensures r.limited ==> r.duty != requested && Abs(r.duty - prev) == slew
  {
    if overrideUp && requested > prev then Slewed(requested, false)
    else if slew == 0 then Slewed(requested, false)
    else if requested - prev > slew then Slewed(prev + slew, true)
    else if prev - requested > slew then Slewed(prev - slew, true)
    else Slewed(requested, false)
  }

  // ----- One actuator, one tick

  datatype Config = Config(pwmMin: u8, pwmMax: u8, slew: u8, spinupPwm: u8, spinupMs: u32,
                           minOn: u16, minOff: u16)
  {
    predicate Valid() {
      pwmMin <= pwmMax && (spinupMs > 0 ==> 0 < spinupPwm && pwmMin <= spinupPwm <= pwmMax)
    }
  }

  datatype State = State(duty: u8, slewLimited: bool, spinup: u16, onTicks: u16, offTicks: u16)

  /** At init the off counter starts at the full dwell, so the first switch-on is not delayed. */
  function Init(ac: Config): State { State(0, false, 0, 0, ac.minOff) }

  /** What the earlier steps of the tick decided: the arbitrated (and capped) demand and three flags. */
  datatype Input = Input(demand: u8, slewUp: bool, forceMax: bool, shutdown: bool) {
    predicate Bypass() { slewUp || forceMax || shutdown }
  }

  /** Spin-up length in ticks, with the 32-bit sum and the 16-bit truncation of the source. */
  function SpinupTicks(ac: Config, periodMs: u16): u16 {
    if periodMs > 0 then (((ac.spinupMs + periodMs - 1) % 0x1_0000_0000) / periodMs) % 0x1_0000 else 0
  }

  /** The demand after force-max and the anti-short-cycle hold. */
  function Dwelled(ac: Config, s: State, inp: Input): u8 {
    var demand := if inp.forceMax then ac.pwmMax else inp.demand;
    if !inp.Bypass() && demand > 0 && s.duty == 0 && s.offTicks < ac.minOff then 0
    else if !inp.Bypass() && demand == 0 && s.duty > 0 && s.onTicks < ac.minOn then s.duty
    else demand
  }

  /** Remaining spin-up ticks seen by this tick. */
  function SpinupArmed(ac: Config, s: State, requested: u8, periodMs: u16): u16 {
    if requested == 0 then 0
    else if ac.spinupMs > 0 && SpinupTicks(ac, periodMs) > 0 && s.duty == 0 && s.spinup == 0
    then SpinupTicks(ac, periodMs)
    else s.spinup
  }

  function Step(ac: Config, s: State, inp: Input, periodMs: u16): State {
    var dwelled := Dwelled(ac, s, inp);
    var spinup := SpinupArmed(ac, s, dwelled, periodMs);
    var kick := spinup > 0 && ac.spinupPwm > dwelled;
    var requested := if kick then ac.spinupPwm else dwelled;
    var slewed := SlewStep(s.duty, requested, ac.slew, inp.slewUp || kick);
    var raised := if slewed.duty != 0 && requested != 0 && slewed.duty < ac.pwmMin then ac.pwmMin else slewed.duty;
    var duty := if raised > ac.pwmMax then ac.pwmMax else raised;
    State(duty, slewed.limited,
          if spinup > 0 then spinup - 1 else 0,
          if duty == 0 then 0 else if s.onTicks < 0xFFFF then s.onTicks + 1 else s.onTicks,
          if duty != 0 then 0 else if s.offTicks < 0xFFFF then s.offTicks + 1 else s.offTicks)
  }

  /** The tick as the source performs it, one branch after another. */
  method Drive(ac: Config, s: State, inp: Input, periodMs: u16) returns (t: State)
    ensures t == Step(ac, s, inp, periodMs)
  {
    var requested := if inp.forceMax then ac.pwmMax else inp.demand;
    if !(inp.slewUp || inp.forceMax || inp.shutdown) {
      if requested > 0 && s.duty == 0 && s.offTicks < ac.minOff {
        requested := 0;
      } else if requested == 0 && s.duty > 0 && s.onTicks < ac.minOn {
        requested := s.duty;
      }
    }
    var spinup, spinupApplied := s.spinup, false;
    if requested == 0 {
      spinup := 0;
    } else {
      var ticks := SpinupTicks(ac, periodMs);
      if ac.spinupMs > 0 && ticks > 0 && s.duty == 0 && spinup == 0 { spinup := ticks; }
      if spinup > 0 && ac.spinupPwm > requested {
        requested, spinupApplied := ac.spinupPwm, true;
      }
    }
    var sr := SlewStep(s.duty, requested, ac.slew, inp.slewUp || spinupApplied);
    var intendedOff := requested == 0;
    var final := sr.duty;
    if final != 0 && !intendedOff && final < ac.pwmMin { final := ac.pwmMin; }
    if final > ac.pwmMax { final := ac.pwmMax; }
    if spinup > 0 { spinup := spinup - 1; }
    var on, off := s.onTicks, s.offTicks;
    if final > 0 {
      if on < 0xFFFF { on := on + 1; }
      off := 0;
    } else {
      if off < 0xFFFF { off := off + 1; }
      on := 0;
    }
    t := State(final, sr.limited, spinup, on, off);
  }

  /** What every tick keeps: the duty is in range, exactly one counter runs, and a spin-up is only
      ever pending when the configuration asks for one. */
  predicate Inv(ac: Config, s: State) {
    ac.Valid() &&
    s.duty <= ac.pwmMax &&
    (s.duty == 0 ==> s.onTicks == 0) &&
    (s.duty > 0 ==> s.offTicks == 0 && s.onTicks > 0) &&
    (s.spinup > 0 ==> ac.spinupMs > 0)
  }

  lemma StepKeepsInv(ac: Config, s: State, inp: Input, periodMs: u16)
    requires Inv(ac, s)
    ensures Inv(ac, Step(ac, s, inp, periodMs))
  {
  }

  // ----- Safety precedence, tick by tick

  /** A forced actuator outputs exactly pwmMax on that tick, whatever cap, dwell, spin-up or slew say. */
  lemma ForcedIsMax(ac: Config, s: State, inp: Input, periodMs: u16)
    requires Inv(ac, s) && inp.forceMax && inp.slewUp
    ensures Step(ac, s, inp, periodMs).duty == ac.pwmMax
  {
  }

  /** With the upward slew bypass set, the output reaches the demand at once. */
  lemma OverrideReachesDemand(ac: Config, s: State, inp: Input, periodMs: u16)
    requires Inv(ac, s) && inp.slewUp
    ensures Step(ac, s, inp, periodMs).duty >= Min(inp.demand, ac.pwmMax)
  {
  }

  /** No tick, under any flags, lowers the duty by more than a nonzero slew rate. */
  lemma DownwardSlewAlwaysHolds(ac: Config, s: State, inp: Input, periodMs: u16)
    requires Inv(ac, s) && ac.slew > 0
    ensures Step(ac, s, inp, periodMs).duty >= s.duty - ac.slew
  {
  }

  /** Outputs are 0, within the configured range, or passing below pwmMin on the way to off. */
  lemma OutputRange(ac: Config, s: State, inp: Input, periodMs: u16)
    requires Inv(ac, s)
    ensures var t := Step(ac, s, inp, periodMs);
            t.duty <= ac.pwmMax && (t.duty == 0 || ac.pwmMin <= t.duty || (Dwelled(ac, s, inp) == 0 && t.duty < s.duty))
  {
  }

  // ----- Dwell over whole runs

  ghost function Run(ac: Config, periodMs: u16, inputs: seq<Input>): State {
    if |inputs| == 0 then Init(ac)
    else Step(ac, Run(ac, periodMs, inputs[..|inputs| - 1]), inputs[|inputs| - 1], periodMs)
  }

  lemma {:induction false} RunKeepsInv(ac: Config, periodMs: u16, inputs: seq<Input>)
    requires ac.Valid()
    ensures Inv(ac, Run(ac, periodMs, inputs))
  {
    if |inputs| > 0 {
      RunKeepsInv(ac, periodMs, inputs[..|inputs| - 1]);
      StepKeepsInv(ac, Run(ac, periodMs, inputs[..|inputs| - 1]), inputs[|inputs| - 1], periodMs);
    }
  }

  /** The duty after each tick of a run. */
  ghost function Trace(ac: Config, periodMs: u16, inputs: seq<Input>): (d: seq<u8>)
    ensures |d| == |inputs|
  {
    if |inputs| == 0 then []
    else Trace(ac, periodMs, inputs[..|inputs| - 1]) + [Run(ac, periodMs, inputs).duty]
  }

  /** The last n duties are all on (off). */
  ghost predicate OnFor(d: seq<u8>, n: nat) { n <= |d| && forall k :: |d| - n <= k < |d| ==> d[k] > 0 }

  ghost predicate OffFor(d: seq<u8>, n: nat) { n <= |d| && forall k :: |d| - n <= k < |d| ==> d[k] == 0 }

  /** The on counter never exceeds the length of the on-run that ends now. */
  lemma {:induction false} OnCounterIsRun(ac: Config, periodMs: u16, inputs: seq<Input>, n: nat)
    requires ac.Valid() && n <= Run(ac, periodMs, inputs).onTicks
    ensures OnFor(Trace(ac, periodMs, inputs), n)
  {
    RunKeepsInv(ac, periodMs, inputs);
    if n > 0 {
      RunKeepsInv(ac, periodMs, inputs[..|inputs| - 1]);
      OnCounterIsRun(ac, periodMs, inputs[..|inputs| - 1], n - 1);
    }
  }

  /** The off counter never exceeds the off-run that ends now, unless that run reaches back to init. */
  lemma {:induction false} OffCounterIsRun(ac: Config, periodMs: u16, inputs: seq<Input>, n: nat)
    requires ac.Valid() && n <= Run(ac, periodMs, inputs).offTicks
    ensures var d := Trace(ac, periodMs, inputs); OffFor(d, |d|) || OffFor(d, n)
  {
    RunKeepsInv(ac, periodMs, inputs);
    if n > 0 && |inputs| > 0 {
      RunKeepsInv(ac, periodMs, inputs[..|inputs| - 1]);
      OffCounterIsRun(ac, periodMs, inputs[..|inputs| - 1], n - 1);
    }
  }

  /** On every tick without a safety bypass, a switch to off ends an on-run of at least minOn ticks,
      and a switch to on ends an off-run of at least minOff ticks or one reaching back to init. */
  lemma SwitchEndsDwell(ac: Config, periodMs: u16, inputs: seq<Input>, inp: Input)
    requires ac.Valid() && !inp.Bypass()
    ensures var (s, d) := (Run(ac, periodMs, inputs), Trace(ac, periodMs, inputs));
            var t := Step(ac, s, inp, periodMs);
            (s.duty > 0 && t.duty == 0 ==> OnFor(d, ac.minOn)) &&
            (s.duty == 0 && t.duty > 0 ==> OffFor(d, |d|) || OffFor(d, ac.minOff))
  {
    var s := Run(ac, periodMs, inputs);
    var t := Step(ac, s, inp, periodMs);
    RunKeepsInv(ac, periodMs, inputs);
    if s.duty > 0 && t.duty == 0 { OnCounterIsRun(ac, periodMs, inputs, ac.minOn); }
    if s.duty == 0 && t.duty > 0 { OffCounterIsRun(ac, periodMs, inputs, ac.minOff); }
  }

  // ----- Switch-off latency

  /** Ticks the down-ramp needs from a given duty: one if slew is unlimited, else ceil(duty / slew). */
  function RampTicks(ac: Config, duty: u8): nat {
    if duty == 0 then 0 else if ac.slew == 0 then 1 else (duty + ac.slew - 1) / ac.slew
  }

  function HoldTicks(ac: Config, s: State): nat { Max(0, ac.minOn - s.onTicks) }

  ghost predicate Quiet(inp: Input) { inp.demand == 0 && !inp.Bypass() }

  ghost function RunFrom(ac: Config, s: State, periodMs: u16, inputs: seq<Input>): State
    decreases |inputs|
  {
    if |inputs| == 0 then s
    else RunFrom(ac, Step(ac, s, inputs[0], periodMs), periodMs, inputs[1..])
  }

  lemma {:induction false} RunThenRunFrom(ac: Config, periodMs: u16, past: seq<Input>, inputs: seq<Input>)
    ensures Run(ac, periodMs, past + inputs) == RunFrom(ac, Run(ac, periodMs, past), periodMs, inputs)
    decreases |inputs|
  {
    if |inputs| == 0 {
      assert past + inputs == past;
    } else {
      assert (past + [inputs[0]])[..|past|] == past;
      assert (past + [inputs[0]]) + inputs[1..] == past + inputs;
      RunThenRunFrom(ac, periodMs, past + [inputs[0]], inputs[1..]);
    }
  }

  ghost predicate AllQuiet(inputs: seq<Input>) { forall k :: 0 <= k < |inputs| ==> Quiet(inputs[k]) }

  /** A quiet tick inside the on-dwell only advances the on counter. */
  lemma QuietHeld(ac: Config, s: State, inp: Input, periodMs: u16)
    requires Inv(ac, s) && Quiet(inp) && s.duty > 0 && HoldTicks(ac, s) > 0
    ensures var t := Step(ac, s, inp, periodMs);
            t.duty > 0 && HoldTicks(ac, t) == HoldTicks(ac, s) - 1
  {
  }

  /** A quiet tick after the on-dwell ramps down by the slew rate. */
  lemma QuietRamp(ac: Config, s: State, inp: Input, periodMs: u16)
    requires Inv(ac, s) && Quiet(inp) && s.duty > 0 && HoldTicks(ac, s) == 0
    ensures var t := Step(ac, s, inp, periodMs);
            t.duty == (if ac.slew == 0 || s.duty <= ac.slew then 0 else s.duty - ac.slew) &&
            (t.duty > 0 ==> HoldTicks(ac, t) == 0)
  {
  }

  lemma {:induction false} StaysOff(ac: Config, s: State, periodMs: u16, inputs: seq<Input>)
    requires Inv(ac, s) && AllQuiet(inputs) && s.duty == 0
    ensures RunFrom(ac, s, periodMs, inputs).duty == 0
    decreases |inputs|
  {
    if |inputs| > 0 {
      StepKeepsInv(ac, s, inputs[0], periodMs);
      StaysOff(ac, Step(ac, s, inputs[0], periodMs), periodMs, inputs[1..]);
    }
  }

  lemma {:induction false} RampsOff(ac: Config, s: State, periodMs: u16, inputs: seq<Input>)
    requires Inv(ac, s) && AllQuiet(inputs) && (s.duty > 0 ==> HoldTicks(ac, s) == 0)
    requires |inputs| >= RampTicks(ac, s.duty)
    ensures RunFrom(ac, s, periodMs, inputs).duty == 0
    decreases |inputs|
  {
    RampZero(ac, s.duty);
    if s.duty == 0 {
      StaysOff(ac, s, periodMs, inputs);
    } else {
      var t := Step(ac, s, inputs[0], periodMs);
      StepKeepsInv(ac, s, inputs[0], periodMs);
      QuietRamp(ac, s, inputs[0], periodMs);
      RampShrinks(ac, s.duty, t.duty);
      RampsOff(ac, t, periodMs, inputs[1..]);
    }
  }

  /** Once the demand stays 0 with no bypass, the duty is 0 after the rest of the on-dwell plus one
      full ramp, and it is 0 from then on. */
  lemma {:induction false} TurnsOff(ac: Config, s: State, periodMs: u16, inputs: seq<Input>)
    requires Inv(ac, s) && AllQuiet(inputs)
    requires |inputs| >= HoldTicks(ac, s) + RampTicks(ac, ac.pwmMax)
    ensures RunFrom(ac, s, periodMs, inputs).duty == 0
    decreases |inputs|
  {
    if s.duty == 0 {
      StaysOff(ac, s, periodMs, inputs);
    } else if HoldTicks(ac, s) == 0 {
      RampMonotone(ac, s.duty, ac.pwmMax);
      RampsOff(ac, s, periodMs, inputs);
    } else {
      StepKeepsInv(ac, s, inputs[0], periodMs);
      QuietHeld(ac, s, inputs[0], periodMs);
      TurnsOff(ac, Step(ac, s, inputs[0], periodMs), periodMs, inputs[1..]);
    }
  }

  /** The same for a run: if its inputs since some prefix are all quiet and enough of them, it ends off. */
  lemma IdleTailTurnsOff(ac: Config, periodMs: u16, past: seq<Input>, all: seq<Input>)
    requires ac.Valid() && past <= all && AllQuiet(all[|past|..])
    requires |all| - |past| >= HoldTicks(ac, Run(ac, periodMs, past)) + RampTicks(ac, ac.pwmMax)
    ensures Run(ac, periodMs, all).duty == 0
  {
    assert past + all[|past|..] == all;
    RunKeepsInv(ac, periodMs, past);
    RunThenRunFrom(ac, periodMs, past, all[|past|..]);
    TurnsOff(ac, Run(ac, periodMs, past), periodMs, all[|past|..]);
  }

  lemma RampZero(ac: Config, duty: u8)
    ensures RampTicks(ac, duty) == 0 <==> duty == 0
  {
  }

  lemma RampMonotone(ac: Config, a: u8, b: u8)
    requires a <= b
    ensures RampTicks(ac, a) <= RampTicks(ac, b)
  {
    if a > 0 && ac.slew > 0 { DivMono(a + ac.slew - 1, b + ac.slew - 1, ac.slew); }
  }

  lemma DivMono(a: nat, b: nat, d: nat)
    requires a <= b && d > 0
    ensures a / d <= b / d
  {
    FactorOrder(a / d, b / d, d);
  }

  lemma RampShrinks(ac: Config, before: u8, after: u8)
    requires before > 0
    requires after == (if ac.slew == 0 || before <= ac.slew then 0 else before - ac.slew)
    ensures RampTicks(ac, after) == RampTicks(ac, before) - 1
  {
    if ac.slew > 0 {
      var d: int, n: int := ac.slew, before + ac.slew - 1;
      if before <= ac.slew { DivModIs(n, d, 1, before - 1); } else { DivModIs(n - d, d, n / d - 1, n % d); }
    }
  }
}
