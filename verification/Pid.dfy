/** Q16.16 PID governor with derivative on measurement and anti-windup (core/thermal_pid.c). */
module Pid {
  import opened CInt

  datatype State = State(integral: i32, prevTemp: i32, dFiltered: i32, prevNow: u32,
                         initialized: bool, dFilterInit: bool)

  const RESET: State := State(0, 0, 0, 0, false, false)

  datatype Gains = Gains(kp: i32, ki: i32, kd: i32, dAlpha: i32)

  /** What one tick feeds the controller. */
  datatype Input = Input(setpoint: i32, temp: i32, now: u32)

  /** Sampling-interval clamp and output range; validation guarantees 0 < dtMin <= dtMax. */
  datatype Limits = Limits(dtMin: u16, dtMax: u16, pwmMin: u8, pwmMax: u8) {
    predicate Valid() { 0 < dtMin <= dtMax && pwmMin <= pwmMax }
  }

  /** The output, and the three terms as reported: saturated to int32, the I term being the stored integral. */
  datatype Result = Result(output: u8, dtMs: u16, saturatedHigh: bool, saturatedLow: bool,
                           pTerm: i32, iTerm: i32, dTerm: i32)

  /** Elapsed time since the previous tick, modulo 2^32, clamped. */
  function DtMs(s: State, now: u32, lim: Limits): (dt: u16)
    requires lim.Valid()
    ensures lim.dtMin <= dt <= lim.dtMax
  {
    var raw := if s.initialized then (now - s.prevNow) % 0x1_0000_0000 else lim.dtMin;
    if raw < lim.dtMin then lim.dtMin else if raw > lim.dtMax then lim.dtMax else raw
  }

  function Increment(ki: int, error: int, dt: int): int { TruncDiv(ki * error * dt, 1000) }

  function Derivative(kd: int, dTemp: int, dt: int): int
    requires dt > 0
  {
    TruncDiv(kd * dTemp * 1000, dt)
  }

  /** One step of the derivative's low-pass filter. */
  function IirStep(prev: i32, sample: i32, alpha: int): i32 {
    ClampI32(prev + RoundQ16(alpha * (sample - prev)))
  }

  /** Unfiltered derivative term; zero before the first sample. */
  function RawD(s: State, kd: int, temp: int, dt: u16): int
    requires dt > 0
  {
    if s.initialized then Derivative(kd, temp - s.prevTemp, dt) else 0
  }

  /** The derivative term after its optional filter, with the filter's new state. */
  function DTerm(s: State, g: Gains, temp: int, dt: u16): (int, i32, bool)
    requires dt > 0
  {
    var raw := RawD(s, g.kd, temp, dt);
    if !s.initialized || g.dAlpha <= 0 then (raw, s.dFiltered, false)
    else
      var sample := ClampI32(raw);
      var f: i32 :=
        if !s.dFilterInit then sample
        else IirStep(s.dFiltered, sample, g.dAlpha);
      (f, f, true)
  }

  /** Q16.16 to integer, rounding toward minus infinity by a sign-defined shift. */
  function Floor16(v: int): (r: int)
    ensures r * Q16_ONE <= v < (r + 1) * Q16_ONE
  {
    if v >= 0 then v / Q16_ONE else -((-v + 65535) / Q16_ONE)
  }

  function Step(s: State, g: Gains, inp: Input, lim: Limits): (State, Result)
    requires lim.Valid()
  {
    var dt := DtMs(s, inp.now, lim);
    var error := inp.temp - inp.setpoint;
    var inc := Increment(g.ki, error, dt);
    var tentative := ClampI32(s.integral + inc);
    var (d, dFiltered, dInit) := DTerm(s, g, inp.temp, dt);
    var pwm := Floor16(ClampI32(g.kp * error + tentative + d));
    var hi, lo := pwm > lim.pwmMax, pwm < lim.pwmMin;
    var commit := !(hi && inc > 0) && !(lo && inc < 0);
    var integral := if commit then tentative else s.integral;
    (State(integral, inp.temp, dFiltered, inp.now, true, dInit),
     Result(if hi then lim.pwmMax else if lo then lim.pwmMin else pwm, dt, hi, lo,
            ClampI32(g.kp * error), integral, ClampI32(d)))
  }

  class PidController {
    var integral: i32
    var prevTemp: i32
    var dFiltered: i32
    var prevNow: u32
    var initialized: bool
    var dFilterInit: bool

    function View(): State reads this {
      State(integral, prevTemp, dFiltered, prevNow, initialized, dFilterInit)
    }

    constructor ()
      ensures View() == RESET
    {
      integral, prevTemp, dFiltered, prevNow := 0, 0, 0, 0;
      initialized, dFilterInit := false, false;
    }

    method Reset()
      modifies this
      ensures View() == RESET
    {
      integral, prevTemp, dFiltered, prevNow := 0, 0, 0, 0;
      initialized, dFilterInit := false, false;
    }

    /** The elapsed-time clamp. */
    method ElapsedMs(now: u32, lim: Limits) returns (dt: u16)
      requires lim.Valid()
      ensures dt == DtMs(View(), now, lim)
    {
      var ms: int := lim.dtMin;
      if initialized { ms := (now - prevNow) % 0x1_0000_0000; }
      if ms < lim.dtMin { ms := lim.dtMin; }
      if ms > lim.dtMax { ms := lim.dtMax; }
      dt := ms;
    }

    /** The derivative term and its filter. */
    method DerivativeTerm(g: Gains, temp: i32, dt: u16) returns (dTerm: int)
      requires dt > 0
      modifies this`dFiltered, this`dFilterInit
      ensures (dTerm, dFiltered, dFilterInit) == DTerm(old(View()), g, temp, dt)
    {
      dTerm := 0;
      if initialized {
        dTerm := Derivative(g.kd, temp - prevTemp, dt);
        if g.dAlpha > 0 {
          var rawD := ClampI32(dTerm);
          if !dFilterInit {
            dFiltered, dFilterInit := rawD, true;
          } else {
            dFiltered := IirStep(dFiltered, rawD, g.dAlpha);
          }
          dTerm := dFiltered;
        } else {
          dFilterInit := false;
        }
      } else {
        dFilterInit := false;
      }
    }

    method StepFiltered(g: Gains, inp: Input, lim: Limits) returns (out: Result)
      requires lim.Valid()
      modifies this
      ensures (View(), out) == Step(old(View()), g, inp, lim)
    {
      var dt := ElapsedMs(inp.now, lim);
      var error := inp.temp - inp.setpoint;
      var pTerm := g.kp * error;
      var iIncrement := Increment(g.ki, error, dt);
      var iTentative := ClampI32(integral + iIncrement);
      var dTerm := DerivativeTerm(g, inp.temp, dt);
      var outputPwm := Floor16(ClampI32(pTerm + iTentative + dTerm));

      var satHi, satLo := false, false;
      if outputPwm > lim.pwmMax { outputPwm, satHi := lim.pwmMax, true; }
      if outputPwm < lim.pwmMin { outputPwm, satLo := lim.pwmMin, true; }

      var commitIntegral := true;
      if satHi && iIncrement > 0 { commitIntegral := false; }
      if satLo && iIncrement < 0 { commitIntegral := false; }
      if commitIntegral { integral := iTentative; }

      prevTemp, prevNow, initialized := inp.temp, inp.now, true;
      out := Result(outputPwm, dt, satHi, satLo, ClampI32(pTerm), integral, ClampI32(dTerm));
    }
  }

  // ----- Anti-windup

  /** The integral never moves in the direction that deepens a saturated output, for any gains. */
  lemma NeverDeepensSaturation(s: State, g: Gains, inp: Input, lim: Limits)
    requires lim.Valid()
    ensures var (t, r) := Step(s, g, inp, lim);
            (r.saturatedHigh ==> t.integral <= s.integral) &&
            (r.saturatedLow ==> t.integral >= s.integral) &&
            lim.pwmMin <= r.output <= lim.pwmMax
  {
  }

  /** The integral increment has the sign of the error. */
  lemma IncrementSign(ki: int, error: int, dt: int)
    requires ki >= 0 && dt > 0
    ensures Increment(ki, error, dt) > 0 ==> error > 0
    ensures Increment(ki, error, dt) < 0 ==> error < 0
  {
    if error >= 0 {
      MulMono(0, ki, error);
      MulMono(0, ki * error, dt);
    }
    if error <= 0 {
      MulMono(0, ki, -error);
      assert ki * -error == -(ki * error);
      MulMono(0, -(ki * error), dt);
      assert -(ki * error) * dt == -(ki * error * dt);
    }
  }

  /** Stored integral within [0, 2^24) and no residue in the derivative filter. */
  predicate Wound(s: State) { 0 <= s.integral < 0x100_0000 && s.dFiltered == 0 }

  ghost predicate PiGains(g: Gains) { g.kp >= 0 && g.ki >= 0 && g.kd == 0 }

  /** The range the regulator uses for every PID zone (core/thermal_core.c:281). */
  ghost predicate FullRange(lim: Limits) { lim.Valid() && lim.pwmMin == 0 && lim.pwmMax == 255 }

  lemma NoDTerm(s: State, g: Gains, temp: int, dt: u16)
    requires Wound(s) && g.kd == 0 && dt > 0
    ensures DTerm(s, g, temp, dt).0 == 0 && DTerm(s, g, temp, dt).1 == 0
  {
    assert g.kd * (temp - s.prevTemp) == 0;
    assert g.dAlpha * (0 - 0) == 0;
  }

  lemma PiStepBounded(s: State, g: Gains, inp: Input, lim: Limits)
    requires Wound(s) && PiGains(g) && FullRange(lim)
    ensures Wound(Step(s, g, inp, lim).0)
  {
    var dt := DtMs(s, inp.now, lim);
    var error := inp.temp - inp.setpoint;
    NoDTerm(s, g, inp.temp, dt);
    IncrementSign(g.ki, error, dt);
    var inc, p := Increment(g.ki, error, dt), g.kp * error;
    if error >= 0 { MulMono(0, g.kp, error); assert p >= 0; }
    if error <= 0 { MulMono(0, g.kp, -error); assert g.kp * -error == -p; assert p <= 0; }
    PiBounds(s.integral, inc, p);
  }

  /** The saturation arithmetic alone: a provisional integral outside [0, 2^24) saturates the
      output on its own side, because the proportional term pushes the same way. */
  lemma PiBounds(integral: int, inc: int, p: int)
    requires 0 <= integral < 0x100_0000
    requires inc > 0 ==> p >= 0
    requires inc < 0 ==> p <= 0
    ensures var t := ClampI32(integral + inc);
            (t >= 0x100_0000 ==> inc > 0 && Floor16(ClampI32(p + t)) > 255) &&
            (t < 0 ==> inc < 0 && Floor16(ClampI32(p + t)) < 0)
  {
  }

  ghost function Run(s: State, g: Gains, lim: Limits, inputs: seq<Input>): State
    requires lim.Valid()
  {
    if |inputs| == 0 then s
    else Step(Run(s, g, lim, inputs[..|inputs| - 1]), g, inputs[|inputs| - 1], lim).0
  }

  /** For every sequence of temperatures, setpoints and timestamps since reset, a PI controller's
      stored integral stays within [0, 2^24). */
  lemma {:induction false} IntegralBounded(g: Gains, lim: Limits, inputs: seq<Input>)
    requires PiGains(g) && FullRange(lim)
    ensures 0 <= Run(RESET, g, lim, inputs).integral < 0x100_0000
    ensures Wound(Run(RESET, g, lim, inputs))
  {
    if |inputs| > 0 {
      var before := inputs[..|inputs| - 1];
      IntegralBounded(g, lim, before);
      PiStepBounded(Run(RESET, g, lim, before), g, inputs[|inputs| - 1], lim);
    }
  }
}
