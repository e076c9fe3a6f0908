/** The stall, stuck-sensor and stale-context detectors over the shared state machine
    (core/thermal_fault.c:92-252, 327-355). */
module Detectors {
  import opened CInt
  import opened Fault

  // ----- Stall

  datatype Stall = Stall(spinupRemaining: u16, prevPwmZero: bool)

  const STALL_RESET: Stall := Stall(0, true)

  function StallArmed(s: Stall, pwm: u8, spinupTicks: u16): u16 {
    if s.prevPwmZero && pwm != 0 then spinupTicks else s.spinupRemaining
  }

  function StallStep(s: Stall, pwm: u8, spinupTicks: u16): Stall {
    var armed := StallArmed(s, pwm, spinupTicks);
    Stall(if armed > 0 then armed - 1 else 0, pwm == 0)
  }

  /** Driven above the threshold with a valid tach below the stall speed, outside spin-up grace. */
  predicate StallCondition(s: Stall, fc: DetectorCfg, pwm: u8, rpm: u16, tachValid: bool, spinupTicks: u16) {
    StallArmed(s, pwm, spinupTicks) == 0 && tachValid && pwm >= fc.threshold1 % 0x100 && rpm < fc.threshold0 % 0x1_0000
  }

  // ----- Stuck sensor

  datatype Stuck = Stuck(valueMin: i32, valueMax: i32, contextMin: i32, contextMax: i32, ticks: u16, contextTicks: u16)

  const STUCK_RESET: Stuck := Stuck(0, 0, 0, 0, 0, 0)

  /** What one tick offers the detector. */
  datatype Reading = Reading(value: i32, valid: bool, contextValue: i32, contextValid: bool)

  predicate Correlated(fc: DetectorCfg) { fc.contextId != 0xFFFF }

  function StuckAccumulate(w: Stuck, fc: DetectorCfg, r: Reading): Stuck {
    if !r.valid then w
    else
      var first := w.ticks == 0;
      var v := if first then w.(valueMin := r.value, valueMax := r.value, contextTicks := 0)
               else w.(valueMin := Min(w.valueMin, r.value), valueMax := Max(w.valueMax, r.value));
      var c :=
        if Correlated(fc) && r.contextValid then
          var one := v.contextTicks == 0;
          v.(contextMin := if one then r.contextValue else Min(v.contextMin, r.contextValue),
             contextMax := if one then r.contextValue else Max(v.contextMax, r.contextValue),
             contextTicks := if v.contextTicks < 0xFFFF then v.contextTicks + 1 else v.contextTicks)
        else v;
      c.(ticks := Inc16(c.ticks))
  }

  predicate WindowDone(w: Stuck, fc: DetectorCfg) {
    fc.threshold1 % 0x1_0000 > 0 && w.ticks >= fc.threshold1 % 0x1_0000
  }

  /** The correlated context, if there is one, moved materially over the window. */
  predicate Moved(v: Stuck, fc: DetectorCfg) {
    Correlated(fc) ==>
      v.contextTicks > 0 && (v.contextMax - v.contextMin) % 0x1_0000_0000 >= fc.threshold2 % 0x1_0000_0000
  }

  /** Flat over the window, while the correlated context (if any) moved materially. */
  predicate StuckCondition(w: Stuck, fc: DetectorCfg, r: Reading) {
    var v := StuckAccumulate(w, fc, r);
    WindowDone(v, fc) && Moved(v, fc) && v.valueMax - v.valueMin < fc.threshold0
  }

  function StuckStep(w: Stuck, fc: DetectorCfg, r: Reading): Stuck {
    var v := StuckAccumulate(w, fc, r);
    if !WindowDone(v, fc) then v
    else
      var restart := v.(valueMin := r.value, valueMax := r.value, ticks := if r.valid then 1 else 0, contextTicks := 0);
      if r.valid && Correlated(fc) && r.contextValid
      then restart.(contextMin := r.contextValue, contextMax := r.contextValue, contextTicks := 1)
      else restart
  }

  // ----- When the stuck-sensor detector can report at all

  /** State machine and window after a run of readings. */
  ghost function StuckRun(fc: DetectorCfg, readings: seq<Reading>, now: u32): (Fsm, Stuck) {
    if |readings| == 0 then (FSM_RESET, STUCK_RESET)
    else
      var (f, w) := StuckRun(fc, readings[..|readings| - 1], now);
      StuckNext(fc, f, w, readings[|readings| - 1], now)
  }

  function WindowTicks(fc: DetectorCfg): nat { fc.threshold1 % 0x1_0000 }

  /** The condition is only ever evaluated when a window closes, and a window of three or more ticks never
      closes twice in a row. */
  predicate CanPersist(fc: DetectorCfg) { 0 < WindowTicks(fc) && (fc.persistTicks <= 1 || WindowTicks(fc) <= 2) }

  /** Settings under which the detector can report at all: a span is never below a threshold of 0 or less. */
  predicate CanReport(fc: DetectorCfg) { CanPersist(fc) && fc.threshold0 > 0 }

  /** Not reporting; a pending condition means a window has just closed, and an open window is not inverted. */
  predicate Waiting(f: Fsm, w: Stuck) {
    f.state == Normal && f.persist <= 1 && (f.persist == 1 ==> w.ticks <= 1) &&
      (w.ticks > 0 ==> w.valueMin <= w.valueMax)
  }

  function StuckNext(fc: DetectorCfg, f: Fsm, w: Stuck, r: Reading, now: u32): (Fsm, Stuck) {
    (Tick(f, StuckCondition(w, fc, r), fc, fc.persistTicks, now), StuckStep(w, fc, r))
  }

  lemma NeverReports(fc: DetectorCfg, f: Fsm, w: Stuck, r: Reading, now: u32)
    requires !CanReport(fc) && Waiting(f, w)
    ensures var t := StuckNext(fc, f, w, r, now); Waiting(t.0, t.1)
  {
    if WindowTicks(fc) > 0 && StuckCondition(w, fc, r) { assert StuckStep(w, fc, r).ticks <= 1; }
  }

  /** With persist_ticks of 2 or more and a window of 3 or more ticks, with no window, or with a flatness
      threshold of 0 or less, no readings whatever make the detector leave NORMAL. */
  lemma {:induction false} StuckNeverReports(fc: DetectorCfg, readings: seq<Reading>, now: u32)
    requires !CanReport(fc)
    ensures Waiting(StuckRun(fc, readings, now).0, StuckRun(fc, readings, now).1)
  {
    if |readings| > 0 {
      var (f, w) := StuckRun(fc, readings[..|readings| - 1], now);
      StuckNeverReports(fc, readings[..|readings| - 1], now);
      NeverReports(fc, f, w, readings[|readings| - 1], now);
    }
  }

  // The readings that make it report: a flat sensor, and a context that swings by the correlation threshold
  // on every tick.

  function Swing(fc: DetectorCfg): nat { fc.threshold2 % 0x1_0000_0000 }

  /** The context of tick n. */
  function Context(fc: DetectorCfg, n: nat): i32 { if n % 2 == 0 then I32_MIN else I32_MIN + Swing(fc) }

  function Flat(fc: DetectorCfg, n: nat): Reading { Reading(0, true, Context(fc, n), true) }

  ghost function FlatRun(fc: DetectorCfg, n: nat, now: u32): (Fsm, Stuck) {
    if n == 0 then (FSM_RESET, STUCK_RESET)
    else
      var (f, w) := FlatRun(fc, n - 1, now);
      StuckNext(fc, f, w, Flat(fc, n - 1), now)
  }

  ghost function FlatReadings(fc: DetectorCfg, n: nat): seq<Reading> { seq(n, i requires 0 <= i => Flat(fc, i)) }

  lemma {:induction false} FlatRunIs(fc: DetectorCfg, n: nat, now: u32)
    ensures StuckRun(fc, FlatReadings(fc, n), now) == FlatRun(fc, n, now)
  {
    if n > 0 {
      assert FlatReadings(fc, n)[..n - 1] == FlatReadings(fc, n - 1);
      FlatRunIs(fc, n - 1, now);
    }
  }

  /** The tick on which the first window with a swing in it closes. */
  function FirstClose(fc: DetectorCfg): nat {
    if Correlated(fc) && Swing(fc) > 0 then Max(WindowTicks(fc), 2) else WindowTicks(fc)
  }

  /** The first window after n ticks. */
  function Filling(fc: DetectorCfg, n: u16): Stuck {
    if !Correlated(fc) || n == 0 then Stuck(0, 0, 0, 0, n, 0)
    else Stuck(0, 0, I32_MIN, if n == 1 then I32_MIN else I32_MIN + Swing(fc), n, n)
  }

  /** A window that closed with context value c. */
  function Closed(fc: DetectorCfg, c: i32): Stuck {
    if Correlated(fc) then Stuck(0, 0, c, c, 1, 1) else Stuck(0, 0, 0, 0, 1, 0)
  }

  lemma FillStep(fc: DetectorCfg, n: nat, now: u32)
    requires 0 < WindowTicks(fc) && n + 1 < FirstClose(fc)
    ensures StuckNext(fc, FSM_RESET, Filling(fc, n), Flat(fc, n), now) == (FSM_RESET, Filling(fc, n + 1))
  {
  }

  lemma CloseStep(fc: DetectorCfg, f: Fsm, n: nat, now: u32)
    requires fc.threshold0 > 0 && 0 < WindowTicks(fc) && n + 1 == FirstClose(fc)
    ensures StuckNext(fc, f, Filling(fc, n), Flat(fc, n), now) ==
      (Tick(f, true, fc, fc.persistTicks, now), Closed(fc, Context(fc, n)))
  {
  }

  /** A window of one or two ticks closes again on the next tick. */
  lemma CloseAgain(fc: DetectorCfg, f: Fsm, n: nat, now: u32)
    requires fc.threshold0 > 0 && 0 < WindowTicks(fc) <= 2 && n > 0
    ensures StuckNext(fc, f, Closed(fc, Context(fc, n - 1)), Flat(fc, n), now) ==
      (Tick(f, true, fc, fc.persistTicks, now), Closed(fc, Context(fc, n)))
  {
  }

  lemma {:induction false} FlatFills(fc: DetectorCfg, n: nat, now: u32)
    requires 0 < WindowTicks(fc) && n < FirstClose(fc)
    ensures FlatRun(fc, n, now) == (FSM_RESET, Filling(fc, n))
  {
    if n > 0 {
      FlatFills(fc, n - 1, now);
      FillStep(fc, n - 1, now);
    }
  }

  lemma FlatRunNext(fc: DetectorCfg, k: nat, f: Fsm, w: Stuck, now: u32)
    requires FlatRun(fc, k, now) == (f, w)
    ensures FlatRun(fc, k + 1, now) == StuckNext(fc, f, w, Flat(fc, k), now)
  {
  }

  lemma FlatFirstClose(fc: DetectorCfg, now: u32)
    requires CanReport(fc)
    ensures var k := FirstClose(fc);
            k > 0 && FlatRun(fc, k, now) ==
              (Tick(FSM_RESET, true, fc, fc.persistTicks, now), Closed(fc, Context(fc, k - 1)))
  {
    var k := FirstClose(fc) - 1;
    FlatFills(fc, k, now);
    FlatRunNext(fc, k, FSM_RESET, Filling(fc, k), now);
    CloseStep(fc, FSM_RESET, k, now);
  }

  lemma StillPending(fc: DetectorCfg, n: nat, now: u32)
    requires 0 < n < Ones(fc.persistTicks)
    ensures Tick(Fsm(Normal, n - 1, 0, 0), true, fc, fc.persistTicks, now) == Fsm(Normal, n, 0, 0)
  {
  }

  lemma CloseNext(fc: DetectorCfg, n: u16, k: nat, now: u32)
    requires CanReport(fc) && WindowTicks(fc) <= 2 && k > 0
    requires FlatRun(fc, k, now) == (Fsm(Normal, n, 0, 0), Closed(fc, Context(fc, k - 1)))
    ensures FlatRun(fc, k + 1, now) ==
      (Tick(Fsm(Normal, n, 0, 0), true, fc, fc.persistTicks, now), Closed(fc, Context(fc, k)))
  {
    FlatRunNext(fc, k, Fsm(Normal, n, 0, 0), Closed(fc, Context(fc, k - 1)), now);
    CloseAgain(fc, Fsm(Normal, n, 0, 0), k, now);
  }

  /** The n-th tick in a row that closes a window. */
  ghost predicate ClosesAt(fc: DetectorCfg, n: nat, now: u32)
    requires 0 < n <= Ones(fc.persistTicks)
  {
    var k := FirstClose(fc) - 1 + n;
    k > 0 && FlatRun(fc, k, now) ==
      (Tick(Fsm(Normal, n - 1, 0, 0), true, fc, fc.persistTicks, now), Closed(fc, Context(fc, k - 1)))
  }

  lemma ClosesNext(fc: DetectorCfg, n: nat, now: u32)
    requires CanReport(fc) && 0 < n < Ones(fc.persistTicks) && ClosesAt(fc, n, now)
    ensures ClosesAt(fc, n + 1, now)
  {
    StillPending(fc, n, now);
    CloseNext(fc, n, FirstClose(fc) - 1 + n, now);
  }

  lemma {:induction false} FlatCloses(fc: DetectorCfg, n: nat, now: u32)
    requires CanReport(fc) && 0 < n <= Ones(fc.persistTicks)
    ensures ClosesAt(fc, n, now)
  {
    if n == 1 {
      FlatFirstClose(fc, now);
    } else {
      FlatCloses(fc, n - 1, now);
      ClosesNext(fc, n - 1, now);
    }
  }

  lemma FlatReports(fc: DetectorCfg, now: u32)
    requires CanReport(fc)
    ensures FlatRun(fc, FirstClose(fc) - 1 + Ones(fc.persistTicks), now).0.Active()
  {
    FlatCloses(fc, Ones(fc.persistTicks), now);
  }

  /** For every configuration: some readings make the detector report if and only if its window, its
      persistence and its flatness threshold allow it. */
  lemma StuckReportsIff(fc: DetectorCfg, now: u32)
    ensures (exists readings :: StuckRun(fc, readings, now).0.Active()) <==> CanReport(fc)
  {
    if CanReport(fc) {
      var k := FirstClose(fc) - 1 + Ones(fc.persistTicks);
      FlatReports(fc, now);
      FlatRunIs(fc, k, now);
      assert StuckRun(fc, FlatReadings(fc, k), now).0.Active();
    } else {
      forall readings ensures !StuckRun(fc, readings, now).0.Active() { StuckNeverReports(fc, readings, now); }
    }
  }
}
