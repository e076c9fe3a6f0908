/** The debouncing state machine shared by the four fault detectors (core/thermal_fault.c:1-86),
    explicit clearing and event emission (core/thermal_core.c:985-1005, 2397-2473). */
module Fault {
  import opened CInt

  const SEVERITY_CRITICAL: u8 := 2

  const ACTION_USE_ZONE_FALLBACK: u8 := 2
  const ACTION_FORCE_UNTIL_RECOVERED: u8 := 3
  const ACTION_FORCE_AND_LATCH: u8 := 4
  const ACTION_REQUEST_SHUTDOWN: u8 := 5

  datatype DetectorCfg = DetectorCfg(enabled: bool, severity: u8, action: u8, persistTicks: u16, recoveryTicks: u16,
                                     threshold0: i32, threshold1: i32, threshold2: i32, contextId: u16)
  {
    predicate Latching() { action == ACTION_FORCE_AND_LATCH || action == ACTION_REQUEST_SHUTDOWN }
    predicate ForcesMax() { action == ACTION_FORCE_UNTIL_RECOVERED || action == ACTION_FORCE_AND_LATCH }
  }

  datatype FaultState = Normal | Degraded | Critical | Latched | Recovering

  datatype Fsm = Fsm(state: FaultState, persist: u16, recovery: u16, enteredMs: u32) {
    predicate Active() { state != Normal }
  }

  const FSM_RESET: Fsm := Fsm(Normal, 0, 0, 0)

  function ActionToState(fc: DetectorCfg): FaultState {
    if fc.Latching() then Latched
    else if fc.severity == SEVERITY_CRITICAL then Critical
    else Degraded
  }

  /** 16-bit increment, wrap-around included. */
  function Inc16(v: u16): u16 { (v + 1) % 0x1_0000 }

  function Tick(f: Fsm, condition: bool, fc: DetectorCfg, persistTicks: u16, now: u32): Fsm {
    match f.state
    case Normal =>
      if !condition then f.(persist := 0)
      else if Inc16(f.persist) >= persistTicks then Fsm(ActionToState(fc), Inc16(f.persist), 0, now)
      else f.(persist := Inc16(f.persist))
    case Degraded | Critical =>
      if condition then f.(recovery := 0) else Fsm(Recovering, f.persist, 0, now)
    case Recovering =>
      if condition then Fsm(ActionToState(fc), 0, 0, now)
      else if Inc16(f.recovery) >= fc.recoveryTicks then Fsm(Normal, 0, 0, now)
      else f.(recovery := Inc16(f.recovery))
    case Latched =>
      if condition then f.(recovery := 0)
      else if f.recovery < 0xFFFF then f.(recovery := Inc16(f.recovery))
      else f
  }

  class FaultFsm {
    var state: FaultState
    var persistCount: u16
    var recoveryCount: u16
    var enteredMs: u32

    function View(): Fsm reads this { Fsm(state, persistCount, recoveryCount, enteredMs) }

    constructor ()
      ensures View() == FSM_RESET
    {
      state, persistCount, recoveryCount, enteredMs := Normal, 0, 0, 0;
    }

    method FsmTick(condition: bool, fc: DetectorCfg, persistTicks: u16, now: u32)
      modifies this
      ensures View() == Tick(old(View()), condition, fc, persistTicks, now)
    {
      match state
      case Normal =>
        if condition {
          persistCount := Inc16(persistCount);
          if persistCount >= persistTicks {
            state := ActionToState(fc);
            enteredMs, recoveryCount := now, 0;
          }
        } else {
          persistCount := 0;
        }
      case Degraded | Critical =>
        if condition {
          recoveryCount := 0;
        } else {
          state := Recovering;
          recoveryCount, enteredMs := 0, now;
        }
      case Recovering =>
        if condition {
          state := ActionToState(fc);
          persistCount, recoveryCount, enteredMs := 0, 0, now;
        } else {
          recoveryCount := Inc16(recoveryCount);
          if recoveryCount >= fc.recoveryTicks {
            state := Normal;
            persistCount, recoveryCount, enteredMs := 0, 0, now;
          }
        }
      case Latched =>
        if condition {
          recoveryCount := 0;
        } else if recoveryCount < 0xFFFF {
          recoveryCount := Inc16(recoveryCount);
        }
    }
  }

  // ----- Events and explicit clearing

  datatype EventCode = FaultEnter | FaultRecovering | FaultClear

  /** The event of a state change; moves between active states are silent. */
  function Transition(before: FaultState, after: FaultState): seq<EventCode> {
    if before == after then []
    else if after == Recovering then [FaultRecovering]
    else if after == Normal then [FaultClear]
    else if before == Normal then [FaultEnter]
    else []
  }

  predicate ClearAllowed(f: Fsm, fc: DetectorCfg) { f.state == Latched && f.recovery >= fc.recoveryTicks }

  datatype ClearOutcome = AlreadyNormal | Cleared | RejectedSafety

  function ClearFault(f: Fsm, fc: DetectorCfg): (Fsm, ClearOutcome) {
    if f.state == Normal then (f, AlreadyNormal)
    else if ClearAllowed(f, fc) then (FSM_RESET, Cleared)
    else (f, RejectedSafety)
  }

  // ----- Whole runs of one detector: ticks interleaved with clear commands

  datatype Op = Sense(condition: bool, now: u32) | Clear

  datatype Detector = Detector(fsm: Fsm, log: seq<EventCode>, clears: nat)

  function Apply(d: Detector, fc: DetectorCfg, persistTicks: u16, op: Op): Detector {
    match op
    case Sense(condition, now) =>
      var f := Tick(d.fsm, condition, fc, persistTicks, now);
      Detector(f, d.log + Transition(d.fsm.state, f.state), d.clears)
    case Clear =>
      var (f, outcome) := ClearFault(d.fsm, fc);
      Detector(f, d.log, if outcome == Cleared then d.clears + 1 else d.clears)
  }

  ghost function Run(fc: DetectorCfg, persistTicks: u16, ops: seq<Op>): Detector {
    if |ops| == 0 then Detector(FSM_RESET, [], 0)
    else Apply(Run(fc, persistTicks, ops[..|ops| - 1]), fc, persistTicks, ops[|ops| - 1])
  }

  /** The conditions sensed, clear commands left out. */
  ghost function History(ops: seq<Op>): seq<bool> {
    if |ops| == 0 then []
    else
      var h := History(ops[..|ops| - 1]);
      if ops[|ops| - 1].Sense? then h + [ops[|ops| - 1].condition] else h
  }

  /** Length of the run of v that ends the history. */
  ghost function Trailing(h: seq<bool>, v: bool): nat {
    if |h| == 0 || h[|h| - 1] != v then 0 else 1 + Trailing(h[..|h| - 1], v)
  }

  ghost function Ones(persistTicks: u16): nat { if persistTicks == 0 then 1 else persistTicks }

  /** The invariant tying counters to the sensed history. */
  ghost predicate Tied(f: Fsm, fc: DetectorCfg, persistTicks: u16, h: seq<bool>) {
    match f.state
    case Normal => f.persist < Ones(persistTicks) && (!fc.Latching() ==> f.persist == Trailing(h, true))
    case Degraded | Critical => !fc.Latching() && Trailing(h, false) == 0 && f.recovery == 0
    case Recovering =>
      !fc.Latching() && Trailing(h, false) == f.recovery + 1 && f.recovery < Ones(fc.recoveryTicks)
    case Latched => fc.Latching() && f.recovery == Min(0xFFFF, Trailing(h, false))
  }

  lemma TrailingSnoc(h: seq<bool>, c: bool, v: bool)
    ensures Trailing(h + [c], v) == if c == v then Trailing(h, v) + 1 else 0
  {
    assert (h + [c])[..|h|] == h;
  }

  lemma TickTied(f: Fsm, condition: bool, fc: DetectorCfg, persistTicks: u16, now: u32, h: seq<bool>)
    requires Tied(f, fc, persistTicks, h)
    ensures Tied(Tick(f, condition, fc, persistTicks, now), fc, persistTicks, h + [condition])
  {
    TrailingSnoc(h, condition, true);
    TrailingSnoc(h, condition, false);
  }

  lemma {:induction false} RunTied(fc: DetectorCfg, persistTicks: u16, ops: seq<Op>)
    ensures Tied(Run(fc, persistTicks, ops).fsm, fc, persistTicks, History(ops))
  {
    if |ops| > 0 {
      var k := |ops| - 1;
      RunTied(fc, persistTicks, ops[..k]);
      if ops[k].Sense? {
        TickTied(Run(fc, persistTicks, ops[..k]).fsm, ops[k].condition, fc, persistTicks, ops[k].now,
                 History(ops[..k]));
      }
    }
  }

  /** No 16-bit counter of the state machine ever wraps. */
  lemma NoCounterWraps(fc: DetectorCfg, persistTicks: u16, ops: seq<Op>)
    ensures var f := Run(fc, persistTicks, ops).fsm;
            (f.state == Normal ==> Inc16(f.persist) == f.persist + 1) &&
            (f.state == Recovering ==> Inc16(f.recovery) == f.recovery + 1)
  {
    RunTied(fc, persistTicks, ops);
  }

  /** A run of n entries equal to v ends at position p of the history. */
  ghost predicate RunEndsAt(h: seq<bool>, v: bool, n: nat, p: nat) {
    n <= p <= |h| && forall k :: p - n <= k < p ==> h[k] == v
  }

  /** The latest run of `on` active ticks is more recent than the latest run of `off` inactive ticks. */
  ghost predicate LatestIsActive(h: seq<bool>, on: nat, off: nat) {
    exists p: nat :: RunEndsAt(h, true, on, p) && forall q: nat :: p < q <= |h| ==> !RunEndsAt(h, false, off, q)
  }

  lemma {:induction false} TrailingIsRun(h: seq<bool>, v: bool, n: nat)
    ensures Trailing(h, v) >= n <==> RunEndsAt(h, v, n, |h|)
  {
    if n > 0 && |h| > 0 && h[|h| - 1] == v {
      TrailingIsRun(h[..|h| - 1], v, n - 1);
      assert RunEndsAt(h, v, n, |h|) <==> RunEndsAt(h[..|h| - 1], v, n - 1, |h| - 1);
    }
  }

  lemma LatestStep(h: seq<bool>, v: bool, on: nat, off: nat)
    requires on > 0 && off > 0
    ensures LatestIsActive(h + [v], on, off) <==>
      Trailing(h + [v], true) >= on || (LatestIsActive(h, on, off) && Trailing(h + [v], false) < off)
  {
    var g := h + [v];
    TrailingIsRun(g, true, on);
    TrailingIsRun(g, false, off);
    assert forall p: nat :: p <= |h| ==> (RunEndsAt(g, true, on, p) <==> RunEndsAt(h, true, on, p));
    assert forall q: nat :: q <= |h| ==> (RunEndsAt(g, false, off, q) <==> RunEndsAt(h, false, off, q));
    if LatestIsActive(h, on, off) && Trailing(g, false) < off {
      var p: nat :| RunEndsAt(h, true, on, p) && forall q: nat :: p < q <= |h| ==> !RunEndsAt(h, false, off, q);
      assert RunEndsAt(g, true, on, p);
    }
    if LatestIsActive(g, on, off) && !RunEndsAt(g, true, on, |g|) {
      var p: nat :| RunEndsAt(g, true, on, p) && forall q: nat :: p < q <= |g| ==> !RunEndsAt(g, false, off, q);
      assert RunEndsAt(h, true, on, p);
    }
  }

  /** A non-latching detector is a two-threshold debounce of the sensed condition, whatever clear
      commands are interleaved (they are all refused or without effect). */
  lemma {:induction false} NonLatchingIsDebounce(fc: DetectorCfg, persistTicks: u16, ops: seq<Op>)
    requires !fc.Latching()
    ensures Run(fc, persistTicks, ops).fsm.Active() <==>
      LatestIsActive(History(ops), Ones(persistTicks), Ones(fc.recoveryTicks) + 1)
    ensures Run(fc, persistTicks, ops).clears == 0
  {
    if |ops| > 0 {
      var k := |ops| - 1;
      NonLatchingIsDebounce(fc, persistTicks, ops[..k]);
      RunTied(fc, persistTicks, ops[..k]);
      if ops[k].Sense? {
        var f, h := Run(fc, persistTicks, ops[..k]).fsm, History(ops[..k]);
        LatestStep(h, ops[k].condition, Ones(persistTicks), Ones(fc.recoveryTicks) + 1);
        TickDebounces(f, ops[k].condition, fc, persistTicks, ops[k].now, h);
      }
    }
  }

  /** One tick of a non-latching detector, on trailing runs. */
  lemma TickDebounces(f: Fsm, condition: bool, fc: DetectorCfg, persistTicks: u16, now: u32, h: seq<bool>)
    requires !fc.Latching() && Tied(f, fc, persistTicks, h)
    ensures Tick(f, condition, fc, persistTicks, now).Active() <==>
      Trailing(h + [condition], true) >= Ones(persistTicks) ||
      (f.Active() && Trailing(h + [condition], false) < Ones(fc.recoveryTicks) + 1)
  {
    TrailingSnoc(h, condition, true);
    TrailingSnoc(h, condition, false);
  }

  /** A state is stamped with the time it was entered. */
  lemma EnteredLaw(f: Fsm, condition: bool, fc: DetectorCfg, persistTicks: u16, now: u32)
    ensures var t := Tick(f, condition, fc, persistTicks, now);
            t.enteredMs == if t.state == f.state then f.enteredMs else now
  {
  }

  /** A tick logs ENTER on leaving NORMAL, RECOVERING on starting to recover, CLEAR on returning to NORMAL, and
      nothing else; a clear command logs nothing. */
  lemma EventLaw(d: Detector, fc: DetectorCfg, persistTicks: u16, condition: bool, now: u32)
    ensures var t := Apply(d, fc, persistTicks, Sense(condition, now));
            t.log == d.log + (if d.fsm.state == Normal && t.fsm.state != Normal then [FaultEnter]
                              else if d.fsm.state != Recovering && t.fsm.state == Recovering then [FaultRecovering]
                              else if d.fsm.state != Normal && t.fsm.state == Normal then [FaultClear] else [])
    ensures Apply(d, fc, persistTicks, Clear).log == d.log
  {
  }

  /** The fault state of an active detector is the one its action and severity name, or RECOVERING; a latching one
      never recovers by itself. */
  lemma {:induction false} StateIsConfigured(fc: DetectorCfg, persistTicks: u16, ops: seq<Op>)
    ensures var st := Run(fc, persistTicks, ops).fsm.state;
            st == Normal ||
            (if fc.action == 4 || fc.action == 5 then st == Latched
             else st == Recovering || st == if fc.severity == 2 then Critical else Degraded)
  {
    if |ops| > 0 { StateIsConfigured(fc, persistTicks, ops[..|ops| - 1]); }
  }

  /** A latched detector leaves LATCHED only by a clear command that comes after at least
      recoveryTicks trailing inactive ticks. */
  lemma LatchedUntilQuietClear(fc: DetectorCfg, persistTicks: u16, ops: seq<Op>, op: Op)
    requires Run(fc, persistTicks, ops).fsm.state == Latched
    ensures var f := Run(fc, persistTicks, ops + [op]).fsm;
            f.state == (if op == Clear && Trailing(History(ops), false) >= fc.recoveryTicks then Normal else Latched)
  {
    RunTied(fc, persistTicks, ops);
    assert (ops + [op])[..|ops|] == ops;
  }

  ghost function CountOf(log: seq<EventCode>, e: EventCode): nat { multiset(log)[e] }

  lemma CountAppend(log: seq<EventCode>, more: seq<EventCode>, e: EventCode)
    requires |more| <= 1
    ensures CountOf(log + more, e) == CountOf(log, e) + if |more| == 1 && more[0] == e then 1 else 0
  {
  }

  /** One op keeps the balance. */
  lemma ApplyBalances(d: Detector, fc: DetectorCfg, persistTicks: u16, op: Op)
    requires Balanced(d)
    ensures Balanced(Apply(d, fc, persistTicks, op))
  {
    var t := Apply(d, fc, persistTicks, op);
    var more := Transition(d.fsm.state, t.fsm.state);
    CountAppend(d.log, more, FaultEnter);
    CountAppend(d.log, more, FaultClear);
  }

  ghost predicate Balanced(d: Detector) {
    CountOf(d.log, FaultEnter) == CountOf(d.log, FaultClear) + d.clears + if d.fsm.Active() then 1 else 0
  }

  /** ENTER events = CLEAR events + accepted clears + (1 if the detector is active). */
  lemma {:induction false} EventBalance(fc: DetectorCfg, persistTicks: u16, ops: seq<Op>)
    ensures Balanced(Run(fc, persistTicks, ops))
  {
    if |ops| > 0 {
      EventBalance(fc, persistTicks, ops[..|ops| - 1]);
      ApplyBalances(Run(fc, persistTicks, ops[..|ops| - 1]), fc, persistTicks, ops[|ops| - 1]);
    }
  }

  /** What a detector guarantees over any run of sensed conditions and clear commands: it has logged as
      many ENTER events as CLEAR events, accepted clears and one if it is active; and unless its action
      latches, it is the two-threshold debounce of what it sensed. */
  ghost predicate Lawful(fc: DetectorCfg, persistTicks: u16, ops: seq<Op>, d: Detector) {
    Balanced(d) &&
    (!fc.Latching() ==>
      d.clears == 0 && (d.fsm.Active()
                        <==> LatestIsActive(History(ops), Ones(persistTicks), Ones(fc.recoveryTicks) + 1)))
  }

  lemma RunIsLawful(fc: DetectorCfg, persistTicks: u16, ops: seq<Op>)
    ensures Lawful(fc, persistTicks, ops, Run(fc, persistTicks, ops))
  {
    EventBalance(fc, persistTicks, ops);
    if !fc.Latching() { NonLatchingIsDebounce(fc, persistTicks, ops); }
  }
}
