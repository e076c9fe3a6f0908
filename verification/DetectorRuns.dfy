/** Whole runs of the regulator seen by one fault detector: every detector of the core is the shared state
    machine run over the conditions it sensed and the clear commands addressed to it, so the debounce, latch
    and event-count theorems hold in the core (core/thermal_core.c:1585-1646, 1790-1960, 2342-2473). */
module DetectorRuns {
  import opened CInt
  import opened Config
  import opened Detectors
  import opened Fault
  import opened Regulator
  import opened Invariants
  import Runaway
  import Wire

  /** The detectors of the core: one per actuator, sensor, zone and context. */
  datatype DetectorId = StallOf(a: nat) | StuckOf(i: nat) | RunawayOf(z: nat) | StaleOf(c: nat)

  predicate Present(cfg: Config, d: DetectorId) {
    match d
    case StallOf(a) => a < |cfg.actuators|
    case StuckOf(i) => i < |cfg.sensors|
    case RunawayOf(z) => z < |cfg.zones|
    case StaleOf(c) => c < |cfg.contexts|
  }

  function CfgOf(cfg: Config, d: DetectorId): DetectorCfg {
    match d
    case StallOf(_) => cfg.stall
    case StuckOf(_) => cfg.stuck
    case RunawayOf(_) => cfg.runaway
    case StaleOf(_) => cfg.stale
  }

  /** Persistence the state machine is given; the runaway window does its own. */
  function PersistOf(cfg: Config, d: DetectorId): u16 { if d.RunawayOf? then 1 else CfgOf(cfg, d).persistTicks }

  function DetectorOf(cfg: Config, s: Core, d: DetectorId): Detector
    requires Sized(cfg, s) && Present(cfg, d)
  {
    match d
    case StallOf(a) => s.stall[a].det
    case StuckOf(i) => s.stuck[i].det
    case RunawayOf(z) => s.runaway[z].det
    case StaleOf(c) => s.stale[c]
  }

  /** The condition detector d senses on a tick. */
  function SensedBy(cfg: Config, s: Core, snap: Snapshot, d: DetectorId): Sensed
    requires Sized(cfg, s) && CurvesAscending(s) && Present(cfg, d)
  {
    match d
    case StallOf(a) => StallSensed(cfg, s.stall[a], a, Capped(cfg, Zones1(cfg, s, snap), Mod1(cfg, s, snap), a), snap)
    case StuckOf(i) => StuckSensed(cfg.stuck, s.stuck[i], StuckReading(cfg, s, snap, i))
    case RunawayOf(z) =>
      RunawaySensed(cfg.runaway, s.runaway[z].ring, RunawaySample(cfg, Zones1(cfg, s, snap), Mod1(cfg, s, snap), z))
    case StaleOf(c) => StaleSensed(cfg.stale, Contexts1(cfg, s, snap)[c], cfg.contexts[c], snap.now)
  }

  /** A clear command names detector d. */
  predicate Addresses(cfg: Config, cmd: Wire.Command, d: DetectorId) {
    cmd.ClearFault? &&
    match d
    case StallOf(a) => cmd.faultType == FAULT_STALL && SlotOf(cfg.ActuatorIds(), cmd.target) == a
    case StuckOf(i) => cmd.faultType == FAULT_STUCK && SlotOf(cfg.SensorIds(), cmd.target) == i
    case RunawayOf(z) => cmd.faultType == FAULT_RUNAWAY && cmd.target == z
    case StaleOf(c) => cmd.faultType == FAULT_STALE && SlotOf(cfg.ContextIds(), cmd.target) == c
  }

  /** What an op means to detector d: at most one sensed condition or one clear. */
  function Seen(cfg: Config, s: Core, op: Invariants.Op, d: DetectorId): seq<Fault.Op>
    requires Sized(cfg, s) && CurvesAscending(s) && Present(cfg, d)
  {
    match op
    case Step(snap) =>
      var sensed := SensedBy(cfg, s, snap, d);
      if Wellformed(cfg, snap) && sensed.Condition? then [Sense(sensed.active, snap.now)] else []
    case Order(cmd) => if Addresses(cfg, cmd, d) then [Clear] else []
  }

  ghost function SeenOver(cfg: Config, ops: seq<Invariants.Op>, d: DetectorId): seq<Fault.Op>
    requires ValidConfig(cfg) && Present(cfg, d)
  {
    if |ops| == 0 then []
    else
      var k := |ops| - 1;
      SeenOver(cfg, ops[..k], d) + Seen(cfg, Invariants.Run(cfg, ops[..k]), ops[k], d)
  }

  ghost function DetectorAfter(cfg: Config, ops: seq<Invariants.Op>, d: DetectorId): Detector
    requires ValidConfig(cfg) && Present(cfg, d)
  {
    DetectorOf(cfg, Invariants.Run(cfg, ops), d)
  }

  function After(dt: Detector, fc: DetectorCfg, persist: u16, seen: seq<Fault.Op>): Detector {
    if |seen| == 0 then dt else Fault.Apply(dt, fc, persist, seen[0])
  }

  lemma StallTicks(cfg: Config, s: Core, snap: Snapshot, a: nat)
    requires Sized(cfg, s) && CurvesAscending(s) && a < |cfg.actuators| && Wellformed(cfg, snap)
    ensures Stall1(cfg, s, snap)[a].det ==
      After(DetectorOf(cfg, s, StallOf(a)), cfg.stall, PersistOf(cfg, StallOf(a)), Seen(cfg, s, Step(snap), StallOf(a)))
  {
  }

  lemma StuckTicks(cfg: Config, s: Core, snap: Snapshot, i: nat)
    requires Sized(cfg, s) && CurvesAscending(s) && i < |cfg.sensors| && Wellformed(cfg, snap)
    ensures Stuck1(cfg, s, snap)[i].det ==
      After(DetectorOf(cfg, s, StuckOf(i)), cfg.stuck, PersistOf(cfg, StuckOf(i)), Seen(cfg, s, Step(snap), StuckOf(i)))
  {
  }

  lemma RunawayTicks(cfg: Config, s: Core, snap: Snapshot, z: nat)
    requires Sized(cfg, s) && CurvesAscending(s) && z < |cfg.zones| && Wellformed(cfg, snap)
    ensures Runaway1(cfg, s, snap)[z].det ==
      After(DetectorOf(cfg, s, RunawayOf(z)), cfg.runaway, PersistOf(cfg, RunawayOf(z)),
            Seen(cfg, s, Step(snap), RunawayOf(z)))
  {
  }

  lemma StaleTicks(cfg: Config, s: Core, snap: Snapshot, c: nat)
    requires Sized(cfg, s) && CurvesAscending(s) && c < |cfg.contexts| && Wellformed(cfg, snap)
    ensures Stale1(cfg, s, snap)[c] ==
      After(DetectorOf(cfg, s, StaleOf(c)), cfg.stale, PersistOf(cfg, StaleOf(c)), Seen(cfg, s, Step(snap), StaleOf(c)))
  {
  }

  lemma RunawayTickKeepsRing(cfg: Config, s: Core, snap: Snapshot, z: nat)
    requires Sized(cfg, s) && CurvesAscending(s) && z < |cfg.zones|
    ensures Runaway.Valid(Runaway1(cfg, s, snap)[z].ring)
    ensures Runaway1(cfg, s, snap)[z].ring ==
      RunawayPush(cfg.runaway, s.runaway[z].ring, RunawaySample(cfg, Zones1(cfg, s, snap), Mod1(cfg, s, snap), z))
  {
    var w := Runaway.Width(cfg.runaway);
    if w > 0 { Runaway.NextSlot(0, w); }
  }

  lemma TickKeepsSize(cfg: Config, s: Core, snap: Snapshot)
    requires Sized(cfg, s) && CurvesAscending(s)
    ensures Sized(cfg, Regulator.Tick(cfg, s, snap))
  {
    forall z | 0 <= z < |cfg.zones| ensures Runaway.Valid(Runaway1(cfg, s, snap)[z].ring) {
      RunawayTickKeepsRing(cfg, s, snap, z);
    }
  }

  lemma TickStepsDetector(cfg: Config, s: Core, snap: Snapshot, d: DetectorId)
    requires Sized(cfg, s) && CurvesAscending(s) && Present(cfg, d) && Sized(cfg, Regulator.Tick(cfg, s, snap))
    ensures DetectorOf(cfg, Regulator.Tick(cfg, s, snap), d) ==
      After(DetectorOf(cfg, s, d), CfgOf(cfg, d), PersistOf(cfg, d), Seen(cfg, s, Step(snap), d))
  {
    if Wellformed(cfg, snap) {
      match d
      case StallOf(a) => StallTicks(cfg, s, snap, a);
      case StuckOf(i) => StuckTicks(cfg, s, snap, i);
      case RunawayOf(z) => RunawayTicks(cfg, s, snap, z);
      case StaleOf(c) => StaleTicks(cfg, s, snap, c);
    }
  }

  lemma CommandKeepsSize(cfg: Config, s: Core, cmd: Wire.Command)
    requires Sized(cfg, s)
    ensures Sized(cfg, ApplyCommand(cfg, s, cmd).0)
  {
  }

  lemma CommandStepsDetector(cfg: Config, s: Core, cmd: Wire.Command, d: DetectorId)
    requires Sized(cfg, s) && CurvesAscending(s) && Present(cfg, d) && Sized(cfg, ApplyCommand(cfg, s, cmd).0)
    ensures DetectorOf(cfg, ApplyCommand(cfg, s, cmd).0, d) ==
      After(DetectorOf(cfg, s, d), CfgOf(cfg, d), PersistOf(cfg, d), Seen(cfg, s, Order(cmd), d))
  {
  }

  /** One op, as a detector experiences it. */
  lemma OpStepsDetector(cfg: Config, s: Core, op: Invariants.Op, d: DetectorId)
    requires Sized(cfg, s) && CurvesAscending(s) && Present(cfg, d)
    ensures Sized(cfg, Invariants.Apply(cfg, s, op))
    ensures DetectorOf(cfg, Invariants.Apply(cfg, s, op), d) ==
      After(DetectorOf(cfg, s, d), CfgOf(cfg, d), PersistOf(cfg, d), Seen(cfg, s, op, d))
  {
    match op {
      case Step(snap) =>
        TickKeepsSize(cfg, s, snap);
        TickStepsDetector(cfg, s, snap, d);
      case Order(cmd) =>
        CommandKeepsSize(cfg, s, cmd);
        CommandStepsDetector(cfg, s, cmd, d);
    }
  }

  lemma RunSnoc(fc: DetectorCfg, persist: u16, past: seq<Fault.Op>, seen: seq<Fault.Op>)
    requires |seen| <= 1
    ensures Fault.Run(fc, persist, past + seen) == After(Fault.Run(fc, persist, past), fc, persist, seen)
  {
    if |seen| == 1 { assert (past + seen)[..|past|] == past; } else { assert past + seen == past; }
  }

  lemma DetectorNext(cfg: Config, s: Core, op: Invariants.Op, d: DetectorId, past: seq<Fault.Op>)
    requires Sized(cfg, s) && CurvesAscending(s) && Present(cfg, d)
    requires DetectorOf(cfg, s, d) == Fault.Run(CfgOf(cfg, d), PersistOf(cfg, d), past)
    ensures Sized(cfg, Invariants.Apply(cfg, s, op))
    ensures DetectorOf(cfg, Invariants.Apply(cfg, s, op), d) ==
      Fault.Run(CfgOf(cfg, d), PersistOf(cfg, d), past + Seen(cfg, s, op, d))
  {
    OpStepsDetector(cfg, s, op, d);
    RunSnoc(CfgOf(cfg, d), PersistOf(cfg, d), past, Seen(cfg, s, op, d));
  }

  /** Every detector of any run is the shared state machine run over what it saw. */
  lemma {:induction false} DetectorRefines(cfg: Config, ops: seq<Invariants.Op>, d: DetectorId)
    requires ValidConfig(cfg) && Present(cfg, d)
    ensures DetectorAfter(cfg, ops, d) == Fault.Run(CfgOf(cfg, d), PersistOf(cfg, d), SeenOver(cfg, ops, d))
  {
    if |ops| > 0 {
      var k := |ops| - 1;
      DetectorRefines(cfg, ops[..k], d);
      DetectorNext(cfg, Invariants.Run(cfg, ops[..k]), ops[k], d, SeenOver(cfg, ops[..k], d));
    }
  }

  /** In any interleaving of ticks and commands every detector of the core logs one ENTER event for each
      CLEAR event, accepted clear, and active fault; and if its action does not latch, it is active exactly
      when the latest run of max(1, persist) active ticks it sensed is more recent than the latest run of
      max(1, recovery) + 1 inactive ones. */
  lemma CoreIsLawful(cfg: Config, ops: seq<Invariants.Op>, d: DetectorId)
    requires ValidConfig(cfg) && Present(cfg, d)
    ensures Lawful(CfgOf(cfg, d), PersistOf(cfg, d), SeenOver(cfg, ops, d), DetectorAfter(cfg, ops, d))
  {
    DetectorRefines(cfg, ops, d);
    RunIsLawful(CfgOf(cfg, d), PersistOf(cfg, d), SeenOver(cfg, ops, d));
  }

  /** After one more op, a detector is the state machine run over what it saw then and before. */
  lemma SeenNext(cfg: Config, ops: seq<Invariants.Op>, op: Invariants.Op, d: DetectorId)
    requires ValidConfig(cfg) && Present(cfg, d)
    ensures DetectorAfter(cfg, ops + [op], d) == Fault.Run(CfgOf(cfg, d), PersistOf(cfg, d),
              SeenOver(cfg, ops, d) + Seen(cfg, Invariants.Run(cfg, ops), op, d))
  {
    assert (ops + [op])[..|ops|] == ops;
    DetectorRefines(cfg, ops + [op], d);
  }

  /** A latched detector of the core leaves LATCHED only on a clear command that names it and comes after
      at least recoveryTicks trailing inactive ticks. */
  lemma CoreLatches(cfg: Config, ops: seq<Invariants.Op>, op: Invariants.Op, d: DetectorId)
    requires ValidConfig(cfg) && Present(cfg, d) && DetectorAfter(cfg, ops, d).fsm.state == Latched
    ensures DetectorAfter(cfg, ops + [op], d).fsm.state ==
      if op.Order? && Addresses(cfg, op.cmd, d) &&
        Trailing(History(SeenOver(cfg, ops, d)), false) >= CfgOf(cfg, d).recoveryTicks
      then Normal else Latched
  {
    DetectorRefines(cfg, ops, d);
    SeenNext(cfg, ops, op, d);
    LatchedSeen(CfgOf(cfg, d), PersistOf(cfg, d), SeenOver(cfg, ops, d), Seen(cfg, Invariants.Run(cfg, ops), op, d));
  }

  lemma LatchedSeen(fc: DetectorCfg, persist: u16, past: seq<Fault.Op>, seen: seq<Fault.Op>)
    requires |seen| <= 1 && Fault.Run(fc, persist, past).fsm.state == Latched
    ensures Fault.Run(fc, persist, past + seen).fsm.state ==
      if seen == [Clear] && Trailing(History(past), false) >= fc.recoveryTicks then Normal else Latched
  {
    if |seen| == 1 {
      assert seen == [seen[0]];
      LatchedUntilQuietClear(fc, persist, past, seen[0]);
    } else {
      assert past + seen == past;
    }
  }

  // ----- The runaway window

  /** The samples zone z pushed since the run began or its detector was last cleared. */
  ghost function Pushed(cfg: Config, ops: seq<Invariants.Op>, z: nat): seq<Runaway.Sample>
    requires ValidConfig(cfg) && z < |cfg.zones|
  {
    if |ops| == 0 then []
    else
      var k := |ops| - 1;
      PushedBy(cfg, Invariants.Run(cfg, ops[..k]), ops[k], z, Pushed(cfg, ops[..k], z))
  }

  /** The samples pushed after one more op, h before it. */
  ghost function PushedBy(cfg: Config, s: Core, op: Invariants.Op, z: nat, h: seq<Runaway.Sample>): seq<Runaway.Sample>
    requires Sized(cfg, s) && CurvesAscending(s) && z < |cfg.zones|
  {
    match op
    case Step(snap) =>
      if Wellformed(cfg, snap) then h + [RunawaySample(cfg, Zones1(cfg, s, snap), Mod1(cfg, s, snap), z)] else h
    case Order(cmd) =>
      if Addresses(cfg, cmd, RunawayOf(z)) && Accepts(s.runaway[z].det, cfg.runaway) then [] else h
  }

  lemma CommandStepsRing(cfg: Config, s: Core, cmd: Wire.Command, z: nat)
    requires Sized(cfg, s) && z < |cfg.zones| && Sized(cfg, ApplyCommand(cfg, s, cmd).0)
    ensures ApplyCommand(cfg, s, cmd).0.runaway[z].ring ==
      if Addresses(cfg, cmd, RunawayOf(z)) && Accepts(s.runaway[z].det, cfg.runaway) then Runaway.Empty()
      else s.runaway[z].ring
  {
  }

  /** One op, as the window of zone z experiences it. */
  lemma OpStepsRing(cfg: Config, s: Core, op: Invariants.Op, z: nat)
    requires Sized(cfg, s) && CurvesAscending(s) && z < |cfg.zones|
    ensures Sized(cfg, Invariants.Apply(cfg, s, op))
    ensures Invariants.Apply(cfg, s, op).runaway[z].ring ==
      match op
      case Step(snap) =>
        if Wellformed(cfg, snap)
        then RunawayPush(cfg.runaway, s.runaway[z].ring,
                         RunawaySample(cfg, Zones1(cfg, s, snap), Mod1(cfg, s, snap), z))
        else s.runaway[z].ring
      case Order(cmd) =>
        if Addresses(cfg, cmd, RunawayOf(z)) && Accepts(s.runaway[z].det, cfg.runaway) then Runaway.Empty()
        else s.runaway[z].ring
  {
    match op {
      case Step(snap) =>
        TickKeepsSize(cfg, s, snap);
        RunawayTickKeepsRing(cfg, s, snap, z);
      case Order(cmd) =>
        CommandKeepsSize(cfg, s, cmd);
        CommandStepsRing(cfg, s, cmd, z);
    }
  }

  lemma OpRefines(cfg: Config, s: Core, op: Invariants.Op, z: nat, h: seq<Runaway.Sample>)
    requires Sized(cfg, s) && CurvesAscending(s) && z < |cfg.zones|
    requires cfg.runaway.enabled && Runaway.Refines(s.runaway[z].ring, Runaway.Width(cfg.runaway), h)
    ensures Sized(cfg, Invariants.Apply(cfg, s, op))
    ensures Runaway.Refines(Invariants.Apply(cfg, s, op).runaway[z].ring, Runaway.Width(cfg.runaway),
                            PushedBy(cfg, s, op, z, h))
  {
    OpStepsRing(cfg, s, op, z);
    if op.Step? {
      Runaway.PushRefines(s.runaway[z].ring, Runaway.Width(cfg.runaway), h,
                          RunawaySample(cfg, Zones1(cfg, s, op.snap), Mod1(cfg, s, op.snap), z));
    }
  }

  /** The window of every zone refines the samples pushed since the last reset. */
  lemma {:induction false} RingRefines(cfg: Config, ops: seq<Invariants.Op>, z: nat)
    requires ValidConfig(cfg) && z < |cfg.zones| && cfg.runaway.enabled && Runaway.Width(cfg.runaway) > 0
    ensures Runaway.Refines(Invariants.Run(cfg, ops).runaway[z].ring, Runaway.Width(cfg.runaway), Pushed(cfg, ops, z))
  {
    if |ops| > 0 {
      var k := |ops| - 1;
      RingRefines(cfg, ops[..k], z);
      OpRefines(cfg, Invariants.Run(cfg, ops[..k]), ops[k], z, Pushed(cfg, ops[..k], z));
    }
  }

  lemma RunawaySenses(cfg: Config, s: Core, snap: Snapshot, z: nat, h: seq<Runaway.Sample>)
    requires Sized(cfg, s) && CurvesAscending(s) && z < |cfg.zones|
    requires cfg.runaway.enabled && Runaway.Refines(s.runaway[z].ring, Runaway.Width(cfg.runaway), h)
    ensures SensedBy(cfg, s, snap, RunawayOf(z)) == Condition(Runaway.HistoryTriggers(
              h + [RunawaySample(cfg, Zones1(cfg, s, snap), Mod1(cfg, s, snap), z)],
              Runaway.Width(cfg.runaway), cfg.runaway))
  {
    var ring, w := s.runaway[z].ring, Runaway.Width(cfg.runaway);
    var x := RunawaySample(cfg, Zones1(cfg, s, snap), Mod1(cfg, s, snap), z);
    Runaway.PushRefines(ring, w, h, x);
    Runaway.TriggerMeansHistory(Runaway.Push(ring, w, x), w, cfg.runaway, h + [x]);
  }

  /** On every tick of every run the runaway condition fires exactly when the last `persist` samples since
      reset exist, rise by the threshold from oldest to newest, and were all driven at the cooling threshold. */
  lemma CoreRunawayTestsHistory(cfg: Config, ops: seq<Invariants.Op>, snap: Snapshot, z: nat)
    requires ValidConfig(cfg) && z < |cfg.zones| && cfg.runaway.enabled && cfg.runaway.persistTicks > 0
    ensures var s := Invariants.Run(cfg, ops);
            SensedBy(cfg, s, snap, RunawayOf(z)) == Condition(Runaway.HistoryTriggers(
              Pushed(cfg, ops, z) + [RunawaySample(cfg, Zones1(cfg, s, snap), Mod1(cfg, s, snap), z)],
              if cfg.runaway.persistTicks > 64 then 64 else cfg.runaway.persistTicks, cfg.runaway))
  {
    RingRefines(cfg, ops, z);
    RunawaySenses(cfg, Invariants.Run(cfg, ops), snap, z, Pushed(cfg, ops, z));
  }

  // ----- The stuck-sensor detector

  lemma CommandStepsStuck(cfg: Config, s: Core, cmd: Wire.Command, i: nat)
    requires Sized(cfg, s) && i < |cfg.sensors|
    ensures |ApplyCommand(cfg, s, cmd).0.stuck| == |cfg.sensors|
    ensures var (t, after) := (s.stuck[i], ApplyCommand(cfg, s, cmd).0.stuck[i]);
            after == t || after.det == Fault.Apply(t.det, cfg.stuck, cfg.stuck.persistTicks, Clear)
    ensures s.stuck[i].det.fsm.state == Normal ==> ApplyCommand(cfg, s, cmd).0.stuck[i] == s.stuck[i]
  {
  }

  lemma TickStepsStuck(cfg: Config, s: Core, snap: Snapshot, i: nat)
    requires Sized(cfg, s) && CurvesAscending(s) && i < |cfg.sensors|
    ensures |Regulator.Tick(cfg, s, snap).stuck| == |cfg.sensors|
    ensures Regulator.Tick(cfg, s, snap).stuck[i] ==
      if Wellformed(cfg, snap) then StuckTick(cfg.stuck, s.stuck[i], StuckReading(cfg, s, snap, i), snap.now)
        else s.stuck[i]
  {
  }

  lemma OpKeepsWaiting(cfg: Config, s: Core, op: Invariants.Op, i: nat)
    requires Sized(cfg, s) && CurvesAscending(s) && i < |cfg.sensors|
    requires !CanReport(cfg.stuck) && Waiting(s.stuck[i].det.fsm, s.stuck[i].aux)
    ensures |Invariants.Apply(cfg, s, op).stuck| == |cfg.sensors|
    ensures var t := Invariants.Apply(cfg, s, op).stuck[i]; Waiting(t.det.fsm, t.aux)
  {
    match op {
      case Step(snap) => TickKeepsWaiting(cfg, s, snap, i);
      case Order(cmd) => CommandStepsStuck(cfg, s, cmd, i);
    }
  }

  lemma TickKeepsWaiting(cfg: Config, s: Core, snap: Snapshot, i: nat)
    requires Sized(cfg, s) && CurvesAscending(s) && i < |cfg.sensors|
    requires !CanReport(cfg.stuck) && Waiting(s.stuck[i].det.fsm, s.stuck[i].aux)
    ensures |Regulator.Tick(cfg, s, snap).stuck| == |cfg.sensors|
    ensures var t := Regulator.Tick(cfg, s, snap).stuck[i]; Waiting(t.det.fsm, t.aux)
  {
    TickStepsStuck(cfg, s, snap, i);
    NeverReports(cfg.stuck, s.stuck[i].det.fsm, s.stuck[i].aux, StuckReading(cfg, s, snap, i), snap.now);
  }

  /** With persist_ticks of 2 or more and a stuck-sensor window of 3 or more ticks, with no window, or with a
      flatness threshold of 0 or less, no run ever reports a stuck sensor, so none is ever masked. */
  lemma {:induction false} CoreNeverReportsStuck(cfg: Config, ops: seq<Invariants.Op>, i: nat)
    requires ValidConfig(cfg) && i < |cfg.sensors| && !CanReport(cfg.stuck)
    ensures var t := Invariants.Run(cfg, ops).stuck[i]; Waiting(t.det.fsm, t.aux)
  {
    if |ops| > 0 {
      CoreNeverReportsStuck(cfg, ops[..|ops| - 1], i);
      OpKeepsWaiting(cfg, Invariants.Run(cfg, ops[..|ops| - 1]), ops[|ops| - 1], i);
    }
  }

  // ----- Escalation of a latched runaway

  /** The escalation counter is the run of active ticks that ends the history. */
  ghost predicate Counting(fc: DetectorCfg, t: RunawayRt, h: seq<bool>) {
    match t.det.fsm.state
    case Normal => Trailing(h, true) == 0 && t.latchedActive == 0 && t.det.fsm.persist == 0
    case Latched =>
      t.latchedActive == Min(0xFFFF, Trailing(h, true)) && (t.det.fsm.recovery > 0 ==> Trailing(h, true) == 0)
    case _ => false
  }

  /** A runaway that latches, and can escalate. */
  predicate Escalating(fc: DetectorCfg) {
    fc.enabled && fc.action == ACTION_FORCE_AND_LATCH && fc.recoveryTicks > 0 && Runaway.Width(fc) > 0
  }

  lemma TickCounts(fc: DetectorCfg, t: RunawayRt, x: Runaway.Sample, now: u32, h: seq<bool>)
    requires Escalating(fc) && Runaway.Valid(t.ring) && Counting(fc, t, h)
    ensures var sensed := RunawaySensed(fc, t.ring, x);
            Counting(fc, RunawayTick(fc, t, x, now), if sensed.Condition? then h + [sensed.active] else h)
  {
    var sensed := RunawaySensed(fc, t.ring, x);
    if sensed.Condition? { TrailingSnoc(h, sensed.active, true); }
  }

  lemma CommandStepsRunaway(cfg: Config, s: Core, cmd: Wire.Command, z: nat)
    requires Sized(cfg, s) && z < |cfg.zones| && Sized(cfg, ApplyCommand(cfg, s, cmd).0)
    ensures var (t, after) := (s.runaway[z], ApplyCommand(cfg, s, cmd).0.runaway[z]);
            if Addresses(cfg, cmd, RunawayOf(z)) && Accepts(t.det, cfg.runaway)
            then after.det.fsm == FSM_RESET && after.latchedActive == 0
            else after.det.fsm == t.det.fsm && after.latchedActive == t.latchedActive
  {
  }

  lemma ClearCounts(fc: DetectorCfg, t: RunawayRt, h: seq<bool>)
    requires Escalating(fc) && Counting(fc, t, h) && Accepts(t.det, fc)
    ensures Trailing(h, true) == 0
  {
  }

  lemma TickStepsRunaway(cfg: Config, s: Core, snap: Snapshot, z: nat)
    requires Sized(cfg, s) && CurvesAscending(s) && z < |cfg.zones|
    ensures |Regulator.Tick(cfg, s, snap).runaway| == |cfg.zones|
    ensures Regulator.Tick(cfg, s, snap).runaway[z] ==
      if Wellformed(cfg, snap)
      then RunawayTick(cfg.runaway, s.runaway[z], RunawaySample(cfg, Zones1(cfg, s, snap), Mod1(cfg, s, snap), z),
                       snap.now)
      else s.runaway[z]
  {
  }

  lemma OpCounts(cfg: Config, s: Core, op: Invariants.Op, z: nat, past: seq<Fault.Op>)
    requires Sized(cfg, s) && CurvesAscending(s) && z < |cfg.zones| && Escalating(cfg.runaway)
    requires Counting(cfg.runaway, s.runaway[z], History(past))
    ensures |Invariants.Apply(cfg, s, op).runaway| == |cfg.zones|
    ensures Counting(cfg.runaway, Invariants.Apply(cfg, s, op).runaway[z],
                     History(past + Seen(cfg, s, op, RunawayOf(z))))
  {
    HistorySnoc(past, Seen(cfg, s, op, RunawayOf(z)));
    match op {
      case Step(snap) =>
        TickStepsRunaway(cfg, s, snap, z);
        TickCounts(cfg.runaway, s.runaway[z], RunawaySample(cfg, Zones1(cfg, s, snap), Mod1(cfg, s, snap), z),
                   snap.now, History(past));
      case Order(cmd) =>
        CommandKeepsSize(cfg, s, cmd);
        CommandStepsRunaway(cfg, s, cmd, z);
        if Accepts(s.runaway[z].det, cfg.runaway) { ClearCounts(cfg.runaway, s.runaway[z], History(past)); }
    }
  }

  lemma HistorySnoc(past: seq<Fault.Op>, seen: seq<Fault.Op>)
    requires |seen| <= 1
    ensures History(past + seen) ==
      if |seen| == 1 && seen[0].Sense? then History(past) + [seen[0].condition] else History(past)
  {
    if |seen| == 1 { assert (past + seen)[..|past|] == past; } else { assert past + seen == past; }
  }

  lemma {:induction false} RunawayCounts(cfg: Config, ops: seq<Invariants.Op>, z: nat)
    requires ValidConfig(cfg) && z < |cfg.zones| && Escalating(cfg.runaway)
    ensures Counting(cfg.runaway, Invariants.Run(cfg, ops).runaway[z], History(SeenOver(cfg, ops, RunawayOf(z))))
  {
    if |ops| > 0 {
      var k := |ops| - 1;
      RunawayCounts(cfg, ops[..k], z);
      OpCounts(cfg, Invariants.Run(cfg, ops[..k]), ops[k], z, SeenOver(cfg, ops[..k], RunawayOf(z)));
    }
  }

  /** In any run a latching runaway escalates to shutdown exactly when it is latched and its condition has
      held on each of the last recovery_ticks ticks it was sensed. */
  lemma EscalatesIff(cfg: Config, ops: seq<Invariants.Op>, z: nat)
    requires ValidConfig(cfg) && z < |cfg.zones| && Escalating(cfg.runaway)
    ensures var t := Invariants.Run(cfg, ops).runaway[z];
            Escalates(cfg.runaway, t) ==
            (t.det.fsm.state == Latched &&
             Trailing(History(SeenOver(cfg, ops, RunawayOf(z))), true) >= cfg.runaway.recoveryTicks)
  {
    RunawayCounts(cfg, ops, z);
  }
}
