/** One control tick and the runtime commands as functions of the regulator state
    (core/thermal_core.c:943-1083, 1399-1788, 1790-2210, 2231-2492). */
module Regulator {
  import opened CInt
  import opened Curve
  import opened Governor
  import opened Config
  import opened Fault
  import opened Detectors
  import Actuator
  import Filter
  import Pid
  import Runaway
  import Wire
  import Zone

  // ----- Snapshots

  datatype Kind = TempMc | TachRpm | ContextI32 | OtherKind

  datatype Sample = Sample(kind: Kind, id: u16, value: i32, valid: bool)

  datatype Snapshot = Snapshot(now: u32, samples: seq<Sample>)

  /** Slot a sample addresses, -1 when its kind or id is unknown. */
  function SampleSlot(cfg: Config, smp: Sample): int {
    match smp.kind
    case TempMc => SlotOf(cfg.SensorIds(), smp.id)
    case TachRpm => SlotOf(cfg.ActuatorIds(), smp.id)
    case ContextI32 => SlotOf(cfg.ContextIds(), smp.id)
    case OtherKind => -1
  }

  /** Snapshots rejected before any state changes: too long, unknown target, or the same target twice. */
  predicate Wellformed(cfg: Config, snap: Snapshot) {
    |snap.samples| <= MAX_SAMPLES &&
    (forall i :: 0 <= i < |snap.samples| ==> SampleSlot(cfg, snap.samples[i]) >= 0) &&
    forall i, j :: 0 <= i < j < |snap.samples| && snap.samples[i].kind == snap.samples[j].kind ==>
      SampleSlot(cfg, snap.samples[i]) != SampleSlot(cfg, snap.samples[j])
  }

  /** The first sample for a target; invalid when there is none. */
  function Lookup(samples: seq<Sample>, kind: Kind, id: u16): Filter.Sample {
    if |samples| == 0 then Filter.Sample(0, false)
    else if samples[0].kind == kind && samples[0].id == id then Filter.Sample(samples[0].value, samples[0].valid)
    else Lookup(samples[1..], kind, id)
  }

  // ----- State

  datatype ContextRt = ContextRt(filter: Filter.State, lastValidMs: u32, everValid: bool)

  /** A zone's runtime, with the shadow copies of what commands may change (gains, setpoint, trips). */
  datatype ZoneRt = ZoneRt(temp: i32, aggValid: bool, mask: set<nat>, cooling: u8, pid: Pid.State, pwm: u8,
                           effSetpoint: i32, gains: Pid.Gains, setpoint: i32, trips: seq<Trip>)

  datatype StallRt = StallRt(det: Detector, aux: Stall)
  datatype StuckRt = StuckRt(det: Detector, aux: Stuck)
  datatype RunawayRt = RunawayRt(det: Detector, ring: Runaway.State, latchedActive: u16)

  /** Last evaluation of the acoustic modifier. */
  datatype ModEval = ModEval(active: bool, cap: int, offset: int)

  datatype Core = Core(filters: seq<Filter.State>, contexts: seq<ContextRt>, zones: seq<ZoneRt>,
                       modifiers: seq<ModifierCfg>, mod: ModEval, acts: seq<Actuator.State>,
                       stall: seq<StallRt>, stuck: seq<StuckRt>, runaway: seq<RunawayRt>, stale: seq<Detector>,
                       shutdownLatched: bool)

  const DETECTOR_RESET: Detector := Detector(FSM_RESET, [], 0)

  function InitZone(z: ZoneCfg): ZoneRt {
    ZoneRt(0, false, {}, 0, Pid.RESET, 0, 0, z.pid.gains, z.pid.setpoint, z.trips)
  }

  function Init(cfg: Config): Core {
    Core(seq(|cfg.sensors|, _ => Filter.RESET),
         seq(|cfg.contexts|, _ => ContextRt(Filter.RESET, 0, false)),
         seq(|cfg.zones|, z requires 0 <= z < |cfg.zones| => InitZone(cfg.zones[z])),
         cfg.modifiers, ModEval(false, 0, 0),
         seq(|cfg.actuators|, a requires 0 <= a < |cfg.actuators| => Actuator.Init(cfg.actuators[a].drive)),
         seq(|cfg.actuators|, _ => StallRt(DETECTOR_RESET, STALL_RESET)),
         seq(|cfg.sensors|, _ => StuckRt(DETECTOR_RESET, STUCK_RESET)),
         seq(|cfg.zones|, _ => RunawayRt(DETECTOR_RESET, Runaway.Empty(), 0)),
         seq(|cfg.contexts|, _ => DETECTOR_RESET),
         false)
  }

  /** Array sizes match the configuration. */
  predicate Sized(cfg: Config, s: Core) {
    |s.filters| == |s.stuck| == |cfg.sensors| && |s.contexts| == |s.stale| == |cfg.contexts| &&
    |s.zones| == |s.runaway| == |cfg.zones| && |s.modifiers| == |cfg.modifiers| &&
    |s.acts| == |s.stall| == |cfg.actuators| &&
    (forall z :: 0 <= z < |s.runaway| ==> Runaway.Valid(s.runaway[z].ring))
  }

  // ----- Steps 3 to 5: filters and the acoustic modifier

  function Filters1(cfg: Config, s: Core, snap: Snapshot): (r: seq<Filter.State>)
    requires Sized(cfg, s)
    ensures |r| == |cfg.sensors|
  {
    seq(|cfg.sensors|, i requires 0 <= i < |cfg.sensors| && |s.filters| == |cfg.sensors| =>
      Filter.Step(s.filters[i], cfg.sensors[i].alpha, Lookup(snap.samples, TempMc, cfg.sensors[i].id)))
  }

  function ContextStep(c: ContextRt, cc: ContextCfg, snap: Snapshot): ContextRt {
    var smp := Lookup(snap.samples, ContextI32, cc.id);
    ContextRt(Filter.Step(c.filter, cc.alpha, smp), if smp.valid then snap.now else c.lastValidMs,
              c.everValid || smp.valid)
  }

  function Contexts1(cfg: Config, s: Core, snap: Snapshot): (r: seq<ContextRt>)
    requires Sized(cfg, s)
    ensures |r| == |cfg.contexts|
  {
    seq(|cfg.contexts|, i requires 0 <= i < |cfg.contexts| && |s.contexts| == |cfg.contexts| =>
      ContextStep(s.contexts[i], cfg.contexts[i], snap))
  }

  /** The context value the modifier sees: live, held, or 0 when it fails safe. */
  function EffectiveContext(cc: ContextCfg, c: ContextRt): i32 {
    if c.filter.valid || (cc.failSafe == FAILSAFE_HOLD_LAST && c.everValid) then c.filter.value else 0
  }

  predicate CurvesAscending(s: Core) { forall m :: 0 <= m < |s.modifiers| ==> Ascending(s.modifiers[m].curve) }

  function Mod1(cfg: Config, s: Core, snap: Snapshot): ModEval
    requires Sized(cfg, s) && CurvesAscending(s)
  {
    if |cfg.modifiers| == 0 then ModEval(false, 0, 0)
    else
      var m := s.modifiers[0];
      var slot := SlotOf(cfg.ContextIds(), m.contextId);
      if slot < 0 then ModEval(false, 0, 0)
      else
        var x := EffectiveContext(cfg.contexts[slot], Contexts1(cfg, s, snap)[slot]);
        var cap, offset := Eval(m.curve, Axis0, x), Eval(m.curve, Axis1, x);
        ModEval(offset != 0 || cap < 255, cap, offset)
  }

  // ----- Stuck-sensor pre-pass

  /** The context a stuck-sensor detector is correlated with: 0 and invalid when there is none. */
  function CorrelatedContext(cfg: Config, s: Core, snap: Snapshot): (i32, bool)
    requires Sized(cfg, s)
  {
    var slot := if Correlated(cfg.stuck) then SlotOf(cfg.ContextIds(), cfg.stuck.contextId) else -1;
    if slot < 0 then (0, false)
    else
      var c := Contexts1(cfg, s, snap)[slot].filter;
      (c.value, c.valid)
  }

  function StuckReading(cfg: Config, s: Core, snap: Snapshot, i: nat): Detectors.Reading
    requires Sized(cfg, s) && i < |cfg.sensors|
  {
    var f, c := Filters1(cfg, s, snap)[i], CorrelatedContext(cfg, s, snap);
    Detectors.Reading(f.value, f.valid, c.0, c.1)
  }

  /** What a detector senses in one tick: its condition, or nothing when it is disabled. */
  datatype Sensed = Nothing | Condition(active: bool)

  function SenseTick(d: Detector, fc: DetectorCfg, persistTicks: u16, sensed: Sensed, now: u32): Detector {
    if sensed.Nothing? then d else Apply(d, fc, persistTicks, Sense(sensed.active, now))
  }

  function StuckSensed(fc: DetectorCfg, t: StuckRt, r: Detectors.Reading): Sensed {
    if fc.enabled then Condition(StuckCondition(t.aux, fc, r)) else Nothing
  }

  function StuckTick(fc: DetectorCfg, t: StuckRt, r: Detectors.Reading, now: u32): StuckRt {
    StuckRt(SenseTick(t.det, fc, fc.persistTicks, StuckSensed(fc, t, r), now),
            if fc.enabled then StuckStep(t.aux, fc, r) else t.aux)
  }

  function Stuck1(cfg: Config, s: Core, snap: Snapshot): (r: seq<StuckRt>)
    requires Sized(cfg, s)
    ensures |r| == |cfg.sensors|
  {
    seq(|cfg.sensors|, i requires 0 <= i < |cfg.sensors| && Sized(cfg, s) =>
      StuckTick(cfg.stuck, s.stuck[i], StuckReading(cfg, s, snap, i), snap.now))
  }

  /** Slot k of zone z is masked: its sensor is stuck, the action is zone fallback, and k is the first
      slot naming that sensor. */
  predicate Masked(cfg: Config, stuck: seq<StuckRt>, z: nat, k: nat)
    requires |stuck| == |cfg.sensors| && z < |cfg.zones| && k < |cfg.zones[z].sensorIds|
  {
    var id := cfg.zones[z].sensorIds[k];
    var i := SlotOf(cfg.SensorIds(), id);
    cfg.stuck.enabled && cfg.stuck.action == ACTION_USE_ZONE_FALLBACK && i >= 0 &&
    stuck[i].det.fsm.Active() && SlotOf(cfg.zones[z].sensorIds, id) == k
  }

  // ----- Step 6: aggregation and governors

  /** The filtered value behind slot k of zone z, usable unless invalid or masked. */
  function SlotView(cfg: Config, filters: seq<Filter.State>, stuck: seq<StuckRt>, z: nat, k: nat): Zone.Slot
    requires |filters| == |stuck| == |cfg.sensors| && z < |cfg.zones| && k < |cfg.zones[z].sensorIds|
  {
    var zc := cfg.zones[z];
    var i := SlotOf(cfg.SensorIds(), zc.sensorIds[k]);
    var f := if i >= 0 then filters[i] else Filter.RESET;
    Zone.Slot(f.value, f.valid && !Masked(cfg, stuck, z, k), if k < |zc.weights| then zc.weights[k] else 0)
  }

  function SlotViews(cfg: Config, filters: seq<Filter.State>, stuck: seq<StuckRt>, z: nat): (r: seq<Zone.Slot>)
    requires |filters| == |stuck| == |cfg.sensors| && z < |cfg.zones|
    ensures |r| == |cfg.zones[z].sensorIds|
  {
    seq(|cfg.zones[z].sensorIds|,
        k requires 0 <= k < |cfg.zones[z].sensorIds| && |filters| == |stuck| == |cfg.sensors| =>
      SlotView(cfg, filters, stuck, z, k))
  }

  function Slots(cfg: Config, s: Core, snap: Snapshot, z: nat): (r: seq<Zone.Slot>)
    requires Sized(cfg, s) && z < |cfg.zones|
    ensures |r| == |cfg.zones[z].sensorIds|
  {
    SlotViews(cfg, Filters1(cfg, s, snap), Stuck1(cfg, s, snap), z)
  }

  function ReadZone(zc: ZoneCfg, slots: seq<Zone.Slot>): Zone.Reading {
    Zone.Aggregate(zc.aggregation, slots, zc.fallbackMc)
  }

  function ZoneReading(cfg: Config, s: Core, snap: Snapshot, z: nat): Zone.Reading
    requires Sized(cfg, s) && z < |cfg.zones|
  {
    ReadZone(cfg.zones[z], Slots(cfg, s, snap, z))
  }

  /** The offset of this tick; 0 unless the modifier is active in its pre-governor stage. */
  function TripOffset(s: Core, mod: ModEval): int {
    if |s.modifiers| > 0 && mod.active && s.modifiers[0].PreGovernor() then mod.offset else 0
  }

  /** The trip table the governor sees: 32-bit addition of the offset. */
  function EffectiveTrips(trips: seq<Trip>, offset: int): (r: seq<Trip>)
    ensures |r| == |trips|
  {
    seq(|trips|, i requires 0 <= i < |trips| => trips[i].(tempMc := WrapI32(trips[i].tempMc + offset)))
  }

  predicate SafetyTrip(t: Trip) { t.severity == TRIP_CRITICAL || t.severity == TRIP_SHUTDOWN }

  /** The active CRITICAL and SHUTDOWN trips: a PID zone's cooling state counts only these. */
  function SafetyMask(trips: seq<Trip>, mask: set<nat>): set<nat> {
    set i | i in mask && i < |trips| && SafetyTrip(trips[i])
  }

  function PidLimits(zc: ZoneCfg): Pid.Limits { Pid.Limits(zc.pid.dtMin, zc.pid.dtMax, 0, 255) }

  /** One tick of a zone's governor. A validated zone has one of the two governors, and a PID one valid limits. */
  function ZoneStep(zc: ZoneCfg, zr: ZoneRt, reading: Zone.Reading, offset: int, now: u32): ZoneRt {
    var seen := zr.(temp := reading.tempMc, aggValid := reading.valid);
    var trips := EffectiveTrips(zr.trips, offset);
    var mask := ActiveMask(trips, reading.tempMc, zr.mask);
    if zc.governor == GOVERNOR_STEP_WISE then
      seen.(mask := mask, cooling := MaxCooling(trips, mask, |trips|), pwm := 0, effSetpoint := 0)
    else if zc.governor == GOVERNOR_PID && PidLimits(zc).Valid() then
      var sp := WrapI32(zr.setpoint + offset);
      var (pid, out) := Pid.Step(zr.pid, zr.gains, Pid.Input(sp, reading.tempMc, now), PidLimits(zc));
      seen.(mask := mask, cooling := MaxCooling(trips, SafetyMask(trips, mask), |trips|),
            pid := pid, pwm := out.output, effSetpoint := sp)
    else seen
  }

  function Zone1(cfg: Config, s: Core, snap: Snapshot, z: nat): ZoneRt
    requires Sized(cfg, s) && CurvesAscending(s) && z < |cfg.zones|
  {
    ZoneStep(cfg.zones[z], s.zones[z], ZoneReading(cfg, s, snap, z), TripOffset(s, Mod1(cfg, s, snap)), snap.now)
  }

  function Zones1(cfg: Config, s: Core, snap: Snapshot): (r: seq<ZoneRt>)
    requires Sized(cfg, s) && CurvesAscending(s)
    ensures |r| == |cfg.zones|
  {
    seq(|cfg.zones|, z requires 0 <= z < |cfg.zones| && Sized(cfg, s) && CurvesAscending(s) => Zone1(cfg, s, snap, z))
  }

  // ----- Steps 7 and 8: arbitration and the acoustic cap

  /** The duty of a cooling state; a validated table has one for every state a trip can name. */
  function StatePwm(ac: ActuatorCfg, cooling: u8): u8 {
    if cooling < |ac.statePwm| then ac.statePwm[cooling] else 0
  }

  /** The duty linearization; a validated one always ascends, so the second guard never decides. */
  function Linearized(ac: ActuatorCfg, demand: u8): u8 {
    if |ac.linearization| == 0 || !Ascending(ac.linearization) then demand
    else
      var mapped := Eval(ac.linearization, Axis0, demand);
      if mapped < 0 then 0 else if mapped > 255 then 255 else mapped
  }

  /** What one zone asks of one actuator. */
  function Demand(zc: ZoneCfg, zr: ZoneRt, ac: ActuatorCfg): u8 {
    var floor := StatePwm(ac, zr.cooling);
    if zc.governor == GOVERNOR_PID then
      var d := Linearized(ac, zr.pwm);
      if floor > d then floor else d
    else floor
  }

  /** Max-wins over the first n zones that drive actuator a. */
  function Arbitrated(cfg: Config, zones: seq<ZoneRt>, a: nat, n: nat): (r: u8)
    requires n <= |cfg.zones| == |zones| && a < |cfg.actuators|
    ensures forall z :: 0 <= z < n && Drives(cfg, z, a) ==> Demand(cfg.zones[z], zones[z], cfg.actuators[a]) <= r
    ensures r == 0 ||
            exists z :: 0 <= z < n && Drives(cfg, z, a) && Demand(cfg.zones[z], zones[z], cfg.actuators[a]) == r
  {
    if n == 0 then 0
    else
      var r := Arbitrated(cfg, zones, a, n - 1);
      var d := Demand(cfg.zones[n - 1], zones[n - 1], cfg.actuators[a]);
      if Drives(cfg, n - 1, a) && d > r then d else r
  }

  function ZoneSeverity(zc: ZoneCfg, zr: ZoneRt): u8 { MaxSeverity(zc.trips, zr.mask, |zc.trips|) }

  /** Highest severity over the first n zones that drive actuator a. */
  function ActuatorSeverity(cfg: Config, zones: seq<ZoneRt>, a: nat, n: nat): u8
    requires n <= |cfg.zones| == |zones| && a < |cfg.actuators|
  {
    if n == 0 then 0
    else
      var r := ActuatorSeverity(cfg, zones, a, n - 1);
      var v := ZoneSeverity(cfg.zones[n - 1], zones[n - 1]);
      if Drives(cfg, n - 1, a) && v > r then v else r
  }

  lemma {:induction false} SeverityIsMax(cfg: Config, zones: seq<ZoneRt>, a: nat, n: nat)
    requires n <= |cfg.zones| == |zones| && a < |cfg.actuators|
    ensures forall z :: 0 <= z < n && Drives(cfg, z, a) ==>
      ZoneSeverity(cfg.zones[z], zones[z]) <= ActuatorSeverity(cfg, zones, a, n)
    ensures ActuatorSeverity(cfg, zones, a, n) == 0 ||
      exists z :: 0 <= z < n && Drives(cfg, z, a) &&
        ZoneSeverity(cfg.zones[z], zones[z]) == ActuatorSeverity(cfg, zones, a, n)
  {
    if n > 0 { SeverityIsMax(cfg, zones, a, n - 1); }
  }

  function Arb(cfg: Config, zones: seq<ZoneRt>, a: nat): u8
    requires |cfg.zones| == |zones| && a < |cfg.actuators|
  {
    Arbitrated(cfg, zones, a, |zones|)
  }

  function Sev(cfg: Config, zones: seq<ZoneRt>, a: nat): u8
    requires |cfg.zones| == |zones| && a < |cfg.actuators|
  {
    ActuatorSeverity(cfg, zones, a, |zones|)
  }

  /** The arbitrated demand after the acoustic cap, which a CRITICAL actuator skips. */
  function Capped(cfg: Config, zones: seq<ZoneRt>, mod: ModEval, a: nat): u8
    requires |cfg.zones| == |zones| && a < |cfg.actuators|
  {
    var d := Arb(cfg, zones, a);
    if Sev(cfg, zones, a) < TRIP_CRITICAL && |cfg.modifiers| > 0 && mod.active && cfg.modifiers[0].PostGovernor() &&
       0 <= mod.cap < cfg.actuators[a].drive.pwmMax && mod.cap < d
    then mod.cap else d
  }

  // ----- Step 9: fault detectors and what they force

  function TachOf(cfg: Config, snap: Snapshot, a: nat): (u16, bool)
    requires a < |cfg.actuators|
  {
    var smp := Lookup(snap.samples, TachRpm, cfg.actuators[a].id);
    (if smp.value < 0 then 0 else if smp.value > 0xFFFF then 0xFFFF else smp.value, smp.valid)
  }

  function StallSensed(cfg: Config, t: StallRt, a: nat, pwm: u8, snap: Snapshot): Sensed
    requires a < |cfg.actuators|
  {
    var (rpm, valid) := TachOf(cfg, snap, a);
    var spin := Actuator.SpinupTicks(cfg.actuators[a].drive, cfg.periodMs);
    if cfg.stall.enabled then Condition(StallCondition(t.aux, cfg.stall, pwm, rpm, valid, spin)) else Nothing
  }

  function StallTick(cfg: Config, t: StallRt, a: nat, pwm: u8, snap: Snapshot): StallRt
    requires a < |cfg.actuators|
  {
    var spin := Actuator.SpinupTicks(cfg.actuators[a].drive, cfg.periodMs);
    StallRt(SenseTick(t.det, cfg.stall, cfg.stall.persistTicks, StallSensed(cfg, t, a, pwm, snap), snap.now),
            if cfg.stall.enabled then StallStep(t.aux, pwm, spin) else t.aux)
  }

  /** The highest capped demand over the first n actuator ids of a zone. */
  function ZonePwm(cfg: Config, zones: seq<ZoneRt>, mod: ModEval, ids: seq<u16>): u8
    requires |cfg.zones| == |zones|
  {
    if |ids| == 0 then 0
    else
      var r := ZonePwm(cfg, zones, mod, ids[..|ids| - 1]);
      var slot := SlotOf(cfg.ActuatorIds(), ids[|ids| - 1]);
      if slot >= 0 && Capped(cfg, zones, mod, slot) > r then Capped(cfg, zones, mod, slot) else r
  }

  /** Ticks a latched runaway has been active without a break: it drives the escalation to shutdown. */
  function LatchedActive(fc: DetectorCfg, before: u16, f: Fsm): u16 {
    if f.state == Latched && fc.action == ACTION_FORCE_AND_LATCH && f.recovery == 0 then
      if before < 0xFFFF then before + 1 else before
    else 0
  }

  /** The ring after this tick's push; a disabled detector or an empty window pushes nothing. */
  function RunawayPush(fc: DetectorCfg, ring: Runaway.State, x: Runaway.Sample): Runaway.State
    requires Runaway.Valid(ring)
  {
    if !fc.enabled || Runaway.Width(fc) == 0 then ring else Runaway.Push(ring, Runaway.Width(fc), x)
  }

  function RunawaySensed(fc: DetectorCfg, ring: Runaway.State, x: Runaway.Sample): Sensed
    requires Runaway.Valid(ring)
  {
    if !fc.enabled || Runaway.Width(fc) == 0 then Nothing
    else Condition(Runaway.Triggered(RunawayPush(fc, ring, x), Runaway.Width(fc), fc))
  }

  function RunawayTick(fc: DetectorCfg, t: RunawayRt, x: Runaway.Sample, now: u32): RunawayRt
    requires Runaway.Valid(t.ring)
  {
    var det := SenseTick(t.det, fc, 1, RunawaySensed(fc, t.ring, x), now);
    RunawayRt(det, RunawayPush(fc, t.ring, x),
              if fc.enabled then LatchedActive(fc, t.latchedActive, det.fsm) else t.latchedActive)
  }

  predicate Escalates(fc: DetectorCfg, t: RunawayRt) {
    fc.action == ACTION_FORCE_AND_LATCH && t.det.fsm.state == Latched && fc.recoveryTicks > 0 &&
    t.latchedActive >= fc.recoveryTicks
  }

  function StaleSensed(fc: DetectorCfg, c: ContextRt, cc: ContextCfg, now: u32): Sensed {
    var since := if c.everValid then (now - c.lastValidMs) % 0x1_0000_0000 else 0xFFFF_FFFF;
    if fc.enabled then Condition(since >= cc.timeoutMs) else Nothing
  }

  predicate Forcing(fc: DetectorCfg, f: Fsm) {
    fc.enabled && f.Active() && (fc.ForcesMax() || fc.action == ACTION_REQUEST_SHUTDOWN)
  }

  predicate Requesting(fc: DetectorCfg, f: Fsm) { fc.enabled && f.Active() && fc.action == ACTION_REQUEST_SHUTDOWN }

  /** Some detector with a forcing action is active on actuator a: its own stall detector, a runaway or
      stuck-sensor detector of a zone driving it, or any stale-context detector. */
  predicate FaultForces(cfg: Config, a: nat, stall: seq<StallRt>, stuck: seq<StuckRt>, runaway: seq<RunawayRt>,
                        stale: seq<Detector>)
    requires a < |cfg.actuators| == |stall| && |stuck| == |cfg.sensors| && |runaway| == |cfg.zones| &&
      |stale| == |cfg.contexts|
  {
    Forcing(cfg.stall, stall[a].det.fsm) ||
    (exists z :: 0 <= z < |cfg.zones| && Drives(cfg, z, a) && Forcing(cfg.runaway, runaway[z].det.fsm)) ||
    (exists c :: 0 <= c < |stale| && Forcing(cfg.stale, stale[c].fsm)) ||
    (exists z, i :: 0 <= z < |cfg.zones| && 0 <= i < |stuck| && Drives(cfg, z, a) &&
      cfg.sensors[i].id in cfg.zones[z].sensorIds && Forcing(cfg.stuck, stuck[i].det.fsm))
  }

  /** Same, for detectors that request shutdown or a runaway that has escalated to it. */
  predicate FaultShutdown(cfg: Config, a: nat, stall: seq<StallRt>, stuck: seq<StuckRt>, runaway: seq<RunawayRt>,
                          stale: seq<Detector>)
    requires a < |cfg.actuators| == |stall| && |stuck| == |cfg.sensors| && |runaway| == |cfg.zones| &&
      |stale| == |cfg.contexts|
  {
    Requesting(cfg.stall, stall[a].det.fsm) ||
    (exists z :: 0 <= z < |cfg.zones| && Drives(cfg, z, a) &&
      (Requesting(cfg.runaway, runaway[z].det.fsm) || (cfg.runaway.enabled && Escalates(cfg.runaway, runaway[z])))) ||
    (exists c :: 0 <= c < |stale| && Requesting(cfg.stale, stale[c].fsm)) ||
    (exists z, i :: 0 <= z < |cfg.zones| && 0 <= i < |stuck| && Drives(cfg, z, a) &&
      cfg.sensors[i].id in cfg.zones[z].sensorIds && Requesting(cfg.stuck, stuck[i].det.fsm))
  }

  // ----- The whole tick

  function Stall1(cfg: Config, s: Core, snap: Snapshot): (r: seq<StallRt>)
    requires Sized(cfg, s) && CurvesAscending(s)
    ensures |r| == |cfg.actuators|
  {
    var zones, mod := Zones1(cfg, s, snap), Mod1(cfg, s, snap);
    seq(|cfg.actuators|, a requires 0 <= a < |cfg.actuators| && Sized(cfg, s) && |zones| == |cfg.zones| =>
      StallTick(cfg, s.stall[a], a, Capped(cfg, zones, mod, a), snap))
  }

  function Runaway1(cfg: Config, s: Core, snap: Snapshot): (r: seq<RunawayRt>)
    requires Sized(cfg, s) && CurvesAscending(s)
    ensures |r| == |cfg.zones|
  {
    var zones, mod := Zones1(cfg, s, snap), Mod1(cfg, s, snap);
    seq(|cfg.zones|, z requires 0 <= z < |cfg.zones| && Sized(cfg, s) && |zones| == |cfg.zones| =>
      RunawayTick(cfg.runaway, s.runaway[z], RunawaySample(cfg, zones, mod, z), snap.now))
  }

  /** What zone z pushes into its runaway window: its temperature and the highest demand on its actuators. */
  function RunawaySample(cfg: Config, zones: seq<ZoneRt>, mod: ModEval, z: nat): Runaway.Sample
    requires z < |cfg.zones| == |zones|
  {
    Runaway.Sample(zones[z].temp, ZonePwm(cfg, zones, mod, cfg.zones[z].actuatorIds))
  }

  function Stale1(cfg: Config, s: Core, snap: Snapshot): (r: seq<Detector>)
    requires Sized(cfg, s)
    ensures |r| == |cfg.contexts|
  {
    var ctx := Contexts1(cfg, s, snap);
    seq(|cfg.contexts|, c requires 0 <= c < |cfg.contexts| && Sized(cfg, s) && |ctx| == |cfg.contexts| =>
      SenseTick(s.stale[c], cfg.stale, cfg.stale.persistTicks,
                StaleSensed(cfg.stale, ctx[c], cfg.contexts[c], snap.now), snap.now))
  }

  /** What the final stage of actuator a is told. */
  function Command(cfg: Config, s: Core, snap: Snapshot, a: nat): Actuator.Input
    requires Sized(cfg, s) && CurvesAscending(s) && a < |cfg.actuators|
  {
    var zones := Zones1(cfg, s, snap);
    var stall, stuck := Stall1(cfg, s, snap), Stuck1(cfg, s, snap);
    var runaway, stale := Runaway1(cfg, s, snap), Stale1(cfg, s, snap);
    var sev := Sev(cfg, zones, a);
    var faulted := FaultForces(cfg, a, stall, stuck, runaway, stale);
    Actuator.Input(Capped(cfg, zones, Mod1(cfg, s, snap), a), sev >= TRIP_CRITICAL || faulted,
                   sev >= TRIP_SHUTDOWN || faulted, FaultShutdown(cfg, a, stall, stuck, runaway, stale))
  }

  function Acts1(cfg: Config, s: Core, snap: Snapshot): (r: seq<Actuator.State>)
    requires Sized(cfg, s) && CurvesAscending(s)
    ensures |r| == |cfg.actuators|
  {
    seq(|cfg.actuators|, a requires 0 <= a < |cfg.actuators| && Sized(cfg, s) && CurvesAscending(s) =>
      Actuator.Step(cfg.actuators[a].drive, s.acts[a], Command(cfg, s, snap, a), cfg.periodMs))
  }

  /** A SHUTDOWN zone or a shutdown request latches the request for good. */
  predicate ShutdownSeen(cfg: Config, s: Core, snap: Snapshot)
    requires Sized(cfg, s) && CurvesAscending(s)
  {
    (exists z :: 0 <= z < |cfg.zones| && ZoneSeverity(cfg.zones[z], Zones1(cfg, s, snap)[z]) >= TRIP_SHUTDOWN) ||
    (exists a :: 0 <= a < |cfg.actuators| && Command(cfg, s, snap, a).shutdown)
  }

  /** A tick on an accepted snapshot. */
  function Advance(cfg: Config, s: Core, snap: Snapshot): Core
    requires Sized(cfg, s) && CurvesAscending(s)
  {
    Core(Filters1(cfg, s, snap), Contexts1(cfg, s, snap), Zones1(cfg, s, snap), s.modifiers, Mod1(cfg, s, snap),
         Acts1(cfg, s, snap), Stall1(cfg, s, snap), Stuck1(cfg, s, snap), Runaway1(cfg, s, snap), Stale1(cfg, s, snap),
         s.shutdownLatched || ShutdownSeen(cfg, s, snap))
  }

  /** One control tick; a malformed snapshot changes nothing. */
  function Tick(cfg: Config, s: Core, snap: Snapshot): Core
    requires Sized(cfg, s) && CurvesAscending(s)
  {
    if Wellformed(cfg, snap) then Advance(cfg, s, snap) else s
  }

  /** What the preflight of a snapshot answers. */
  function Preflight(cfg: Config, snap: Snapshot): Status {
    if |snap.samples| > MAX_SAMPLES then NoSpace else if Wellformed(cfg, snap) then Ok else InvalidArg
  }

  // ----- Commands

  datatype Status = Ok | InvalidArg | NoSpace | OutOfBounds | RejectedSafety

  function Trips(s: Core): (t: seq<seq<Trip>>)
    ensures |t| == |s.zones|
  {
    seq(|s.zones|, z requires 0 <= z < |s.zones| => s.zones[z].trips)
  }

  function Setpoints(s: Core): (t: seq<i32>)
    ensures |t| == |s.zones|
  {
    seq(|s.zones|, z requires 0 <= z < |s.zones| => s.zones[z].setpoint)
  }

  /** Every pre-governor knot offset is acceptable for a proposed trip table / setpoint of zone z. */
  predicate TripsFitKnots(s: Core, trips: seq<Trip>) {
    forall m, p :: 0 <= m < |s.modifiers| && s.modifiers[m].PreGovernor() && 0 <= p < |s.modifiers[m].curve| ==>
      ValidAt(trips, s.modifiers[m].curve[p].value1)
  }

  predicate SetpointFitsKnots(s: Core, pid: PidCfg, sp: int) {
    forall m, p :: 0 <= m < |s.modifiers| && s.modifiers[m].PreGovernor() && 0 <= p < |s.modifiers[m].curve| ==>
      pid.SetpointInBounds(sp + s.modifiers[m].curve[p].value1)
  }

  function SetPid(cfg: Config, s: Core, z: u16, kp: i32, ki: i32, kd: i32): (Core, Status)
    requires Sized(cfg, s)
  {
    if z >= |cfg.zones| || cfg.zones[z].governor != GOVERNOR_PID then (s, InvalidArg)
    else if !cfg.zones[z].pid.GainsInBounds(kp, ki, kd) then (s, OutOfBounds)
    else
      var zr := s.zones[z];
      (s.(zones := s.zones[z := zr.(gains := zr.gains.(kp := kp, ki := ki, kd := kd), pid := Pid.RESET)]), Ok)
  }

  function SetSetpoint(cfg: Config, s: Core, z: u16, sp: i32): (Core, Status)
    requires Sized(cfg, s)
  {
    if z >= |cfg.zones| || cfg.zones[z].governor != GOVERNOR_PID then (s, InvalidArg)
    else if !cfg.zones[z].pid.SetpointInBounds(sp) || !SetpointFitsKnots(s, cfg.zones[z].pid, sp) then (s, OutOfBounds)
    else (s.(zones := s.zones[z := s.zones[z].(setpoint := sp)]), Ok)
  }

  /** The proposed trip against its neighbours. */
  predicate NeighboursAllow(trips: seq<Trip>, t: nat, temp: i32, hyst: i32)
    requires t < |trips|
  {
    hyst >= 0 &&
    (t > 0 ==> trips[t - 1].tempMc < temp && trips[t - 1].tempMc <= temp - hyst) &&
    (t + 1 < |trips| ==> temp < trips[t + 1].tempMc && temp <= trips[t + 1].tempMc - trips[t + 1].hystMc)
  }

  function SetTrip(cfg: Config, s: Core, z: u16, t: u16, temp: i32, hyst: i32): (Core, Status)
    requires Sized(cfg, s)
  {
    if z >= |cfg.zones| then (s, InvalidArg)
    else if t >= |s.zones[z].trips| then (s, OutOfBounds)
    else
      var trips := s.zones[z].trips;
      var proposed := trips[t := trips[t].(tempMc := temp, hystMc := hyst)];
      if NeighboursAllow(trips, t, temp, hyst) && FallbackReaches(cfg.zones[z].fallbackMc, proposed) &&
        TripsFitKnots(s, proposed)
      then (s.(zones := s.zones[z := s.zones[z].(trips := proposed)]), Ok)
      else (s, OutOfBounds)
  }

  function SetCurvePoint(cfg: Config, s: Core, m: u16, p: u16, pt: Point): (Core, Status)
    requires Sized(cfg, s)
  {
    if m >= |cfg.modifiers| then (s, InvalidArg)
    else if p >= |s.modifiers[m].curve| then (s, OutOfBounds)
    else
      var c := s.modifiers[m].curve;
      var proposed := s.modifiers[m].(curve := c[p := pt]);
      if (p > 0 ==> c[p - 1].x < pt.x) && (p + 1 < |c| ==> pt.x < c[p + 1].x) &&
         CurveValid(cfg, Trips(s), Setpoints(s), proposed)
      then (s.(modifiers := s.modifiers[m := proposed]), Ok)
      else (s, OutOfBounds)
  }

  function ClearStatus(d: Detector, fc: DetectorCfg): Status {
    if ClearFault(d.fsm, fc).1 == ClearOutcome.RejectedSafety then Status.RejectedSafety else Ok
  }

  predicate Accepts(d: Detector, fc: DetectorCfg) { ClearFault(d.fsm, fc).1 == Fault.Cleared }

  const FAULT_STALL: u16 := 1
  const FAULT_STUCK: u16 := 2
  const FAULT_RUNAWAY: u16 := 3
  const FAULT_STALE: u16 := 4

  /** A clear addresses one detector; when accepted it also resets that detector's own window. */
  function ClearCommand(cfg: Config, s: Core, kind: u16, target: u16): (Core, Status)
    requires Sized(cfg, s)
  {
    if kind == FAULT_STALL then
      var a := SlotOf(cfg.ActuatorIds(), target);
      if a < 0 then (s, InvalidArg)
      else
        var t, fc := s.stall[a], cfg.stall;
        var aux := if Accepts(t.det, fc) then STALL_RESET else t.aux;
        (s.(stall := s.stall[a := StallRt(Apply(t.det, fc, fc.persistTicks, Clear), aux)]),
         ClearStatus(t.det, fc))
    else if kind == FAULT_STUCK then
      var i := SlotOf(cfg.SensorIds(), target);
      if i < 0 then (s, InvalidArg)
      else
        var t, fc := s.stuck[i], cfg.stuck;
        var aux := if Accepts(t.det, fc) then STUCK_RESET else t.aux;
        (s.(stuck := s.stuck[i := StuckRt(Apply(t.det, fc, fc.persistTicks, Clear), aux)]),
         ClearStatus(t.det, fc))
    else if kind == FAULT_RUNAWAY then
      if target >= |cfg.zones| then (s, InvalidArg)
      else
        var t, fc := s.runaway[target], cfg.runaway;
        var gone := Accepts(t.det, fc);
        var ring, active := if gone then Runaway.Empty() else t.ring, if gone then 0 else t.latchedActive;
        (s.(runaway := s.runaway[target := RunawayRt(Apply(t.det, fc, 1, Clear), ring, active)]),
         ClearStatus(t.det, fc))
    else if kind == FAULT_STALE then
      var c := SlotOf(cfg.ContextIds(), target);
      if c < 0 then (s, InvalidArg)
      else (s.(stale := s.stale[c := Apply(s.stale[c], cfg.stale, cfg.stale.persistTicks, Clear)]),
            ClearStatus(s.stale[c], cfg.stale))
    else (s, InvalidArg)
  }

  /** A command as it arrives off the wire. */
  function ApplyCommand(cfg: Config, s: Core, cmd: Wire.Command): (Core, Status)
    requires Sized(cfg, s)
  {
    match cmd
    case SetPid(z, kp, ki, kd) => SetPid(cfg, s, z, kp, ki, kd)
    case SetSetpoint(z, sp) => SetSetpoint(cfg, s, z, sp)
    case SetTrip(z, t, temp, hyst) => SetTrip(cfg, s, z, t, temp, hyst)
    case SetCurvePoint(m, p, x, v0, v1) => SetCurvePoint(cfg, s, m, p, Point(x, v0, v1))
    case ClearFault(kind, target) => ClearCommand(cfg, s, kind, target)
    case Unknown(_) => (s, InvalidArg)
  }
}
