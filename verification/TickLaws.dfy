/** What a tick asks of every actuator, said in terms of active trips, duty tables, curve values and detector
    states, and not of the functions that compute it (core/thermal_core.c:186-321, 1032-1083, 1644-1753,
    1755-2022). */
module TickLaws {
  import opened CInt
  import opened Curve
  import opened Governor
  import opened Config
  import opened Fault
  import opened Regulator
  import opened Invariants
  import Filter
  import Pid
  import Safety
  import Zone

  // ----- The demand

  /** Trip t of zone z is active and counts for its demand: any trip of a step-wise zone, the CRITICAL and
      SHUTDOWN trips of a PID zone. */
  ghost predicate Counts(z: ZoneCfg, zr: ZoneRt, t: nat) {
    t in zr.mask && t < |z.trips| &&
    (z.governor == GOVERNOR_PID ==> z.trips[t].severity in {TRIP_CRITICAL, TRIP_SHUTDOWN})
  }

  /** The duty table entry of a cooling state. */
  function Entry(ac: ActuatorCfg, cooling: nat): u8
    requires cooling < |ac.statePwm|
  {
    ac.statePwm[cooling]
  }

  /** The controller output through the duty curve, if there is one. */
  ghost predicate IsLinear(ac: ActuatorCfg, pwm: u8, d: int) {
    if |ac.linearization| == 0 then d == pwm
    else Ascending(ac.linearization) && d == Eval(ac.linearization, Axis0, pwm)
  }

  /** Zone z asks actuator ac for duty d: the entry of a trip that counts, the entry of cooling state 0 when none
      does, or its controller output. */
  ghost predicate Asks(z: ZoneCfg, zr: ZoneRt, ac: ActuatorCfg, d: int) {
    |ac.statePwm| == MAX_COOLING_STATES &&
    ((exists t: nat :: Counts(z, zr, t) && z.trips[t].cooling < MAX_COOLING_STATES &&
                       d == Entry(ac, z.trips[t].cooling)) ||
     ((forall t: nat :: !Counts(z, zr, t)) && d == Entry(ac, 0)) ||
     (z.governor == GOVERNOR_PID && IsLinear(ac, zr.pwm, d)))
  }

  /** The cooling state a zone leaves a tick with: 0, or the highest of the trips that count. */
  ghost predicate CoolingIsHighest(z: ZoneCfg, zr: ZoneRt) {
    zr.cooling < MAX_COOLING_STATES &&
    (forall t: nat :: Counts(z, zr, t) ==> z.trips[t].cooling <= zr.cooling) &&
    (zr.cooling == 0 || exists t: nat :: Counts(z, zr, t) && z.trips[t].cooling == zr.cooling)
  }

  lemma StepCooling(z: ZoneCfg, zr: ZoneRt, reading: Zone.Reading, offset: int, now: u32)
    requires ZoneInv(z, zr) && z.governor in {GOVERNOR_STEP_WISE, GOVERNOR_PID}
    ensures CoolingIsHighest(z, ZoneStep(z, zr, reading, offset, now))
  {
    var t, trips := ZoneStep(z, zr, reading, offset, now), EffectiveTrips(zr.trips, offset);
    forall i | 0 <= i < |trips| ensures trips[i].cooling == z.trips[i].cooling < MAX_COOLING_STATES &&
                                        trips[i].severity == z.trips[i].severity { }
    if t.cooling > 0 {
      var i :| 0 <= i < |trips| && trips[i].cooling == t.cooling && i in t.mask &&
        (z.governor == GOVERNOR_PID ==> SafetyTrip(trips[i]));
      assert Counts(z, t, i);
    }
  }

  /** The duty tables serve every state a trip of the zone names, and rise up to it. */
  ghost predicate TableRises(z: ZoneCfg, ac: ActuatorCfg) {
    |ac.statePwm| == MAX_COOLING_STATES && LinearizationValid(ac.linearization) &&
    forall t, low: nat :: 0 <= t < |z.trips| && low <= z.trips[t].cooling < MAX_COOLING_STATES ==>
      Entry(ac, low) <= Entry(ac, z.trips[t].cooling)
  }

  lemma ValidTableRises(cfg: Config, z: nat, a: nat)
    requires ValidConfig(cfg) && z < |cfg.zones| && a < |cfg.actuators| && Drives(cfg, z, a)
    ensures TableRises(cfg.zones[z], cfg.actuators[a])
  {
    var zc, ac := cfg.zones[z], cfg.actuators[a];
    assert ActuatorValid(ac);
    forall t, low: nat | 0 <= t < |zc.trips| && low <= zc.trips[t].cooling < MAX_COOLING_STATES
      ensures Entry(ac, low) <= Entry(ac, zc.trips[t].cooling)
    {
      if zc.trips[t].cooling > 0 { assert Reaches(cfg, a, zc.trips[t].cooling); }
      Safety.StatePwmRises(cfg, a, low, zc.trips[t].cooling);
    }
  }

  /** The demand of one zone is the largest duty it asks for. */
  lemma DemandIsLargest(z: ZoneCfg, zr: ZoneRt, ac: ActuatorCfg)
    requires CoolingIsHighest(z, zr) && TableRises(z, ac) && z.governor in {GOVERNOR_STEP_WISE, GOVERNOR_PID}
    ensures Asks(z, zr, ac, Demand(z, zr, ac))
    ensures forall d :: Asks(z, zr, ac, d) ==> d <= Demand(z, zr, ac)
  {
    if |ac.linearization| > 0 { EvalHull(ac.linearization, Axis0, zr.pwm, 0, 255); }
    FloorIsEntry(z, zr, ac);
    forall d | Asks(z, zr, ac, d) ensures d <= Demand(z, zr, ac) {
      if t: nat :| Counts(z, zr, t) && z.trips[t].cooling < MAX_COOLING_STATES && d == Entry(ac, z.trips[t].cooling) {
        EntriesRise(z, zr, ac, z.trips[t].cooling);
      } else if (forall t: nat :: !Counts(z, zr, t)) && d == Entry(ac, 0) {
        EntriesRise(z, zr, ac, 0);
      }
    }
  }

  lemma FloorIsEntry(z: ZoneCfg, zr: ZoneRt, ac: ActuatorCfg)
    requires CoolingIsHighest(z, zr) && TableRises(z, ac)
    ensures Asks(z, zr, ac, Entry(ac, zr.cooling))
  {
    if t: nat :| Counts(z, zr, t) && z.trips[t].cooling == zr.cooling {
      assert Entry(ac, zr.cooling) == Entry(ac, z.trips[t].cooling);
    } else {
      forall t: nat ensures !Counts(z, zr, t) { }
    }
  }

  lemma EntriesRise(z: ZoneCfg, zr: ZoneRt, ac: ActuatorCfg, low: nat)
    requires CoolingIsHighest(z, zr) && TableRises(z, ac) && low <= zr.cooling
    ensures Entry(ac, low) <= Entry(ac, zr.cooling)
  {
    if zr.cooling > 0 {
      var t: nat :| Counts(z, zr, t) && z.trips[t].cooling == zr.cooling;
      assert Entry(ac, low) <= Entry(ac, z.trips[t].cooling);
    }
  }

  /** After a tick, the arbitrated demand of an actuator is the largest duty any zone that drives it asks for. */
  lemma ArbitratedIsLargest(cfg: Config, s: Core, snap: Snapshot, a: nat)
    requires ValidConfig(cfg) && Inv(cfg, s) && a < |cfg.actuators|
    ensures var (zones, ac) := (Zones1(cfg, s, snap), cfg.actuators[a]);
            (forall z, d :: 0 <= z < |cfg.zones| && Drives(cfg, z, a) && Asks(cfg.zones[z], zones[z], ac, d) ==>
              d <= Arb(cfg, zones, a)) &&
            (Arb(cfg, zones, a) == 0 ||
             exists z :: 0 <= z < |cfg.zones| && Drives(cfg, z, a) &&
                         Asks(cfg.zones[z], zones[z], ac, Arb(cfg, zones, a)))
  {
    var zones, ac := Zones1(cfg, s, snap), cfg.actuators[a];
    forall z | 0 <= z < |cfg.zones| && Drives(cfg, z, a)
      ensures Asks(cfg.zones[z], zones[z], ac, Demand(cfg.zones[z], zones[z], ac))
      ensures forall d :: Asks(cfg.zones[z], zones[z], ac, d) ==> d <= Demand(cfg.zones[z], zones[z], ac)
    {
      ZoneAsks(cfg, s, snap, z, a);
    }
  }

  lemma ZoneAsks(cfg: Config, s: Core, snap: Snapshot, z: nat, a: nat)
    requires ValidConfig(cfg) && Inv(cfg, s) && z < |cfg.zones| && a < |cfg.actuators| && Drives(cfg, z, a)
    ensures var (zc, zr, ac) := (cfg.zones[z], Zones1(cfg, s, snap)[z], cfg.actuators[a]);
            Asks(zc, zr, ac, Demand(zc, zr, ac)) && forall d :: Asks(zc, zr, ac, d) ==> d <= Demand(zc, zr, ac)
  {
    assert ZoneValid(cfg, cfg.zones[z]);
    StepCooling(cfg.zones[z], s.zones[z], ZoneReading(cfg, s, snap, z), TripOffset(s, Mod1(cfg, s, snap)), snap.now);
    ValidTableRises(cfg, z, a);
    DemandIsLargest(cfg.zones[z], Zone1(cfg, s, snap, z), cfg.actuators[a]);
  }

  /** So every active trip of a step-wise zone, and every active CRITICAL or SHUTDOWN trip of a PID zone, is served
      with at least the duty of its cooling state. */
  lemma ActiveTripServed(cfg: Config, s: Core, snap: Snapshot, z: nat, t: nat, a: nat)
    requires ValidConfig(cfg) && Inv(cfg, s) && z < |cfg.zones| && a < |cfg.actuators| && Drives(cfg, z, a)
    requires Counts(cfg.zones[z], Zones1(cfg, s, snap)[z], t)
    ensures var (table, cooling) := (cfg.actuators[a].statePwm, cfg.zones[z].trips[t].cooling);
            cooling < |table| && table[cooling] <= Arb(cfg, Zones1(cfg, s, snap), a)
  {
    var zc, ac := cfg.zones[z], cfg.actuators[a];
    assert ZoneValid(cfg, zc) && ActuatorValid(ac);
    assert Asks(zc, Zones1(cfg, s, snap)[z], ac, Entry(ac, zc.trips[t].cooling));
    ArbitratedIsLargest(cfg, s, snap, a);
  }

  // ----- The controller of a PID zone

  /** A PID zone feeds its controller the temperature it acts on and its setpoint moved by the offset, with its
      current gains, its configured interval limits and the full duty range. */
  lemma ControllerFed(cfg: Config, s: Core, snap: Snapshot, z: nat)
    requires Inv(cfg, s) && z < |cfg.zones| && cfg.zones[z].governor == GOVERNOR_PID
    ensures var (zc, zr, t, p) := (cfg.zones[z], s.zones[z], Zone1(cfg, s, snap, z), cfg.zones[z].pid);
            var (sp, lim) := (zr.setpoint + TripOffset(s, Mod1(cfg, s, snap)), Pid.Limits(p.dtMin, p.dtMax, 0, 255));
            FitsI32(sp) && lim.Valid() && t.effSetpoint == sp &&
            t.temp == ZoneReading(cfg, s, snap, z).tempMc &&
            (t.pid, t.pwm) == (Pid.Step(zr.pid, zr.gains, Pid.Input(sp, t.temp, snap.now), lim).0,
                               Pid.Step(zr.pid, zr.gains, Pid.Input(sp, t.temp, snap.now), lim).1.output)
  {
    TickOffsetValid(cfg, s, snap, z);
  }

  /** A step-wise zone leaves its controller alone and reports no controller output. */
  lemma StepWiseZone(cfg: Config, s: Core, snap: Snapshot, z: nat)
    requires Inv(cfg, s) && z < |cfg.zones| && cfg.zones[z].governor == GOVERNOR_STEP_WISE
    ensures var t := Zone1(cfg, s, snap, z); t.pid == s.zones[z].pid && t.pwm == 0 && t.effSetpoint == 0
  {
  }

  // ----- The modifier

  /** The value of the modifier's context: the filtered value while samples are valid; the held one if the context
      holds and ever had a valid sample; 0 otherwise. */
  ghost predicate IsContext(cfg: Config, s: Core, snap: Snapshot, c: nat, x: int)
    requires Sized(cfg, s) && c < |cfg.contexts|
  {
    var smp := Lookup(snap.samples, ContextI32, cfg.contexts[c].id);
    if smp.valid then x == Filter.Step(s.contexts[c].filter, cfg.contexts[c].alpha, smp).value
    else if cfg.contexts[c].failSafe == FAILSAFE_HOLD_LAST && s.contexts[c].everValid then
      x == s.contexts[c].filter.value
    else x == 0
  }

  /** On every tick the cap and the trip offset of the modifier are its curve's two values at its context. */
  lemma ModifierLaw(cfg: Config, s: Core, snap: Snapshot, c: nat, x: int)
    requires Inv(cfg, s) && |cfg.modifiers| > 0 && c < |cfg.contexts|
    requires SlotOf(cfg.ContextIds(), s.modifiers[0].contextId) == c && IsContext(cfg, s, snap, c, x)
    ensures var (m, mod) := (s.modifiers[0], Mod1(cfg, s, snap));
            mod.cap == Eval(m.curve, Axis0, x) && mod.offset == Eval(m.curve, Axis1, x) &&
            (mod.active <==> (Eval(m.curve, Axis1, x) != 0 || Eval(m.curve, Axis0, x) < 255)) &&
            TripOffset(s, mod) == (if m.stages % 2 == 1 then Eval(m.curve, Axis1, x) else 0)
  {
    assert Contexts1(cfg, s, snap)[c] == ContextStep(s.contexts[c], cfg.contexts[c], snap);
  }

  /** Without a modifier nothing is shifted and nothing is capped. */
  lemma NoModifier(cfg: Config, s: Core, snap: Snapshot, a: nat)
    requires Inv(cfg, s) && |cfg.modifiers| == 0 && a < |cfg.actuators|
    ensures TripOffset(s, Mod1(cfg, s, snap)) == 0
    ensures Command(cfg, s, snap, a).demand == Arb(cfg, Zones1(cfg, s, snap), a)
  {
  }

  // ----- Severity, the cap and the flags

  /** A zone that drives actuator a has an active trip of at least this severity. */
  ghost predicate SevereOn(cfg: Config, zones: seq<ZoneRt>, a: nat, severity: u8)
    requires |zones| == |cfg.zones| && a < |cfg.actuators|
  {
    exists z, t :: 0 <= z < |cfg.zones| && Drives(cfg, z, a) && 0 <= t < |cfg.zones[z].trips| && t in zones[z].mask &&
      severity <= cfg.zones[z].trips[t].severity
  }

  lemma SeverityMeans(cfg: Config, zones: seq<ZoneRt>, a: nat, severity: u8)
    requires |zones| == |cfg.zones| && a < |cfg.actuators| && severity > 0
    ensures Sev(cfg, zones, a) >= severity <==> SevereOn(cfg, zones, a, severity)
  {
    SeverityIsMax(cfg, zones, a, |zones|);
    if Sev(cfg, zones, a) >= severity {
      var z :| 0 <= z < |zones| && Drives(cfg, z, a) && ZoneSeverity(cfg.zones[z], zones[z]) == Sev(cfg, zones, a);
      var t :| 0 <= t < |cfg.zones[z].trips| && t in zones[z].mask &&
        cfg.zones[z].trips[t].severity == ZoneSeverity(cfg.zones[z], zones[z]);
    }
  }

  /** The final stage is asked for the arbitrated demand, cut to an evaluated cap below pwm_max when the modifier has
      its cap stage and no driving zone is CRITICAL. */
  lemma CappedDemand(cfg: Config, s: Core, snap: Snapshot, c: nat, x: int, a: nat)
    requires Inv(cfg, s) && |cfg.modifiers| > 0 && c < |cfg.contexts| && a < |cfg.actuators|
    requires SlotOf(cfg.ContextIds(), s.modifiers[0].contextId) == c && IsContext(cfg, s, snap, c, x)
    ensures var (zones, cap) := (Zones1(cfg, s, snap), Eval(s.modifiers[0].curve, Axis0, x));
            Command(cfg, s, snap, a).demand ==
              if cfg.modifiers[0].stages / 2 % 2 == 1 && cap < cfg.actuators[a].drive.pwmMax &&
                 !SevereOn(cfg, zones, a, TRIP_CRITICAL)
              then Min(Arb(cfg, zones, a), cap) else Arb(cfg, zones, a)
  {
    ModifierLaw(cfg, s, snap, c, x);
    SeverityMeans(cfg, Zones1(cfg, s, snap), a, TRIP_CRITICAL);
    CapInByte(cfg, s, x);
  }

  lemma CapInByte(cfg: Config, s: Core, x: int)
    requires Inv(cfg, s) && |cfg.modifiers| > 0
    ensures 0 <= Eval(s.modifiers[0].curve, Axis0, x) <= 255
  {
    KnotsCoverCurve(cfg, Trips(s), Setpoints(s), s.modifiers[0], x);
  }

  /** An enabled detector in a fault state whose configured action is one of these. */
  ghost predicate Acting(fc: DetectorCfg, f: Fsm, actions: set<u8>) {
    fc.enabled && f.state != Normal && fc.action in actions
  }

  ghost predicate StallActs(cfg: Config, t: Core, a: nat, actions: set<u8>)
    requires Sized(cfg, t) && a < |cfg.actuators|
  {
    Acting(cfg.stall, t.stall[a].det.fsm, actions)
  }

  ghost predicate RunawayActs(cfg: Config, t: Core, a: nat, actions: set<u8>)
    requires Sized(cfg, t) && a < |cfg.actuators|
  {
    exists z :: 0 <= z < |cfg.zones| && Drives(cfg, z, a) && Acting(cfg.runaway, t.runaway[z].det.fsm, actions)
  }

  ghost predicate StuckActs(cfg: Config, t: Core, a: nat, actions: set<u8>)
    requires Sized(cfg, t) && a < |cfg.actuators|
  {
    exists z, i :: 0 <= z < |cfg.zones| && 0 <= i < |cfg.sensors| && Drives(cfg, z, a) &&
      cfg.sensors[i].id in cfg.zones[z].sensorIds && Acting(cfg.stuck, t.stuck[i].det.fsm, actions)
  }

  ghost predicate StaleActs(cfg: Config, t: Core, actions: set<u8>)
    requires Sized(cfg, t)
  {
    exists c :: 0 <= c < |cfg.contexts| && Acting(cfg.stale, t.stale[c].fsm, actions)
  }

  /** Some detector that concerns actuator a is acting in state t: its own stall detector, the runaway detector of a
      zone that drives it, the stuck-sensor detector of a sensor of such a zone, or any stale-context detector. */
  ghost predicate ActingOn(cfg: Config, t: Core, a: nat, actions: set<u8>)
    requires Sized(cfg, t) && a < |cfg.actuators|
  {
    StallActs(cfg, t, a, actions) || RunawayActs(cfg, t, a, actions) || StuckActs(cfg, t, a, actions) ||
    StaleActs(cfg, t, actions)
  }

  /** FORCE_PWM_MAX_UNTIL_RECOVERED, FORCE_PWM_MAX_AND_LATCH and REQUEST_SHUTDOWN. */
  const FORCING: set<u8> := {3, 4, 5}
  const SHUTTING: set<u8> := {5}

  lemma ActingMeans(fc: DetectorCfg, f: Fsm)
    ensures Forcing(fc, f) == Acting(fc, f, FORCING) && Requesting(fc, f) == Acting(fc, f, SHUTTING)
  {
  }

  lemma ForcesMeans(cfg: Config, t: Core, a: nat)
    requires Sized(cfg, t) && a < |cfg.actuators|
    ensures FaultForces(cfg, a, t.stall, t.stuck, t.runaway, t.stale) <==> ActingOn(cfg, t, a, FORCING)
  {
    forall fc, f ensures Forcing(fc, f) == Acting(fc, f, FORCING) { ActingMeans(fc, f); }
  }

  /** The upward slew bypass is set exactly for a CRITICAL or SHUTDOWN trip of a driving zone or a forcing fault, the
      force to pwm_max exactly for a SHUTDOWN trip or a forcing fault. */
  lemma FlagsLaw(cfg: Config, s: Core, snap: Snapshot, a: nat)
    requires Inv(cfg, s) && Wellformed(cfg, snap) && a < |cfg.actuators|
    ensures var (t, inp) := (Regulator.Tick(cfg, s, snap), Command(cfg, s, snap, a));
            Sized(cfg, t) &&
            (inp.slewUp <==> SevereOn(cfg, t.zones, a, TRIP_CRITICAL) || ActingOn(cfg, t, a, FORCING)) &&
            (inp.forceMax <==> SevereOn(cfg, t.zones, a, TRIP_SHUTDOWN) || ActingOn(cfg, t, a, FORCING))
  {
    SeverityMeans(cfg, Zones1(cfg, s, snap), a, TRIP_CRITICAL);
    SeverityMeans(cfg, Zones1(cfg, s, snap), a, TRIP_SHUTDOWN);
    TickKeepsInv(cfg, s, snap);
    ForcesMeans(cfg, Regulator.Tick(cfg, s, snap), a);
  }

  /** A runaway detector of a driving zone has latched and stayed active long enough to escalate. */
  ghost predicate EscalatedOn(cfg: Config, t: Core, a: nat)
    requires Sized(cfg, t) && a < |cfg.actuators|
  {
    exists z :: 0 <= z < |cfg.zones| && Drives(cfg, z, a) && cfg.runaway.enabled && Escalates(cfg.runaway, t.runaway[z])
  }

  lemma ShutdownMeans(cfg: Config, t: Core, a: nat)
    requires Sized(cfg, t) && a < |cfg.actuators|
    ensures FaultShutdown(cfg, a, t.stall, t.stuck, t.runaway, t.stale)
      <==> ActingOn(cfg, t, a, SHUTTING) || EscalatedOn(cfg, t, a)
  {
    forall fc, f ensures Requesting(fc, f) == Acting(fc, f, SHUTTING) { ActingMeans(fc, f); }
  }

  /** Shutdown of an actuator is requested exactly by a detector with that action or by an escalated runaway. */
  lemma ShutdownLaw(cfg: Config, s: Core, snap: Snapshot, a: nat)
    requires Inv(cfg, s) && Wellformed(cfg, snap) && a < |cfg.actuators|
    ensures var t := Regulator.Tick(cfg, s, snap);
            Sized(cfg, t) &&
            (Command(cfg, s, snap, a).shutdown <==> ActingOn(cfg, t, a, SHUTTING) || EscalatedOn(cfg, t, a))
  {
    TickKeepsInv(cfg, s, snap);
    ShutdownMeans(cfg, Regulator.Tick(cfg, s, snap), a);
  }

  /** A tick latches the shutdown request exactly when a zone has an active SHUTDOWN trip or some actuator is shut
      down. */
  lemma LatchLaw(cfg: Config, s: Core, snap: Snapshot)
    requires Inv(cfg, s)
    ensures ShutdownSeen(cfg, s, snap) <==>
      ((exists z, t :: 0 <= z < |cfg.zones| && 0 <= t < |cfg.zones[z].trips| && t in Zones1(cfg, s, snap)[z].mask &&
                       cfg.zones[z].trips[t].severity >= TRIP_SHUTDOWN) ||
       exists a :: 0 <= a < |cfg.actuators| && Command(cfg, s, snap, a).shutdown)
  {
    forall z | 0 <= z < |cfg.zones|
      ensures ZoneSeverity(cfg.zones[z], Zones1(cfg, s, snap)[z]) >= TRIP_SHUTDOWN <==>
              SevereZone(cfg.zones[z], Zones1(cfg, s, snap)[z])
    {
      SevereZoneMeans(cfg.zones[z], Zones1(cfg, s, snap)[z]);
    }
  }

  predicate SevereZone(z: ZoneCfg, zr: ZoneRt) {
    exists t :: 0 <= t < |z.trips| && t in zr.mask && z.trips[t].severity >= TRIP_SHUTDOWN
  }

  lemma SevereZoneMeans(z: ZoneCfg, zr: ZoneRt)
    ensures ZoneSeverity(z, zr) >= TRIP_SHUTDOWN <==> SevereZone(z, zr)
  {
  }

  // ----- Before the first tick

  /** Initialisation takes gains, setpoints, trips and curves from the configuration; no filter has a value, no trip is
      active, no detector has sensed anything, and every actuator is off. */
  lemma StartLaw(cfg: Config)
    ensures var s := Init(cfg);
            Sized(cfg, s) && s.modifiers == cfg.modifiers && !s.shutdownLatched &&
            (forall i :: 0 <= i < |s.filters| ==> !s.filters[i].valid && !s.filters[i].initialized) &&
            (forall c :: 0 <= c < |s.contexts| ==> !s.contexts[c].everValid && !s.contexts[c].filter.valid) &&
            (forall a :: 0 <= a < |s.acts| ==> s.acts[a].duty == 0 && s.stall[a].det.fsm.state == Normal) &&
            (forall i :: 0 <= i < |s.stuck| ==> s.stuck[i].det.fsm.state == Normal) &&
            (forall c :: 0 <= c < |s.stale| ==> s.stale[c].fsm.state == Normal) &&
            forall z :: 0 <= z < |s.zones| ==>
              s.runaway[z].det.fsm.state == Normal && ZoneStarts(cfg.zones[z], s.zones[z])
  {
  }

  predicate ZoneStarts(z: ZoneCfg, zr: ZoneRt) {
    zr.mask == {} && zr.cooling == 0 && !zr.pid.initialized && zr.pid.integral == 0 && zr.gains == z.pid.gains &&
    zr.setpoint == z.pid.setpoint && zr.trips == z.trips
  }

  // ----- Samples and sensor slots

  /** The target of a sample is configured. */
  predicate Known(cfg: Config, smp: Sample) {
    match smp.kind
    case TempMc => smp.id in cfg.SensorIds()
    case TachRpm => smp.id in cfg.ActuatorIds()
    case ContextI32 => smp.id in cfg.ContextIds()
    case OtherKind => false
  }

  /** A snapshot is accepted exactly when it has at most 16 samples, all of known targets, no two of one target. */
  lemma AcceptedLaw(cfg: Config, snap: Snapshot)
    ensures Wellformed(cfg, snap) <==>
      (|snap.samples| <= 16 && (forall i :: 0 <= i < |snap.samples| ==> Known(cfg, snap.samples[i])) &&
       forall i, j :: 0 <= i < j < |snap.samples| ==>
         snap.samples[i].kind != snap.samples[j].kind || snap.samples[i].id != snap.samples[j].id)
    ensures Preflight(cfg, snap) ==
      if |snap.samples| > 16 then NoSpace else if Wellformed(cfg, snap) then Status.Ok else InvalidArg
  {
    forall i | 0 <= i < |snap.samples|
      ensures SampleSlot(cfg, snap.samples[i]) >= 0 <==> Known(cfg, snap.samples[i])
    { }
    forall i, j | 0 <= i < j < |snap.samples| && Known(cfg, snap.samples[i]) && Known(cfg, snap.samples[j]) &&
                  snap.samples[i].kind == snap.samples[j].kind
      ensures SampleSlot(cfg, snap.samples[i]) == SampleSlot(cfg, snap.samples[j]) <==>
              snap.samples[i].id == snap.samples[j].id
    {
      SameTarget(cfg, snap.samples[i], snap.samples[j]);
    }
  }

  lemma SameTarget(cfg: Config, x: Sample, y: Sample)
    requires Known(cfg, x) && Known(cfg, y) && x.kind == y.kind
    ensures SampleSlot(cfg, x) == SampleSlot(cfg, y) <==> x.id == y.id
  {
  }

  /** A target reads its sample in an accepted snapshot, and nothing when it has none. */
  lemma {:induction false} LookupLaw(samples: seq<Sample>, kind: Kind, id: u16, j: nat)
    requires j < |samples| && samples[j].kind == kind && samples[j].id == id
    requires forall i :: 0 <= i < j ==> samples[i].kind != kind || samples[i].id != id
    ensures Lookup(samples, kind, id) == Filter.Sample(samples[j].value, samples[j].valid)
  {
    if j > 0 { LookupLaw(samples[1..], kind, id, j - 1); }
  }

  lemma {:induction false} LookupNothing(samples: seq<Sample>, kind: Kind, id: u16)
    requires forall i :: 0 <= i < |samples| ==> samples[i].kind != kind || samples[i].id != id
    ensures Lookup(samples, kind, id) == Filter.Sample(0, false)
  {
    if |samples| > 0 { LookupNothing(samples[1..], kind, id); }
  }

  /** Slot k of a zone is the filtered value of its sensor with its weight; it is usable unless the value is invalid or
      the sensor's stuck detector is in a fault state with the zone-fallback action, which the first slot of a sensor
      alone obeys. */
  lemma SlotLaw(cfg: Config, s: Core, snap: Snapshot, z: nat, k: nat, i: nat)
    requires ValidConfig(cfg) && Inv(cfg, s) && z < |cfg.zones| && k < |cfg.zones[z].sensorIds| && i < |cfg.sensors|
    requires SlotOf(cfg.SensorIds(), cfg.zones[z].sensorIds[k]) == i
    ensures var (slot, f) := (Slots(cfg, s, snap, z)[k], Filters1(cfg, s, snap)[i]);
            slot.value == f.value && k < |cfg.zones[z].weights| && slot.weight == cfg.zones[z].weights[k] &&
            (slot.valid <==> (f.valid && !(Acting(cfg.stuck, Stuck1(cfg, s, snap)[i].det.fsm, {2}) &&
                                           cfg.zones[z].sensorIds[k] !in cfg.zones[z].sensorIds[..k])))
  {
    assert ZoneValid(cfg, cfg.zones[z]);
    FirstSlot(cfg.zones[z].sensorIds, k);
  }

  lemma {:induction false} FirstSlot(ids: seq<u16>, k: nat)
    requires k < |ids|
    ensures SlotOf(ids, ids[k]) == k <==> ids[k] !in ids[..k]
  {
    var j := SlotOf(ids, ids[k]);
    if j < k { assert ids[..k][j] == ids[k]; }
  }

  /** The temperature a zone acts on is the aggregate of its slots by its configured mode. */
  lemma ZoneTemperature(cfg: Config, s: Core, snap: Snapshot, z: nat)
    requires Inv(cfg, s) && z < |cfg.zones| && cfg.zones[z].governor in {GOVERNOR_STEP_WISE, GOVERNOR_PID}
    ensures var (zc, t) := (cfg.zones[z], Zone1(cfg, s, snap, z));
            Zone.Reading(t.temp, t.aggValid) == Zone.Aggregate(zc.aggregation, Slots(cfg, s, snap, z), zc.fallbackMc)
  {
  }

  /** The sample of a runaway detector: the zone's temperature and the highest duty asked of its actuators. */
  lemma RunawaySampleLaw(cfg: Config, s: Core, snap: Snapshot, z: nat, duties: seq<u8>)
    requires Inv(cfg, s) && z < |cfg.zones| && |duties| == |cfg.actuators|
    requires forall a :: 0 <= a < |duties| ==> duties[a] == Command(cfg, s, snap, a).demand
    ensures var (zones, mod) := (Zones1(cfg, s, snap), Mod1(cfg, s, snap));
            var x := RunawaySample(cfg, zones, mod, z);
            x.temp == zones[z].temp && HighestOf(cfg, duties, cfg.zones[z].actuatorIds, x.pwm)
  {
    ZonePwmIs(cfg, Zones1(cfg, s, snap), Mod1(cfg, s, snap), cfg.zones[z].actuatorIds, duties);
  }

  /** Actuator a has one of these ids. */
  predicate Named(cfg: Config, ids: seq<u16>, a: nat)
    requires a < |cfg.actuators|
  {
    exists k :: 0 <= k < |ids| && SlotOf(cfg.ActuatorIds(), ids[k]) == a
  }

  /** The highest of the duties of the actuators with these ids. */
  ghost predicate HighestOf(cfg: Config, duties: seq<u8>, ids: seq<u16>, pwm: int)
    requires |duties| == |cfg.actuators|
  {
    (forall a :: 0 <= a < |duties| && Named(cfg, ids, a) ==> duties[a] <= pwm) &&
    (pwm == 0 || exists a :: 0 <= a < |duties| && Named(cfg, ids, a) && duties[a] == pwm)
  }

  lemma NamedSnoc(cfg: Config, ids: seq<u16>, a: nat)
    requires a < |cfg.actuators| && |ids| > 0
    ensures Named(cfg, ids, a) <==>
      (Named(cfg, ids[..|ids| - 1], a) || SlotOf(cfg.ActuatorIds(), ids[|ids| - 1]) == a)
  {
    var before := ids[..|ids| - 1];
    if Named(cfg, before, a) {
      var k :| 0 <= k < |before| && SlotOf(cfg.ActuatorIds(), before[k]) == a;
      assert ids[k] == before[k];
    }
    if Named(cfg, ids, a) {
      var k :| 0 <= k < |ids| && SlotOf(cfg.ActuatorIds(), ids[k]) == a;
      if k < |before| { assert before[k] == ids[k]; }
    }
  }

  lemma {:induction false} ZonePwmIs(cfg: Config, zones: seq<ZoneRt>, mod: ModEval, ids: seq<u16>, duties: seq<u8>)
    requires |zones| == |cfg.zones| && |duties| == |cfg.actuators|
    requires forall a :: 0 <= a < |duties| ==> duties[a] == Capped(cfg, zones, mod, a)
    ensures HighestOf(cfg, duties, ids, ZonePwm(cfg, zones, mod, ids))
  {
    if |ids| > 0 {
      var before := ids[..|ids| - 1];
      ZonePwmIs(cfg, zones, mod, before, duties);
      forall a | 0 <= a < |duties|
        ensures Named(cfg, ids, a) <==> (Named(cfg, before, a) || SlotOf(cfg.ActuatorIds(), ids[|ids| - 1]) == a)
      {
        NamedSnoc(cfg, ids, a);
      }
    }
  }
}
