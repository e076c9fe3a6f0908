/** The regulator object: one mutable state that ticks and commands update in place
    (core/thermal_core.c:943-1083, 1399-2492). */
module ThermalCore {
  import opened CInt
  import opened Curve
  import opened Governor
  import opened Config
  import opened Regulator
  import opened Invariants
  import Actuator
  import Arbitrator
  import Detectors
  import Fault
  import Filter
  import Pid
  import Runaway
  import Validation
  import Wire
  import Zone

  // ----- Reading a snapshot

  method FindSample(samples: seq<Sample>, kind: Kind, id: u16) returns (smp: Filter.Sample)
    ensures smp == Lookup(samples, kind, id)
  {
    for k := 0 to |samples|
      invariant Lookup(samples, kind, id) == Lookup(samples[k..], kind, id)
    {
      if samples[k].kind == kind && samples[k].id == id { return Filter.Sample(samples[k].value, samples[k].valid); }
    }
    return Filter.Sample(0, false);
  }

  /** The slot a sample names; -1 for an unknown kind or target. */
  method FindTarget(cfg: Config, smp: Sample) returns (slot: int)
    ensures slot == SampleSlot(cfg, smp)
  {
    match smp.kind {
      case TempMc => slot := FindSlot(cfg.SensorIds(), smp.id);
      case TachRpm => slot := FindSlot(cfg.ActuatorIds(), smp.id);
      case ContextI32 => slot := FindSlot(cfg.ContextIds(), smp.id);
      case OtherKind => slot := -1;
    }
  }

  ghost predicate Targets(cfg: Config, smp: Sample, target: (Kind, int)) {
    target == (smp.kind, SampleSlot(cfg, smp)) && target.1 >= 0
  }

  /** preflight_snapshot: every sample has a known target and no target occurs twice. */
  method CheckSnapshot(cfg: Config, snap: Snapshot) returns (st: Status)
    ensures st == Preflight(cfg, snap)
  {
    if |snap.samples| > MAX_SAMPLES { return NoSpace; }
    var seen: seq<(Kind, int)> := [];
    for i := 0 to |snap.samples|
      invariant |seen| == i && forall j :: 0 <= j < i ==> Targets(cfg, snap.samples[j], seen[j])
      invariant forall j, k :: 0 <= j < k < i ==> seen[j] != seen[k]
    {
      var smp := snap.samples[i];
      var slot := FindTarget(cfg, smp);
      if slot < 0 { return InvalidArg; }
      for k := 0 to i
        invariant forall j :: 0 <= j < k ==> seen[j] != (smp.kind, slot)
      {
        if seen[k] == (smp.kind, slot) {
          assert snap.samples[k].kind == snap.samples[i].kind;
          return InvalidArg;
        }
      }
      seen := seen + [(smp.kind, slot)];
    }
    forall i, j | 0 <= i < j < |snap.samples| && snap.samples[i].kind == snap.samples[j].kind
      ensures SampleSlot(cfg, snap.samples[i]) != SampleSlot(cfg, snap.samples[j])
    {
      assert seen[i] != seen[j];
    }
    return Ok;
  }

  // ----- One zone

  /** The governor of one zone on the offset-adjusted trip table. */
  method Govern(zc: ZoneCfg, zr: ZoneRt, reading: Zone.Reading, offset: int, now: u32) returns (t: ZoneRt)
    ensures t == ZoneStep(zc, zr, reading, offset, now)
  {
    t := zr.(temp := reading.tempMc, aggValid := reading.valid);
    var trips := AdjustTrips(zr.trips, offset);
    if zc.governor == GOVERNOR_STEP_WISE {
      var mask, cooling := StepWise(reading.tempMc, trips, zr.mask);
      t := t.(mask := mask, cooling := cooling, pwm := 0, effSetpoint := 0);
    } else if zc.governor == GOVERNOR_PID && PidLimits(zc).Valid() {
      var sp := WrapI32(zr.setpoint + offset);
      var (pid, out) := Pid.Step(zr.pid, zr.gains, Pid.Input(sp, reading.tempMc, now), PidLimits(zc));
      var mask, _ := StepWise(reading.tempMc, trips, zr.mask);
      var floor := SafetyCooling(trips, mask);
      t := t.(mask := mask, cooling := floor, pid := pid, pwm := out.output, effSetpoint := sp);
    }
  }

  method AdjustTrips(trips: seq<Trip>, offset: int) returns (r: seq<Trip>)
    ensures r == EffectiveTrips(trips, offset)
  {
    r := trips;
    if offset != 0 {
      for i := 0 to |trips|
        invariant |r| == |trips|
        invariant forall j :: 0 <= j < i ==> r[j] == EffectiveTrips(trips, offset)[j]
        invariant forall j :: i <= j < |trips| ==> r[j] == trips[j]
      {
        r := r[i := r[i].(tempMc := WrapI32(r[i].tempMc + offset))];
      }
    }
  }

  /** The PID safety floor: the highest cooling state over active CRITICAL and SHUTDOWN trips. */
  method SafetyCooling(trips: seq<Trip>, mask: set<nat>) returns (cooling: u8)
    ensures cooling == MaxCooling(trips, SafetyMask(trips, mask), |trips|)
  {
    cooling := 0;
    for k := 0 to |trips|
      invariant cooling == MaxCooling(trips, SafetyMask(trips, mask), k)
    {
      if k in mask && SafetyTrip(trips[k]) && trips[k].cooling > cooling { cooling := trips[k].cooling; }
    }
  }

  method ZoneMaxSeverity(zc: ZoneCfg, zr: ZoneRt) returns (sev: u8)
    ensures sev == ZoneSeverity(zc, zr)
  {
    sev := 0;
    for t := 0 to |zc.trips|
      invariant sev == MaxSeverity(zc.trips, zr.mask, t)
    {
      if t in zr.mask && zc.trips[t].severity > sev { sev := zc.trips[t].severity; }
    }
  }

  /** actuator_demand of either governor. */
  method DemandOf(zc: ZoneCfg, zr: ZoneRt, ac: ActuatorCfg) returns (d: u8)
    ensures d == Demand(zc, zr, ac)
  {
    var floor := StatePwm(ac, zr.cooling);
    if zc.governor != GOVERNOR_PID { return floor; }
    d := zr.pwm;
    if |ac.linearization| > 0 && Ascending(ac.linearization) {
      var mapped := EvalAxis(ac.linearization, Axis0, d);
      if mapped < 0 { mapped := 0; }
      if mapped > 255 { mapped := 255; }
      d := mapped;
    }
    if floor > d { d := floor; }
  }

  // ----- Arbitration

  /** One actuator: the highest demand of the zones that drive it. */
  method Arbitrate(cfg: Config, zones: seq<ZoneRt>, a: nat) returns (demand: u8)
    requires |cfg.zones| == |zones| && a < |cfg.actuators|
    ensures demand == Arb(cfg, zones, a)
  {
    var demands: seq<u8> := [];
    for z := 0 to |zones|
      invariant forall i :: 0 <= i < |demands| ==> Asked(cfg, zones, a, z, demands[i])
      invariant forall y :: 0 <= y < z && Drives(cfg, y, a) ==>
        Demand(cfg.zones[y], zones[y], cfg.actuators[a]) in demands
    {
      if cfg.actuators[a].id in cfg.zones[z].actuatorIds {
        var d := DemandOf(cfg.zones[z], zones[z], cfg.actuators[a]);
        demands := demands + [d];
      }
    }
    demand := Arbitrator.MaxWins(demands);
    var best := Arbitrated(cfg, zones, a, |zones|);
    assert best == 0 || best in demands;
    assert demand == 0 || Asked(cfg, zones, a, |zones|, demand);
  }

  /** Demand d comes from one of the first n zones that drive actuator a. */
  ghost predicate Asked(cfg: Config, zones: seq<ZoneRt>, a: nat, n: nat, d: u8)
    requires n <= |cfg.zones| == |zones| && a < |cfg.actuators|
  {
    exists z :: 0 <= z < n && Drives(cfg, z, a) && Demand(cfg.zones[z], zones[z], cfg.actuators[a]) == d
  }

  method ActuatorMaxSeverity(cfg: Config, zones: seq<ZoneRt>, a: nat) returns (sev: u8)
    requires |cfg.zones| == |zones| && a < |cfg.actuators|
    ensures sev == Sev(cfg, zones, a)
  {
    sev := 0;
    for z := 0 to |zones|
      invariant sev == ActuatorSeverity(cfg, zones, a, z)
    {
      if cfg.actuators[a].id in cfg.zones[z].actuatorIds {
        var v := ZoneMaxSeverity(cfg.zones[z], zones[z]);
        if v > sev { sev := v; }
      }
    }
  }

  /** Steps 7 and 8 for one actuator: arbitration, then the acoustic cap unless CRITICAL. */
  method CapDemand(cfg: Config, zones: seq<ZoneRt>, mod: ModEval, a: nat) returns (demand: u8, sev: u8)
    requires |cfg.zones| == |zones| && a < |cfg.actuators|
    ensures demand == Demands(cfg, zones, mod)[a] && sev == Severities(cfg, zones)[a]
  {
    demand := Arbitrate(cfg, zones, a);
    sev := ActuatorMaxSeverity(cfg, zones, a);
    if sev < TRIP_CRITICAL && |cfg.modifiers| > 0 && mod.active && cfg.modifiers[0].PostGovernor() {
      if 0 <= mod.cap < cfg.actuators[a].drive.pwmMax && mod.cap < demand { demand := mod.cap; }
    }
  }

  /** What steps 7 and 8 leave for every actuator. */
  function Demands(cfg: Config, zones: seq<ZoneRt>, mod: ModEval): (r: seq<u8>)
    requires |cfg.zones| == |zones|
    ensures |r| == |cfg.actuators|
  {
    seq(|cfg.actuators|, a requires 0 <= a < |cfg.actuators| && |cfg.zones| == |zones| => Capped(cfg, zones, mod, a))
  }

  function Severities(cfg: Config, zones: seq<ZoneRt>): (r: seq<u8>)
    requires |cfg.zones| == |zones|
    ensures |r| == |cfg.actuators|
  {
    seq(|cfg.actuators|, a requires 0 <= a < |cfg.actuators| && |cfg.zones| == |zones| => Sev(cfg, zones, a))
  }

  method ArbitrateAll(cfg: Config, zones: seq<ZoneRt>, mod: ModEval) returns (demands: seq<u8>, sevs: seq<u8>)
    requires |cfg.zones| == |zones|
    ensures demands == Demands(cfg, zones, mod) && sevs == Severities(cfg, zones)
  {
    demands, sevs := [], [];
    for a := 0 to |cfg.actuators|
      invariant demands == Demands(cfg, zones, mod)[..a] && sevs == Severities(cfg, zones)[..a]
    {
      var demand, sev := CapDemand(cfg, zones, mod, a);
      demands, sevs := demands + [demand], sevs + [sev];
    }
  }

  /** The highest demand on the actuators of one zone. */
  method ZoneMaxDemand(cfg: Config, zones: seq<ZoneRt>, mod: ModEval, demands: seq<u8>, ids: seq<u16>) returns (pwm: u8)
    requires |cfg.zones| == |zones| && demands == Demands(cfg, zones, mod)
    ensures pwm == ZonePwm(cfg, zones, mod, ids)
  {
    var actuatorIds := cfg.ActuatorIds();
    pwm := 0;
    for k := 0 to |ids|
      invariant pwm == ZonePwm(cfg, zones, mod, ids[..k])
    {
      var slot := FindSlot(actuatorIds, ids[k]);
      assert ids[..k + 1][..k] == ids[..k];
      if slot >= 0 && demands[slot] > pwm { pwm := demands[slot]; }
    }
    assert ids[..|ids|] == ids;
  }

  // ----- From detectors to actuators

  /** Some hit reaches actuator a: its own stall detector, a runaway or stuck-sensor detector of a zone
      driving it, or any stale-context detector. */
  ghost predicate Hit(cfg: Config, a: nat, stall: seq<bool>, stuck: seq<bool>, runaway: seq<bool>, stale: seq<bool>)
    requires a < |cfg.actuators| == |stall| && |stuck| == |cfg.sensors| && |runaway| == |cfg.zones|
  {
    stall[a] ||
    (exists z :: 0 <= z < |cfg.zones| && Drives(cfg, z, a) && runaway[z]) ||
    (exists c :: 0 <= c < |stale| && stale[c]) ||
    (exists z, i :: 0 <= z < |cfg.zones| && 0 <= i < |stuck| && Drives(cfg, z, a) &&
      cfg.sensors[i].id in cfg.zones[z].sensorIds && stuck[i])
  }

  /** Raises the flag of every actuator of zone z. */
  method MarkZone(cfg: Config, z: nat, flags: seq<bool>) returns (r: seq<bool>)
    requires Distinct(cfg.ActuatorIds()) && z < |cfg.zones| && |flags| == |cfg.actuators|
    ensures |r| == |flags|
    ensures forall a :: 0 <= a < |r| ==> (r[a] <==> flags[a] || Drives(cfg, z, a))
  {
    var ids, actuatorIds := cfg.zones[z].actuatorIds, cfg.ActuatorIds();
    r := flags;
    for k := 0 to |ids|
      invariant |r| == |flags|
      invariant forall a :: 0 <= a < |r| ==> (r[a] <==> flags[a] || cfg.actuators[a].id in ids[..k])
    {
      var slot := FindSlot(actuatorIds, ids[k]);
      assert ids[..k + 1] == ids[..k] + [ids[k]];
      if slot >= 0 { r := r[slot := true]; }
      forall a | 0 <= a < |r| ensures cfg.actuators[a].id == ids[k] <==> a == slot {
        assert actuatorIds[a] == cfg.actuators[a].id;
      }
    }
    assert ids[..|ids|] == ids;
  }

  /** The zones reading a stuck sensor pass its hit on to their actuators. */
  method MarkSensor(cfg: Config, i: nat, flags: seq<bool>) returns (r: seq<bool>)
    requires Distinct(cfg.ActuatorIds()) && i < |cfg.sensors| && |flags| == |cfg.actuators|
    ensures |r| == |flags|
    ensures forall a :: 0 <= a < |r| ==> (r[a] <==> flags[a] || ReadBy(cfg, i, a, |cfg.zones|))
  {
    r := flags;
    for z := 0 to |cfg.zones|
      invariant |r| == |flags|
      invariant forall a :: 0 <= a < |r| ==> (r[a] <==> flags[a] || ReadBy(cfg, i, a, z))
    {
      if cfg.sensors[i].id in cfg.zones[z].sensorIds { r := MarkZone(cfg, z, r); }
    }
  }

  /** One of the first n zones reads sensor i and drives actuator a. */
  ghost predicate ReadBy(cfg: Config, i: nat, a: nat, n: nat)
    requires i < |cfg.sensors| && a < |cfg.actuators| && n <= |cfg.zones|
  {
    exists z :: 0 <= z < n && Drives(cfg, z, a) && cfg.sensors[i].id in cfg.zones[z].sensorIds
  }

  /** Action dispatch of step 9: every hit raises the flags of the actuators it reaches. */
  method Dispatch(cfg: Config, stall: seq<bool>, stuck: seq<bool>, runaway: seq<bool>, stale: seq<bool>)
    returns (flags: seq<bool>)
    requires Distinct(cfg.ActuatorIds())
    requires |stall| == |cfg.actuators| && |stuck| == |cfg.sensors| && |runaway| == |cfg.zones|
    ensures |flags| == |cfg.actuators|
    ensures forall a :: 0 <= a < |flags| ==> (flags[a] <==> Hit(cfg, a, stall, stuck, runaway, stale))
  {
    flags := stall;
    for z := 0 to |cfg.zones|
      invariant |flags| == |cfg.actuators|
      invariant forall a :: 0 <= a < |flags| ==>
        (flags[a] <==> stall[a] || exists y :: 0 <= y < z && Drives(cfg, y, a) && runaway[y])
    {
      if runaway[z] { flags := MarkZone(cfg, z, flags); }
    }
    ghost var afterRunaway := flags;
    for c := 0 to |stale|
      invariant |flags| == |cfg.actuators|
      invariant forall a :: 0 <= a < |flags| ==> (flags[a] <==> afterRunaway[a] || exists d :: 0 <= d < c && stale[d])
    {
      if stale[c] { flags := seq(|cfg.actuators|, _ => true); }
    }
    ghost var afterStale := flags;
    for i := 0 to |stuck|
      invariant |flags| == |cfg.actuators|
      invariant forall a :: 0 <= a < |flags| ==>
        (flags[a] <==> afterStale[a] || exists j :: 0 <= j < i && stuck[j] && ReadBy(cfg, j, a, |cfg.zones|))
    {
      if stuck[i] { flags := MarkSensor(cfg, i, flags); }
    }
  }

  // What each kind of detector contributes: forcing hits, and shutdown hits.

  function Forcings(fc: Fault.DetectorCfg, fsms: seq<Fault.Fsm>): (r: seq<bool>)
    ensures |r| == |fsms| && forall i :: 0 <= i < |r| ==> r[i] == Forcing(fc, fsms[i])
  {
    seq(|fsms|, i requires 0 <= i < |fsms| => Forcing(fc, fsms[i]))
  }

  function Requests(fc: Fault.DetectorCfg, fsms: seq<Fault.Fsm>): (r: seq<bool>)
    ensures |r| == |fsms| && forall i :: 0 <= i < |r| ==> r[i] == Requesting(fc, fsms[i])
  {
    seq(|fsms|, i requires 0 <= i < |fsms| => Requesting(fc, fsms[i]))
  }

  function RunawayRequests(fc: Fault.DetectorCfg, t: seq<RunawayRt>): (r: seq<bool>)
    ensures |r| == |t|
    ensures forall i :: 0 <= i < |r| ==> r[i] == (Requesting(fc, t[i].det.fsm) || (fc.enabled && Escalates(fc, t[i])))
  {
    seq(|t|, i requires 0 <= i < |t| => Requesting(fc, t[i].det.fsm) || (fc.enabled && Escalates(fc, t[i])))
  }

  function StallFsms(t: seq<StallRt>): (r: seq<Fault.Fsm>)
    ensures |r| == |t| && forall i :: 0 <= i < |r| ==> r[i] == t[i].det.fsm
  {
    seq(|t|, i requires 0 <= i < |t| => t[i].det.fsm)
  }

  function StuckFsms(t: seq<StuckRt>): (r: seq<Fault.Fsm>)
    ensures |r| == |t| && forall i :: 0 <= i < |r| ==> r[i] == t[i].det.fsm
  {
    seq(|t|, i requires 0 <= i < |t| => t[i].det.fsm)
  }

  function RunawayFsms(t: seq<RunawayRt>): (r: seq<Fault.Fsm>)
    ensures |r| == |t| && forall i :: 0 <= i < |r| ==> r[i] == t[i].det.fsm
  {
    seq(|t|, i requires 0 <= i < |t| => t[i].det.fsm)
  }

  function StaleFsms(t: seq<Fault.Detector>): (r: seq<Fault.Fsm>)
    ensures |r| == |t| && forall i :: 0 <= i < |r| ==> r[i] == t[i].fsm
  {
    seq(|t|, i requires 0 <= i < |t| => t[i].fsm)
  }

  lemma HitsForce(cfg: Config, a: nat, stall: seq<StallRt>, stuck: seq<StuckRt>, runaway: seq<RunawayRt>,
                  stale: seq<Fault.Detector>)
    requires a < |cfg.actuators| == |stall| && |stuck| == |cfg.sensors| && |runaway| == |cfg.zones| &&
      |stale| == |cfg.contexts|
    ensures Hit(cfg, a, Forcings(cfg.stall, StallFsms(stall)), Forcings(cfg.stuck, StuckFsms(stuck)),
                Forcings(cfg.runaway, RunawayFsms(runaway)), Forcings(cfg.stale, StaleFsms(stale)))
      <==> FaultForces(cfg, a, stall, stuck, runaway, stale)
  {
    var n, t := Forcings(cfg.runaway, RunawayFsms(runaway)), Forcings(cfg.stale, StaleFsms(stale));
    var w := Forcings(cfg.stuck, StuckFsms(stuck));
    assert forall z :: 0 <= z < |runaway| ==> n[z] == Forcing(cfg.runaway, runaway[z].det.fsm);
    assert forall c :: 0 <= c < |stale| ==> t[c] == Forcing(cfg.stale, stale[c].fsm);
    assert forall i :: 0 <= i < |stuck| ==> w[i] == Forcing(cfg.stuck, stuck[i].det.fsm);
  }

  lemma HitsShutDown(cfg: Config, a: nat, stall: seq<StallRt>, stuck: seq<StuckRt>, runaway: seq<RunawayRt>,
                     stale: seq<Fault.Detector>)
    requires a < |cfg.actuators| == |stall| && |stuck| == |cfg.sensors| && |runaway| == |cfg.zones| &&
      |stale| == |cfg.contexts|
    ensures Hit(cfg, a, Requests(cfg.stall, StallFsms(stall)), Requests(cfg.stuck, StuckFsms(stuck)),
                RunawayRequests(cfg.runaway, runaway), Requests(cfg.stale, StaleFsms(stale)))
      <==> FaultShutdown(cfg, a, stall, stuck, runaway, stale)
  {
    var t, w := Requests(cfg.stale, StaleFsms(stale)), Requests(cfg.stuck, StuckFsms(stuck));
    assert forall c :: 0 <= c < |stale| ==> t[c] == Requesting(cfg.stale, stale[c].fsm);
    assert forall i :: 0 <= i < |stuck| ==> w[i] == Requesting(cfg.stuck, stuck[i].det.fsm);
  }

  /** Which actuators a fault forces to the maximum. */
  method ForceFlags(cfg: Config, stall: seq<StallRt>, stuck: seq<StuckRt>, runaway: seq<RunawayRt>,
                    stale: seq<Fault.Detector>)
    returns (flags: seq<bool>)
    requires Distinct(cfg.ActuatorIds())
    requires |stall| == |cfg.actuators| && |stuck| == |cfg.sensors| && |runaway| == |cfg.zones| &&
      |stale| == |cfg.contexts|
    ensures |flags| == |cfg.actuators|
    ensures forall a :: 0 <= a < |flags| ==> flags[a] == FaultForces(cfg, a, stall, stuck, runaway, stale)
  {
    flags := Dispatch(cfg, Forcings(cfg.stall, StallFsms(stall)), Forcings(cfg.stuck, StuckFsms(stuck)),
                      Forcings(cfg.runaway, RunawayFsms(runaway)), Forcings(cfg.stale, StaleFsms(stale)));
    forall a | 0 <= a < |flags| ensures flags[a] == FaultForces(cfg, a, stall, stuck, runaway, stale) {
      HitsForce(cfg, a, stall, stuck, runaway, stale);
    }
  }

  /** Which actuators a fault shuts down. */
  method ShutdownFlags(cfg: Config, stall: seq<StallRt>, stuck: seq<StuckRt>, runaway: seq<RunawayRt>,
                       stale: seq<Fault.Detector>)
    returns (flags: seq<bool>)
    requires Distinct(cfg.ActuatorIds())
    requires |stall| == |cfg.actuators| && |stuck| == |cfg.sensors| && |runaway| == |cfg.zones| &&
      |stale| == |cfg.contexts|
    ensures |flags| == |cfg.actuators|
    ensures forall a :: 0 <= a < |flags| ==> flags[a] == FaultShutdown(cfg, a, stall, stuck, runaway, stale)
  {
    flags := Dispatch(cfg, Requests(cfg.stall, StallFsms(stall)), Requests(cfg.stuck, StuckFsms(stuck)),
                      RunawayRequests(cfg.runaway, runaway), Requests(cfg.stale, StaleFsms(stale)));
    forall a | 0 <= a < |flags| ensures flags[a] == FaultShutdown(cfg, a, stall, stuck, runaway, stale) {
      HitsShutDown(cfg, a, stall, stuck, runaway, stale);
    }
  }

  /** One of the first n zones is at SHUTDOWN severity. */
  ghost predicate ZoneShutdown(cfg: Config, zones: seq<ZoneRt>, n: nat)
    requires n <= |zones| == |cfg.zones|
  {
    exists z :: 0 <= z < n && ZoneSeverity(cfg.zones[z], zones[z]) >= TRIP_SHUTDOWN
  }

  /** Step 9 for every actuator: severity and fault flags. */
  method BuildInputs(demands: seq<u8>, sevs: seq<u8>, forced: seq<bool>, shutdown: seq<bool>)
    returns (inputs: seq<Actuator.Input>)
    requires |demands| == |sevs| == |forced| == |shutdown|
    ensures |inputs| == |demands|
    ensures forall a :: 0 <= a < |inputs| ==> inputs[a] == InputOf(demands[a], sevs[a], forced[a], shutdown[a])
  {
    inputs := [];
    for a := 0 to |demands|
      invariant |inputs| == a
      invariant forall b :: 0 <= b < a ==> inputs[b] == InputOf(demands[b], sevs[b], forced[b], shutdown[b])
    {
      var slewUp, forceMax := sevs[a] >= TRIP_CRITICAL, sevs[a] >= TRIP_SHUTDOWN;
      if forced[a] { slewUp, forceMax := true, true; }
      inputs := inputs + [Actuator.Input(demands[a], slewUp, forceMax, shutdown[a])];
    }
  }

  function InputOf(demand: u8, sev: u8, forced: bool, shutdown: bool): Actuator.Input {
    Actuator.Input(demand, sev >= TRIP_CRITICAL || forced, sev >= TRIP_SHUTDOWN || forced, shutdown)
  }

  function Commands(cfg: Config, s: Core, snap: Snapshot): (r: seq<Actuator.Input>)
    requires Sized(cfg, s) && CurvesAscending(s)
    ensures |r| == |cfg.actuators|
  {
    seq(|cfg.actuators|,
        a requires 0 <= a < |cfg.actuators| && Sized(cfg, s) && CurvesAscending(s) => Command(cfg, s, snap, a))
  }

  lemma InputIsCommand(cfg: Config, s: Core, snap: Snapshot, a: nat)
    requires Sized(cfg, s) && CurvesAscending(s) && a < |cfg.actuators|
    ensures var (zones, mod) := (Zones1(cfg, s, snap), Mod1(cfg, s, snap));
            var (stall, stuck) := (Stall1(cfg, s, snap), Stuck1(cfg, s, snap));
            var (runaway, stale) := (Runaway1(cfg, s, snap), Stale1(cfg, s, snap));
            InputOf(Demands(cfg, zones, mod)[a], Severities(cfg, zones)[a],
                    FaultForces(cfg, a, stall, stuck, runaway, stale),
                    FaultShutdown(cfg, a, stall, stuck, runaway, stale)) == Commands(cfg, s, snap)[a]
  {
  }

  /** The final stage has run on the first n actuators. */
  ghost predicate Driven(cfg: Config, before: seq<Actuator.State>, inputs: seq<Actuator.Input>,
                         after: seq<Actuator.State>, n: nat)
    requires n <= |before| == |inputs| == |after| == |cfg.actuators|
  {
    forall a :: 0 <= a < n ==> after[a] == Actuator.Step(cfg.actuators[a].drive, before[a], inputs[a], cfg.periodMs)
  }

  ghost predicate AnyShutdown(inputs: seq<Actuator.Input>, n: nat)
    requires n <= |inputs|
  {
    exists a :: 0 <= a < n && inputs[a].shutdown
  }

  lemma ActsAre(cfg: Config, s: Core, snap: Snapshot, acts: seq<Actuator.State>, inputs: seq<Actuator.Input>)
    requires Sized(cfg, s) && CurvesAscending(s) && |acts| == |cfg.actuators| && inputs == Commands(cfg, s, snap)
    requires Driven(cfg, s.acts, inputs, acts, |acts|)
    ensures acts == Acts1(cfg, s, snap)
  {
    forall a | 0 <= a < |acts| ensures acts[a] == Acts1(cfg, s, snap)[a] {
      assert inputs[a] == Command(cfg, s, snap, a);
    }
  }

  lemma LatchIs(cfg: Config, s: Core, snap: Snapshot, inputs: seq<Actuator.Input>)
    requires Sized(cfg, s) && CurvesAscending(s) && inputs == Commands(cfg, s, snap)
    ensures ShutdownSeen(cfg, s, snap) ==
      (ZoneShutdown(cfg, Zones1(cfg, s, snap), |cfg.zones|) || AnyShutdown(inputs, |inputs|))
  {
    AnyIsCommand(cfg, s, snap);
  }

  lemma AnyIsCommand(cfg: Config, s: Core, snap: Snapshot)
    requires Sized(cfg, s) && CurvesAscending(s)
    ensures AnyShutdown(Commands(cfg, s, snap), |Commands(cfg, s, snap)|) <==>
      exists a :: 0 <= a < |cfg.actuators| && Command(cfg, s, snap, a).shutdown
  {
    var inputs := Commands(cfg, s, snap);
    if AnyShutdown(inputs, |inputs|) {
      var a :| 0 <= a < |inputs| && inputs[a].shutdown;
      assert inputs[a] == Command(cfg, s, snap, a);
    } else {
      forall a | 0 <= a < |cfg.actuators| ensures !Command(cfg, s, snap, a).shutdown {
        assert inputs[a] == Command(cfg, s, snap, a);
      }
    }
  }

  // What each part of a tick that started in s establishes about the fields it sets.

  /** Steps 3 to 5: filtered values and the modifier. */
  ghost predicate Filtered(cfg: Config, s: Core, snap: Snapshot, filters: seq<Filter.State>, contexts: seq<ContextRt>,
                         mod: ModEval)
    requires Sized(cfg, s) && CurvesAscending(s)
  {
    filters == Filters1(cfg, s, snap) && contexts == Contexts1(cfg, s, snap) && mod == Mod1(cfg, s, snap)
  }

  ghost predicate Judged(cfg: Config, s: Core, snap: Snapshot, stuck: seq<StuckRt>)
    requires Sized(cfg, s)
  {
    stuck == Stuck1(cfg, s, snap)
  }

  /** Step 6. */
  ghost predicate Governed(cfg: Config, s: Core, snap: Snapshot, zones: seq<ZoneRt>)
    requires Sized(cfg, s) && CurvesAscending(s)
  {
    zones == Zones1(cfg, s, snap)
  }

  /** Step 9: the detectors. */
  ghost predicate Detected(cfg: Config, s: Core, snap: Snapshot, stall: seq<StallRt>, runaway: seq<RunawayRt>,
                           stale: seq<Fault.Detector>)
    requires Sized(cfg, s) && CurvesAscending(s)
  {
    stall == Stall1(cfg, s, snap) && runaway == Runaway1(cfg, s, snap) && stale == Stale1(cfg, s, snap)
  }

  /** Step 10. */
  ghost predicate Actuated(cfg: Config, s: Core, snap: Snapshot, acts: seq<Actuator.State>, latched: bool)
    requires Sized(cfg, s) && CurvesAscending(s)
  {
    acts == Acts1(cfg, s, snap) && latched == (s.shutdownLatched || ShutdownSeen(cfg, s, snap))
  }

  /** Steps 3 to 6 together. */
  ghost predicate FirstHalf(cfg: Config, s: Core, snap: Snapshot, filters: seq<Filter.State>, contexts: seq<ContextRt>,
                            mod: ModEval, stuck: seq<StuckRt>, zones: seq<ZoneRt>)
    requires Sized(cfg, s) && CurvesAscending(s)
  {
    Filtered(cfg, s, snap, filters, contexts, mod) && Judged(cfg, s, snap, stuck) && Governed(cfg, s, snap, zones)
  }

  /** What steps 7 to 10 change is still as in s. */
  ghost predicate Untouched(s: Core, stall: seq<StallRt>, runaway: seq<RunawayRt>, stale: seq<Fault.Detector>,
                            acts: seq<Actuator.State>, latched: bool)
  {
    stall == s.stall && runaway == s.runaway && stale == s.stale && acts == s.acts && latched == s.shutdownLatched
  }

  /** Steps 7 to 10 together. */
  ghost predicate SecondHalf(cfg: Config, s: Core, snap: Snapshot, stall: seq<StallRt>, runaway: seq<RunawayRt>,
                             stale: seq<Fault.Detector>, acts: seq<Actuator.State>, latched: bool)
    requires Sized(cfg, s) && CurvesAscending(s)
  {
    Detected(cfg, s, snap, stall, runaway, stale) && Actuated(cfg, s, snap, acts, latched)
  }

  lemma DoneIsAdvance(cfg: Config, s: Core, snap: Snapshot, t: Core)
    requires Sized(cfg, s) && CurvesAscending(s) && t.modifiers == s.modifiers
    requires FirstHalf(cfg, s, snap, t.filters, t.contexts, t.mod, t.stuck, t.zones)
    requires SecondHalf(cfg, s, snap, t.stall, t.runaway, t.stale, t.acts, t.shutdownLatched)
    ensures t == Regulator.Advance(cfg, s, snap)
  {
  }

  // ----- The regulator object

  // What each loop has done after its first n elements, and that a finished loop has done what the tick says.

  ghost predicate FiltersStepped(cfg: Config, snap: Snapshot, before: seq<Filter.State>, after: seq<Filter.State>,
                                 n: nat)
    requires n <= |before| == |after| == |cfg.sensors|
  {
    forall i :: 0 <= i < n ==>
      after[i] == Filter.Step(before[i], cfg.sensors[i].alpha, Lookup(snap.samples, TempMc, cfg.sensors[i].id))
  }

  lemma FiltersAre(cfg: Config, s: Core, snap: Snapshot, after: seq<Filter.State>)
    requires Sized(cfg, s) && |after| == |cfg.sensors| && FiltersStepped(cfg, snap, s.filters, after, |after|)
    ensures after == Filters1(cfg, s, snap)
  {
  }

  ghost predicate ContextsStepped(cfg: Config, snap: Snapshot, before: seq<ContextRt>, after: seq<ContextRt>, n: nat)
    requires n <= |before| == |after| == |cfg.contexts|
  {
    forall c :: 0 <= c < n ==> after[c] == ContextStep(before[c], cfg.contexts[c], snap)
  }

  lemma ContextsAre(cfg: Config, s: Core, snap: Snapshot, after: seq<ContextRt>)
    requires Sized(cfg, s) && |after| == |cfg.contexts| && ContextsStepped(cfg, snap, s.contexts, after, |after|)
    ensures after == Contexts1(cfg, s, snap)
  {
  }

  /** One stuck-sensor detector, on the filtered value of its sensor and the correlated context. */
  function JudgedSensor(cfg: Config, t: StuckRt, f: Filter.State, c: (i32, bool), now: u32): StuckRt {
    StuckTick(cfg.stuck, t, Detectors.Reading(f.value, f.valid, c.0, c.1), now)
  }

  ghost predicate StuckStepped(cfg: Config, filters: seq<Filter.State>, c: (i32, bool), now: u32,
                               before: seq<StuckRt>, after: seq<StuckRt>, n: nat)
    requires n <= |before| == |after| == |filters|
  {
    forall i :: 0 <= i < n ==> after[i] == JudgedSensor(cfg, before[i], filters[i], c, now)
  }

  lemma StuckAre(cfg: Config, s: Core, snap: Snapshot, after: seq<StuckRt>)
    requires Sized(cfg, s) && |after| == |cfg.sensors|
    requires StuckStepped(cfg, Filters1(cfg, s, snap), CorrelatedContext(cfg, s, snap), snap.now, s.stuck, after,
                          |after|)
    ensures after == Stuck1(cfg, s, snap)
  {
    forall i | 0 <= i < |after| ensures after[i] == Stuck1(cfg, s, snap)[i] {
      assert after[i] == JudgedSensor(cfg, s.stuck[i], Filters1(cfg, s, snap)[i], CorrelatedContext(cfg, s, snap),
                                      snap.now);
    }
  }

  /** One zone, on the filtered sensors and the detectors that mask them. */
  function ZoneNext(cfg: Config, zr: ZoneRt, filters: seq<Filter.State>, stuck: seq<StuckRt>, offset: int, now: u32,
                    z: nat): ZoneRt
    requires |filters| == |stuck| == |cfg.sensors| && z < |cfg.zones|
  {
    ZoneStep(cfg.zones[z], zr, ReadZone(cfg.zones[z], SlotViews(cfg, filters, stuck, z)), offset, now)
  }

  ghost predicate ZonesStepped(cfg: Config, filters: seq<Filter.State>, stuck: seq<StuckRt>, offset: int, now: u32,
                               before: seq<ZoneRt>, after: seq<ZoneRt>, n: nat)
    requires |filters| == |stuck| == |cfg.sensors| && n <= |before| == |after| == |cfg.zones|
  {
    forall z :: 0 <= z < n ==> after[z] == ZoneNext(cfg, before[z], filters, stuck, offset, now, z)
  }

  lemma ZonesAre(cfg: Config, s: Core, snap: Snapshot, after: seq<ZoneRt>)
    requires Sized(cfg, s) && CurvesAscending(s) && |after| == |cfg.zones|
    requires ZonesStepped(cfg, Filters1(cfg, s, snap), Stuck1(cfg, s, snap), TripOffset(s, Mod1(cfg, s, snap)),
                          snap.now, s.zones, after, |after|)
    ensures after == Zones1(cfg, s, snap)
  {
    forall z | 0 <= z < |after| ensures after[z] == Zones1(cfg, s, snap)[z] { ZoneIs(cfg, s, snap, z); }
  }

  lemma ZoneIs(cfg: Config, s: Core, snap: Snapshot, z: nat)
    requires Sized(cfg, s) && CurvesAscending(s) && z < |cfg.zones|
    ensures Zones1(cfg, s, snap)[z] == ZoneNext(cfg, s.zones[z], Filters1(cfg, s, snap), Stuck1(cfg, s, snap),
                                                TripOffset(s, Mod1(cfg, s, snap)), snap.now, z)
  {
  }

  ghost predicate StallsStepped(cfg: Config, snap: Snapshot, demands: seq<u8>, before: seq<StallRt>,
                                after: seq<StallRt>, n: nat)
    requires n <= |before| == |after| == |demands| == |cfg.actuators|
  {
    forall a :: 0 <= a < n ==> after[a] == StallTick(cfg, before[a], a, demands[a], snap)
  }

  lemma StallsAre(cfg: Config, s: Core, snap: Snapshot, after: seq<StallRt>)
    requires Sized(cfg, s) && CurvesAscending(s) && |after| == |cfg.actuators|
    requires StallsStepped(cfg, snap, Demands(cfg, Zones1(cfg, s, snap), Mod1(cfg, s, snap)), s.stall, after, |after|)
    ensures after == Stall1(cfg, s, snap)
  {
    forall a | 0 <= a < |after| ensures after[a] == Stall1(cfg, s, snap)[a] {
      assert after[a] == StallTick(cfg, s.stall[a], a, Demands(cfg, Zones1(cfg, s, snap), Mod1(cfg, s, snap))[a], snap);
    }
  }

  predicate RingsValid(t: seq<RunawayRt>) { forall z :: 0 <= z < |t| ==> Runaway.Valid(t[z].ring) }

  /** One runaway detector, on its zone's temperature and the highest demand on the zone's actuators. */
  function RunawayNext(cfg: Config, t: RunawayRt, zones: seq<ZoneRt>, mod: ModEval, now: u32, z: nat): RunawayRt
    requires z < |zones| == |cfg.zones| && Runaway.Valid(t.ring)
  {
    RunawayTick(cfg.runaway, t, RunawaySample(cfg, zones, mod, z), now)
  }

  ghost predicate RunawaysStepped(cfg: Config, zones: seq<ZoneRt>, mod: ModEval, now: u32,
                                  before: seq<RunawayRt>, after: seq<RunawayRt>, n: nat)
    requires n <= |before| == |after| == |zones| == |cfg.zones| && RingsValid(before)
  {
    forall z :: 0 <= z < n ==> after[z] == RunawayNext(cfg, before[z], zones, mod, now, z)
  }

  lemma RunawaysAre(cfg: Config, s: Core, snap: Snapshot, after: seq<RunawayRt>)
    requires Sized(cfg, s) && CurvesAscending(s) && |after| == |cfg.zones| && RingsValid(s.runaway)
    requires RunawaysStepped(cfg, Zones1(cfg, s, snap), Mod1(cfg, s, snap), snap.now, s.runaway, after, |after|)
    ensures after == Runaway1(cfg, s, snap)
  {
    forall z | 0 <= z < |after| ensures after[z] == Runaway1(cfg, s, snap)[z] {
      assert after[z] == RunawayNext(cfg, s.runaway[z], Zones1(cfg, s, snap), Mod1(cfg, s, snap), snap.now, z);
    }
  }

  /** One stale-context detector, on its filtered context. */
  function StaleNext(cfg: Config, d: Fault.Detector, c: ContextRt, cc: ContextCfg, now: u32): Fault.Detector {
    SenseTick(d, cfg.stale, cfg.stale.persistTicks, StaleSensed(cfg.stale, c, cc, now), now)
  }

  ghost predicate StalesStepped(cfg: Config, contexts: seq<ContextRt>, now: u32,
                                before: seq<Fault.Detector>, after: seq<Fault.Detector>, n: nat)
    requires n <= |before| == |after| == |contexts| == |cfg.contexts|
  {
    forall c :: 0 <= c < n ==> after[c] == StaleNext(cfg, before[c], contexts[c], cfg.contexts[c], now)
  }

  lemma StalesAre(cfg: Config, s: Core, snap: Snapshot, after: seq<Fault.Detector>)
    requires Sized(cfg, s) && |after| == |cfg.contexts|
    requires StalesStepped(cfg, Contexts1(cfg, s, snap), snap.now, s.stale, after, |after|)
    ensures after == Stale1(cfg, s, snap)
  {
    forall c | 0 <= c < |after| ensures after[c] == Stale1(cfg, s, snap)[c] {
      assert after[c] == StaleNext(cfg, s.stale[c], Contexts1(cfg, s, snap)[c], cfg.contexts[c], snap.now);
    }
  }

  /** Reads slot k of a zone, masked out when its sensor is stuck. */
  method ReadSlot(cfg: Config, filters: seq<Filter.State>, stuck: seq<StuckRt>, z: nat, k: nat)
    returns (slot: Zone.Slot)
    requires |filters| == |stuck| == |cfg.sensors| && z < |cfg.zones| && k < |cfg.zones[z].sensorIds|
    ensures slot == SlotView(cfg, filters, stuck, z, k)
  {
    var zc := cfg.zones[z];
    var i := FindSlot(cfg.SensorIds(), zc.sensorIds[k]);
    var f := if i >= 0 then filters[i] else Filter.RESET;
    var masked := false;
    if cfg.stuck.enabled && cfg.stuck.action == Fault.ACTION_USE_ZONE_FALLBACK && i >= 0 && stuck[i].det.fsm.Active() {
      var first := FindSlot(zc.sensorIds, zc.sensorIds[k]);
      masked := first == k;
    }
    slot := Zone.Slot(f.value, f.valid && !masked, if k < |zc.weights| then zc.weights[k] else 0);
  }

  method ReadSlots(cfg: Config, filters: seq<Filter.State>, stuck: seq<StuckRt>, z: nat) returns (slots: seq<Zone.Slot>)
    requires |filters| == |stuck| == |cfg.sensors| && z < |cfg.zones|
    ensures slots == SlotViews(cfg, filters, stuck, z)
  {
    slots := [];
    for k := 0 to |cfg.zones[z].sensorIds|
      invariant slots == SlotViews(cfg, filters, stuck, z)[..k]
    {
      var slot := ReadSlot(cfg, filters, stuck, z, k);
      slots := slots + [slot];
    }
  }

  /** Aggregates and governs one zone. */
  method GovernZone(cfg: Config, zr: ZoneRt, filters: seq<Filter.State>, stuck: seq<StuckRt>, offset: int, now: u32,
                    z: nat)
    returns (t: ZoneRt)
    requires |filters| == |stuck| == |cfg.sensors| && z < |cfg.zones|
    ensures t == ZoneNext(cfg, zr, filters, stuck, offset, now, z)
  {
    var slots := ReadSlots(cfg, filters, stuck, z);
    var reading := Zone.AggregateSlots(cfg.zones[z].aggregation, slots, cfg.zones[z].fallbackMc);
    t := Govern(cfg.zones[z], zr, reading, offset, now);
  }

  class ThermalCore {
    const cfg: Config
    var filters: seq<Filter.State>
    var contexts: seq<ContextRt>
    var zones: seq<ZoneRt>
    var modifiers: seq<ModifierCfg>
    var mod: ModEval
    var acts: seq<Actuator.State>
    var stall: seq<StallRt>
    var stuck: seq<StuckRt>
    var runaway: seq<RunawayRt>
    var stale: seq<Fault.Detector>
    var shutdownLatched: bool

    function State(): Core
      reads this
    {
      Core(filters, contexts, zones, modifiers, mod, acts, stall, stuck, runaway, stale, shutdownLatched)
    }

    ghost predicate Valid()
      reads this
    {
      ValidConfig(cfg) && Inv(cfg, State())
    }

    constructor (c: Config)
      requires ValidConfig(c)
      ensures cfg == c && State() == Init(c) && Valid()
    {
      cfg := c;
      var s := Init(c);
      filters, contexts, zones, modifiers, mod := s.filters, s.contexts, s.zones, s.modifiers, s.mod;
      acts, stall, stuck, runaway, stale := s.acts, s.stall, s.stuck, s.runaway, s.stale;
      shutdownLatched := s.shutdownLatched;
      InitInv(c);
    }

    // ----- Steps 3 to 5

    method FilterSensors(snap: Snapshot)
      requires |filters| == |cfg.sensors|
      modifies this`filters
      ensures |filters| == |cfg.sensors| && FiltersStepped(cfg, snap, old(filters), filters, |filters|)
    {
      for i := 0 to |cfg.sensors|
        invariant |filters| == |cfg.sensors| && FiltersStepped(cfg, snap, old(filters), filters, i)
        invariant forall j :: i <= j < |filters| ==> filters[j] == old(filters)[j]
      {
        var smp := FindSample(snap.samples, TempMc, cfg.sensors[i].id);
        filters := filters[i := Filter.Step(filters[i], cfg.sensors[i].alpha, smp)];
      }
    }

    method FilterContexts(snap: Snapshot)
      requires |contexts| == |cfg.contexts|
      modifies this`contexts
      ensures |contexts| == |cfg.contexts| && ContextsStepped(cfg, snap, old(contexts), contexts, |contexts|)
    {
      for i := 0 to |cfg.contexts|
        invariant |contexts| == |cfg.contexts| && ContextsStepped(cfg, snap, old(contexts), contexts, i)
        invariant forall j :: i <= j < |contexts| ==> contexts[j] == old(contexts)[j]
      {
        var c := contexts[i];
        var smp := FindSample(snap.samples, ContextI32, cfg.contexts[i].id);
        c := c.(filter := Filter.Step(c.filter, cfg.contexts[i].alpha, smp));
        if smp.valid { c := c.(lastValidMs := snap.now, everValid := true); }
        contexts := contexts[i := c];
      }
    }

    method EvalModifier(snap: Snapshot, ghost s: Core)
      requires Sized(cfg, s) && CurvesAscending(s) && modifiers == s.modifiers && contexts == Contexts1(cfg, s, snap)
      modifies this`mod
      ensures mod == Mod1(cfg, s, snap)
    {
      mod := ModEval(false, 0, 0);
      if |cfg.modifiers| == 0 { return; }
      var m := modifiers[0];
      var slot := FindSlot(cfg.ContextIds(), m.contextId);
      if slot < 0 { return; }
      var x: i32 := 0;
      if contexts[slot].filter.valid ||
        (cfg.contexts[slot].failSafe == FAILSAFE_HOLD_LAST && contexts[slot].everValid) {
        x := contexts[slot].filter.value;
      }
      var cap := EvalAxis(m.curve, Axis0, x);
      var offset := EvalAxis(m.curve, Axis1, x);
      mod := ModEval(offset != 0 || cap < 255, cap, offset);
    }

    // ----- Stuck sensors

    method ReadCorrelated(snap: Snapshot, ghost s: Core) returns (value: i32, valid: bool)
      requires Sized(cfg, s) && contexts == Contexts1(cfg, s, snap)
      ensures (value, valid) == CorrelatedContext(cfg, s, snap)
    {
      value, valid := 0, false;
      if Detectors.Correlated(cfg.stuck) {
        var slot := FindSlot(cfg.ContextIds(), cfg.stuck.contextId);
        if slot >= 0 { value, valid := contexts[slot].filter.value, contexts[slot].filter.valid; }
      }
    }

    /** The stuck-sensor pre-pass; it does nothing when the detector is disabled. */
    method StepStuck(value: i32, valid: bool, now: u32)
      requires |stuck| == |filters| == |cfg.sensors|
      modifies this`stuck
      ensures |stuck| == |filters| && StuckStepped(cfg, filters, (value, valid), now, old(stuck), stuck, |stuck|)
    {
      if !cfg.stuck.enabled { return; }
      for i := 0 to |cfg.sensors|
        invariant |stuck| == |filters| && StuckStepped(cfg, filters, (value, valid), now, old(stuck), stuck, i)
        invariant forall j :: i <= j < |stuck| ==> stuck[j] == old(stuck)[j]
      {
        stuck := stuck[i := JudgedSensor(cfg, stuck[i], filters[i], (value, valid), now)];
      }
    }

    // ----- Step 6

    method GovernZones(now: u32)
      requires |filters| == |stuck| == |cfg.sensors| && |zones| == |cfg.zones|
      modifies this`zones
      ensures |zones| == |cfg.zones|
      ensures var offset := if |modifiers| > 0 && mod.active && modifiers[0].PreGovernor() then mod.offset else 0;
              ZonesStepped(cfg, filters, stuck, offset, now, old(zones), zones, |zones|)
    {
      var offset := if |modifiers| > 0 && mod.active && modifiers[0].PreGovernor() then mod.offset else 0;
      for z := 0 to |cfg.zones|
        invariant |zones| == |cfg.zones| && ZonesStepped(cfg, filters, stuck, offset, now, old(zones), zones, z)
        invariant forall j :: z <= j < |zones| ==> zones[j] == old(zones)[j]
      {
        var zr := GovernZone(cfg, zones[z], filters, stuck, offset, now, z);
        zones := zones[z := zr];
      }
    }

    // ----- Step 9: detectors

    method StepStalls(snap: Snapshot, demands: seq<u8>)
      requires |stall| == |demands| == |cfg.actuators|
      modifies this`stall
      ensures |stall| == |cfg.actuators| && StallsStepped(cfg, snap, demands, old(stall), stall, |stall|)
    {
      for a := 0 to |cfg.actuators|
        invariant |stall| == |cfg.actuators| && StallsStepped(cfg, snap, demands, old(stall), stall, a)
        invariant forall j :: a <= j < |stall| ==> stall[j] == old(stall)[j]
      {
        stall := stall[a := StallTick(cfg, stall[a], a, demands[a], snap)];
      }
    }

    method StepRunaways(now: u32, demands: seq<u8>)
      requires |runaway| == |zones| == |cfg.zones| && RingsValid(runaway) && demands == Demands(cfg, zones, mod)
      modifies this`runaway
      ensures |runaway| == |cfg.zones| && RunawaysStepped(cfg, zones, mod, now, old(runaway), runaway, |runaway|)
    {
      for z := 0 to |cfg.zones|
        invariant |runaway| == |cfg.zones| && RunawaysStepped(cfg, zones, mod, now, old(runaway), runaway, z)
        invariant forall j :: z <= j < |runaway| ==> runaway[j] == old(runaway)[j]
      {
        var pwm := ZoneMaxDemand(cfg, zones, mod, demands, cfg.zones[z].actuatorIds);
        runaway := runaway[z := RunawayTick(cfg.runaway, runaway[z], Runaway.Sample(zones[z].temp, pwm), now)];
      }
    }

    method StepStales(now: u32)
      requires |stale| == |contexts| == |cfg.contexts|
      modifies this`stale
      ensures |stale| == |contexts| && StalesStepped(cfg, contexts, now, old(stale), stale, |stale|)
    {
      for c := 0 to |cfg.contexts|
        invariant |stale| == |contexts| && StalesStepped(cfg, contexts, now, old(stale), stale, c)
        invariant forall j :: c <= j < |stale| ==> stale[j] == old(stale)[j]
      {
        stale := stale[c := StaleNext(cfg, stale[c], contexts[c], cfg.contexts[c], now)];
      }
    }

    // ----- Step 10: the final stage

    method DriveActuators(inputs: seq<Actuator.Input>)
      requires |inputs| == |acts| == |cfg.actuators|
      modifies this`acts
      ensures |acts| == |cfg.actuators| && Driven(cfg, old(acts), inputs, acts, |acts|)
    {
      for a := 0 to |cfg.actuators|
        invariant |acts| == |cfg.actuators| && Driven(cfg, old(acts), inputs, acts, a)
        invariant forall b :: a <= b < |acts| ==> acts[b] == old(acts)[b]
      {
        var t := Actuator.Drive(cfg.actuators[a].drive, acts[a], inputs[a], cfg.periodMs);
        acts := acts[a := t];
      }
    }

    /** A SHUTDOWN zone or a shutdown flag latches the shutdown request. */
    method LatchShutdown(inputs: seq<Actuator.Input>)
      requires |zones| == |cfg.zones|
      modifies this`shutdownLatched
      ensures shutdownLatched == (old(shutdownLatched) || ZoneShutdown(cfg, zones, |zones|) ||
                                  AnyShutdown(inputs, |inputs|))
    {
      for z := 0 to |cfg.zones|
        invariant shutdownLatched == (old(shutdownLatched) || ZoneShutdown(cfg, zones, z))
      {
        var sev := ZoneMaxSeverity(cfg.zones[z], zones[z]);
        if sev >= TRIP_SHUTDOWN { shutdownLatched := true; }
      }
      ghost var byZones := shutdownLatched;
      for a := 0 to |inputs|
        invariant shutdownLatched == (byZones || AnyShutdown(inputs, a))
      {
        if inputs[a].shutdown { shutdownLatched := true; }
      }
    }

    // ----- The tick and the commands

    method Sense(snap: Snapshot, ghost s: Core)
      requires Sized(cfg, s) && CurvesAscending(s)
      requires filters == s.filters && contexts == s.contexts && modifiers == s.modifiers
      modifies this`filters, this`contexts, this`mod
      ensures Filtered(cfg, s, snap, filters, contexts, mod)
    {
      FilterSensors(snap);
      FiltersAre(cfg, s, snap, filters);
      FilterContexts(snap);
      ContextsAre(cfg, s, snap, contexts);
      EvalModifier(snap, s);
    }

    method JudgeSensors(snap: Snapshot, ghost s: Core)
      requires Sized(cfg, s) && CurvesAscending(s) && stuck == s.stuck
      requires Filtered(cfg, s, snap, filters, contexts, mod)
      modifies this`stuck
      ensures Judged(cfg, s, snap, stuck)
    {
      var value, valid := ReadCorrelated(snap, s);
      StepStuck(value, valid, snap.now);
      StuckAre(cfg, s, snap, stuck);
    }

    method GovernAll(snap: Snapshot, ghost s: Core)
      requires Sized(cfg, s) && CurvesAscending(s) && zones == s.zones && modifiers == s.modifiers
      requires Filtered(cfg, s, snap, filters, contexts, mod) && Judged(cfg, s, snap, stuck)
      modifies this`zones
      ensures Governed(cfg, s, snap, zones)
    {
      GovernZones(snap.now);
      ZonesAre(cfg, s, snap, zones);
    }

    /** Step 9: what the final stage of every actuator is told. */
    method DecideInputs(snap: Snapshot, demands: seq<u8>, sevs: seq<u8>, ghost s: Core)
      returns (inputs: seq<Actuator.Input>)
      requires Sized(cfg, s) && CurvesAscending(s) && Distinct(cfg.ActuatorIds())
      requires Filtered(cfg, s, snap, filters, contexts, mod) && Judged(cfg, s, snap, stuck)
      requires Governed(cfg, s, snap, zones) && Detected(cfg, s, snap, stall, runaway, stale)
      requires demands == Demands(cfg, zones, mod) && sevs == Severities(cfg, zones)
      ensures inputs == Commands(cfg, s, snap)
    {
      var forced := ForceFlags(cfg, stall, stuck, runaway, stale);
      var shutdown := ShutdownFlags(cfg, stall, stuck, runaway, stale);
      inputs := BuildInputs(demands, sevs, forced, shutdown);
      forall a | 0 <= a < |inputs| ensures inputs[a] == Commands(cfg, s, snap)[a] {
        InputIsCommand(cfg, s, snap, a);
      }
    }

    /** Step 10 for every actuator, and the shutdown latch. */
    method DriveAll(snap: Snapshot, inputs: seq<Actuator.Input>, ghost s: Core)
      requires Sized(cfg, s) && CurvesAscending(s) && inputs == Commands(cfg, s, snap)
      requires Governed(cfg, s, snap, zones)
      requires acts == s.acts && shutdownLatched == s.shutdownLatched
      modifies this`acts, this`shutdownLatched
      ensures Actuated(cfg, s, snap, acts, shutdownLatched)
    {
      LatchShutdown(inputs);
      LatchIs(cfg, s, snap, inputs);
      DriveActuators(inputs);
      ActsAre(cfg, s, snap, acts, inputs);
    }

    method StepDetectors(snap: Snapshot, demands: seq<u8>, ghost s: Core)
      requires Sized(cfg, s) && CurvesAscending(s)
      requires Filtered(cfg, s, snap, filters, contexts, mod) && Governed(cfg, s, snap, zones)
      requires demands == Demands(cfg, zones, mod)
      requires stall == s.stall && runaway == s.runaway && stale == s.stale
      modifies this`stall, this`runaway, this`stale
      ensures Detected(cfg, s, snap, stall, runaway, stale)
    {
      DetectStalls(snap, demands, s);
      DetectRunaways(snap, demands, s);
      DetectStales(snap, s);
    }

    method DetectStalls(snap: Snapshot, demands: seq<u8>, ghost s: Core)
      requires Sized(cfg, s) && CurvesAscending(s) && stall == s.stall
      requires demands == Demands(cfg, Zones1(cfg, s, snap), Mod1(cfg, s, snap))
      modifies this`stall
      ensures stall == Stall1(cfg, s, snap)
    {
      StepStalls(snap, demands);
      StallsAre(cfg, s, snap, stall);
    }

    method DetectRunaways(snap: Snapshot, demands: seq<u8>, ghost s: Core)
      requires Sized(cfg, s) && CurvesAscending(s) && runaway == s.runaway
      requires zones == Zones1(cfg, s, snap) && mod == Mod1(cfg, s, snap) && demands == Demands(cfg, zones, mod)
      modifies this`runaway
      ensures runaway == Runaway1(cfg, s, snap)
    {
      StepRunaways(snap.now, demands);
      RunawaysAre(cfg, s, snap, runaway);
    }

    method DetectStales(snap: Snapshot, ghost s: Core)
      requires Sized(cfg, s) && stale == s.stale && contexts == Contexts1(cfg, s, snap)
      modifies this`stale
      ensures stale == Stale1(cfg, s, snap)
    {
      StepStales(snap.now);
      StalesAre(cfg, s, snap, stale);
    }

    /** Steps 3 to 6: from samples to governed zones. */
    method SenseAndGovern(snap: Snapshot, ghost s: Core)
      requires Sized(cfg, s) && CurvesAscending(s) && State() == s
      modifies this`filters, this`contexts, this`mod, this`stuck, this`zones
      ensures FirstHalf(cfg, s, snap, filters, contexts, mod, stuck, zones)
      ensures Untouched(s, stall, runaway, stale, acts, shutdownLatched) && modifiers == s.modifiers
    {
      SenseAndJudge(snap, s);
      GovernAll(snap, s);
    }

    /** Steps 3 to 5 and the stuck-sensor pre-pass. */
    method SenseAndJudge(snap: Snapshot, ghost s: Core)
      requires Sized(cfg, s) && CurvesAscending(s) && modifiers == s.modifiers
      requires filters == s.filters && contexts == s.contexts && stuck == s.stuck
      modifies this`filters, this`contexts, this`mod, this`stuck
      ensures Filtered(cfg, s, snap, filters, contexts, mod) && Judged(cfg, s, snap, stuck)
    {
      Sense(snap, s);
      JudgeSensors(snap, s);
    }

    /** Steps 7 to 10: from governed zones to duties. */
    method DecideAndDrive(snap: Snapshot, ghost s: Core)
      requires Sized(cfg, s) && CurvesAscending(s) && Distinct(cfg.ActuatorIds())
      requires FirstHalf(cfg, s, snap, filters, contexts, mod, stuck, zones)
      requires Untouched(s, stall, runaway, stale, acts, shutdownLatched)
      modifies this`stall, this`runaway, this`stale, this`acts, this`shutdownLatched
      ensures SecondHalf(cfg, s, snap, stall, runaway, stale, acts, shutdownLatched)
    {
      var inputs := Decide(snap, s);
      DriveAll(snap, inputs, s);
    }

    /** Steps 7 to 9. */
    method Decide(snap: Snapshot, ghost s: Core) returns (inputs: seq<Actuator.Input>)
      requires Sized(cfg, s) && CurvesAscending(s) && Distinct(cfg.ActuatorIds())
      requires Filtered(cfg, s, snap, filters, contexts, mod) && Judged(cfg, s, snap, stuck)
      requires Governed(cfg, s, snap, zones) && stall == s.stall && runaway == s.runaway && stale == s.stale
      modifies this`stall, this`runaway, this`stale
      ensures Detected(cfg, s, snap, stall, runaway, stale) && inputs == Commands(cfg, s, snap)
    {
      var demands, sevs := ArbitrateAll(cfg, zones, mod);
      StepDetectors(snap, demands, s);
      inputs := DecideInputs(snap, demands, sevs, s);
    }

    /** A tick on an accepted snapshot. */
    method Advance(snap: Snapshot)
      requires Sized(cfg, State()) && CurvesAscending(State()) && Distinct(cfg.ActuatorIds())
      modifies this
      ensures State() == Regulator.Advance(cfg, old(State()), snap)
    {
      ghost var s := State();
      SenseAndGovern(snap, s);
      DecideAndDrive(snap, s);
      DoneIsAdvance(cfg, s, snap, State());
    }

    /** The output frame. */
    method Frame() returns (duties: seq<u8>)
      ensures |duties| == |acts| && forall a :: 0 <= a < |acts| ==> duties[a] == acts[a].duty
    {
      duties := [];
      for a := 0 to |acts|
        invariant |duties| == a && forall b :: 0 <= b < a ==> duties[b] == acts[b].duty
      {
        duties := duties + [acts[a].duty];
      }
    }

    /** thermal_core_step: one control tick, or a refusal that changes nothing. */
    method Step(snap: Snapshot) returns (st: Status, duties: seq<u8>)
      requires Valid()
      modifies this
      ensures Valid() && State() == Tick(cfg, old(State()), snap) && st == Preflight(cfg, snap)
      ensures st == Ok ==> |duties| == |acts| && forall a :: 0 <= a < |acts| ==> duties[a] == acts[a].duty
    {
      duties := [];
      st := CheckSnapshot(cfg, snap);
      if st != Ok { return; }
      TickKeepsInv(cfg, State(), snap);
      Advance(snap);
      duties := Frame();
    }

    // ----- Commands

    method TripsFit(trips: seq<Trip>) returns (ok: bool)
      ensures ok == TripsFitKnots(State(), trips)
    {
      for m := 0 to |modifiers|
        invariant forall n, p :: 0 <= n < m && modifiers[n].PreGovernor() && 0 <= p < |modifiers[n].curve| ==>
          ValidAt(trips, modifiers[n].curve[p].value1)
      {
        if modifiers[m].PreGovernor() {
          for p := 0 to |modifiers[m].curve|
            invariant forall q :: 0 <= q < p ==> ValidAt(trips, modifiers[m].curve[q].value1)
          {
            var fits := AdjustedTripsValid(trips, modifiers[m].curve[p].value1);
            if !fits { return false; }
          }
        }
      }
      return true;
    }

    method SetpointFits(pid: PidCfg, sp: int) returns (ok: bool)
      ensures ok == SetpointFitsKnots(State(), pid, sp)
    {
      for m := 0 to |modifiers|
        invariant forall n, p :: 0 <= n < m && modifiers[n].PreGovernor() && 0 <= p < |modifiers[n].curve| ==>
          pid.SetpointInBounds(sp + modifiers[n].curve[p].value1)
      {
        if modifiers[m].PreGovernor() {
          for p := 0 to |modifiers[m].curve|
            invariant forall q :: 0 <= q < p ==> pid.SetpointInBounds(sp + modifiers[m].curve[q].value1)
          {
            var shifted := sp + modifiers[m].curve[p].value1;
            if shifted < pid.setpointMin || shifted > pid.setpointMax { return false; }
          }
        }
      }
      return true;
    }

    method OnSetPid(z: u16, kp: i32, ki: i32, kd: i32) returns (st: Status)
      requires Sized(cfg, State())
      modifies this`zones
      ensures (State(), st) == SetPid(cfg, old(State()), z, kp, ki, kd)
    {
      if z >= |cfg.zones| || cfg.zones[z].governor != GOVERNOR_PID { return InvalidArg; }
      var b := cfg.zones[z].pid;
      if kp < b.kpMin || kp > b.kpMax || ki < b.kiMin || ki > b.kiMax { return OutOfBounds; }
      if kd < b.kdMin || kd > b.kdMax { return OutOfBounds; }
      var g := zones[z].gains.(kp := kp, ki := ki, kd := kd);
      zones := zones[z := zones[z].(gains := g, pid := Pid.RESET)];
      return Ok;
    }

    method OnSetSetpoint(z: u16, sp: i32) returns (st: Status)
      requires Sized(cfg, State())
      modifies this`zones
      ensures (State(), st) == SetSetpoint(cfg, old(State()), z, sp)
    {
      if z >= |cfg.zones| || cfg.zones[z].governor != GOVERNOR_PID { return InvalidArg; }
      var b := cfg.zones[z].pid;
      if sp < b.setpointMin || sp > b.setpointMax { return OutOfBounds; }
      var fits := SetpointFits(b, sp);
      if !fits { return OutOfBounds; }
      zones := zones[z := zones[z].(setpoint := sp)];
      return Ok;
    }

    method OnSetTrip(z: u16, t: u16, temp: i32, hyst: i32) returns (st: Status)
      requires Sized(cfg, State())
      modifies this`zones
      ensures (State(), st) == SetTrip(cfg, old(State()), z, t, temp, hyst)
    {
      if z >= |cfg.zones| { return InvalidArg; }
      if t >= |zones[z].trips| { return OutOfBounds; }
      var trips := zones[z].trips;
      var proposed := trips[t := trips[t].(tempMc := temp, hystMc := hyst)];
      var ok := hyst >= 0;
      if ok && t > 0 {
        if temp <= trips[t - 1].tempMc { ok := false; }
        if temp - hyst < trips[t - 1].tempMc { ok := false; }
      }
      if ok && t + 1 < |trips| {
        if temp >= trips[t + 1].tempMc { ok := false; }
        if trips[t + 1].tempMc - trips[t + 1].hystMc < temp { ok := false; }
      }
      if ok { ok := FallbackReachesSafetyFloor(cfg.zones[z].fallbackMc, proposed); }
      if ok { ok := TripsFit(proposed); }
      if !ok { return OutOfBounds; }
      zones := zones[z := zones[z].(trips := proposed)];
      return Ok;
    }

    method OnSetCurvePoint(m: u16, p: u16, pt: Point) returns (st: Status)
      requires Sized(cfg, State())
      modifies this`modifiers
      ensures (State(), st) == SetCurvePoint(cfg, old(State()), m, p, pt)
    {
      if m >= |cfg.modifiers| { return InvalidArg; }
      if p >= |modifiers[m].curve| { return OutOfBounds; }
      var pts := modifiers[m].curve;
      var ok := true;
      if p > 0 && pt.x <= pts[p - 1].x { ok := false; }
      if p + 1 < |pts| && pt.x >= pts[p + 1].x { ok := false; }
      var proposed := modifiers[m].(curve := pts[p := pt]);
      if ok { ok := CheckCurve(cfg, Trips(State()), Setpoints(State()), proposed); }
      if !ok { return OutOfBounds; }
      modifiers := modifiers[m := proposed];
      return Ok;
    }

    method OnClearFault(kind: u16, target: u16) returns (st: Status)
      requires Sized(cfg, State())
      modifies this`stall, this`stuck, this`runaway, this`stale
      ensures (State(), st) == ClearCommand(cfg, old(State()), kind, target)
    {
      if kind == FAULT_STALL {
        var a := FindSlot(cfg.ActuatorIds(), target);
        if a < 0 { return InvalidArg; }
        var t := stall[a];
        st := ClearStatus(t.det, cfg.stall);
        var aux := if Accepts(t.det, cfg.stall) then Detectors.STALL_RESET else t.aux;
        stall := stall[a := StallRt(Fault.Apply(t.det, cfg.stall, cfg.stall.persistTicks, Fault.Clear), aux)];
      } else if kind == FAULT_STUCK {
        var i := FindSlot(cfg.SensorIds(), target);
        if i < 0 { return InvalidArg; }
        var t := stuck[i];
        st := ClearStatus(t.det, cfg.stuck);
        var aux := if Accepts(t.det, cfg.stuck) then Detectors.STUCK_RESET else t.aux;
        stuck := stuck[i := StuckRt(Fault.Apply(t.det, cfg.stuck, cfg.stuck.persistTicks, Fault.Clear), aux)];
      } else if kind == FAULT_RUNAWAY {
        if target >= |cfg.zones| { return InvalidArg; }
        var t := runaway[target];
        st := ClearStatus(t.det, cfg.runaway);
        var ring, latched := t.ring, t.latchedActive;
        if Accepts(t.det, cfg.runaway) { ring, latched := Runaway.Empty(), 0; }
        runaway := runaway[target := RunawayRt(Fault.Apply(t.det, cfg.runaway, 1, Fault.Clear), ring, latched)];
      } else if kind == FAULT_STALE {
        var c := FindSlot(cfg.ContextIds(), target);
        if c < 0 { return InvalidArg; }
        st := ClearStatus(stale[c], cfg.stale);
        stale := stale[c := Fault.Apply(stale[c], cfg.stale, cfg.stale.persistTicks, Fault.Clear)];
      } else {
        st := InvalidArg;
      }
    }

    /** thermal_core_apply_command: applied, or refused with no change. */
    method Order(cmd: Wire.Command) returns (st: Status)
      requires Valid()
      modifies this
      ensures Valid() && (State(), st) == ApplyCommand(cfg, old(State()), cmd)
      ensures st != Ok ==> State() == old(State())
    {
      CommandKeepsInv(cfg, State(), cmd);
      RejectedChangesNothing(cfg, State(), cmd);
      st := Obey(cmd);
    }

    method Obey(cmd: Wire.Command) returns (st: Status)
      requires Valid()
      modifies this
      ensures (State(), st) == ApplyCommand(cfg, old(State()), cmd)
    {
      match cmd {
        case SetPid(z, kp, ki, kd) => st := OnSetPid(z, kp, ki, kd);
        case SetSetpoint(z, sp) => st := OnSetSetpoint(z, sp);
        case SetTrip(z, t, temp, hyst) => st := OnSetTrip(z, t, temp, hyst);
        case SetCurvePoint(m, p, x, v0, v1) => st := OnSetCurvePoint(m, p, Point(x, v0, v1));
        case ClearFault(kind, target) => st := OnClearFault(kind, target);
        case Unknown(_) => st := InvalidArg;
      }
    }
  }

  /** thermal_core_init: an object in its initial state exactly when the configuration is valid. */
  method Create(cfg: Config) returns (core: ThermalCore?)
    ensures core != null <==> ValidConfig(cfg)
    ensures core != null ==> fresh(core) && core.cfg == cfg && core.State() == Init(cfg) && core.Valid()
  {
    var ok := Validation.ValidateConfig(cfg);
    if ok { core := new ThermalCore(cfg); } else { core := null; }
  }
}
