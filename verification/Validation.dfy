/** thermal_core_validate_config as the loops that decide it (core/thermal_core.c:178-259, 364-535, 661-941,
    1222-1397). */
module Validation {
  import opened CInt
  import opened Curve
  import opened Governor
  import opened Config
  import opened Fault
  import FanHealth
  import Signals
  import Zone

  method IdsDistinct(ids: seq<u16>) returns (ok: bool)
    ensures ok <==> Distinct(ids)
  {
    for i := 0 to |ids|
      invariant forall m, n :: 0 <= m < i && m < n < |ids| ==> ids[m] != ids[n]
    {
      for j := i + 1 to |ids|
        invariant forall n :: i < n < j ==> ids[i] != ids[n]
      {
        if ids[i] == ids[j] { return false; }
      }
    }
    return true;
  }

  /** Every id of a list is known. */
  method IdsKnown(ids: seq<u16>, known: seq<u16>) returns (ok: bool)
    ensures ok <==> forall i :: 0 <= i < |ids| ==> ids[i] in known
  {
    for i := 0 to |ids|
      invariant forall j :: 0 <= j < i ==> ids[j] in known
    {
      var slot := FindSlot(known, ids[i]);
      if slot < 0 { return false; }
    }
    return true;
  }

  method SensorsValid(cfg: Config) returns (ok: bool)
    ensures ok <==>
            (forall i :: 0 <= i < |cfg.sensors| ==> 0 <= cfg.sensors[i].alpha <= Q16_ONE) && Distinct(cfg.SensorIds())
  {
    for i := 0 to |cfg.sensors|
      invariant forall j :: 0 <= j < i ==> 0 <= cfg.sensors[j].alpha <= Q16_ONE
    {
      if cfg.sensors[i].alpha < 0 || cfg.sensors[i].alpha > Q16_ONE { return false; }
    }
    ok := IdsDistinct(cfg.SensorIds());
  }

  method LinearizationOk(c: seq<Point>) returns (ok: bool)
    ensures ok <==> LinearizationValid(c)
  {
    if |c| == 0 { return true; }
    if |c| < 2 || |c| > MAX_CURVE_POINTS { return false; }
    for p := 0 to |c|
      invariant forall q :: 0 <= q < p ==> 0 <= c[q].x <= 255 && 0 <= c[q].value0 <= 255 && c[q].value1 == 0
      invariant forall q :: 1 <= q < p ==> c[q - 1].x < c[q].x && c[q - 1].value0 <= c[q].value0
    {
      var pt := c[p];
      if pt.x < 0 || pt.x > 255 || pt.value0 < 0 || pt.value0 > 255 || pt.value1 != 0 { return false; }
      if p > 0 && (pt.x <= c[p - 1].x || pt.value0 < c[p - 1].value0) {
        assert Y(pt, Axis0) < Y(c[p - 1], Axis0) || pt.x <= c[p - 1].x;
        return false;
      }
    }
    if c[0].x != 0 || c[0].value0 != 0 { return false; }
    ok := c[|c| - 1].x == 255 && c[|c| - 1].value0 == 255;
  }

  method ActuatorsValid(cfg: Config) returns (ok: bool)
    ensures ok <==>
            (forall a :: 0 <= a < |cfg.actuators| ==> ActuatorValid(cfg.actuators[a])) && Distinct(cfg.ActuatorIds())
  {
    for a := 0 to |cfg.actuators|
      invariant forall b :: 0 <= b < a ==> ActuatorValid(cfg.actuators[b])
    {
      var ac := cfg.actuators[a];
      var d := ac.drive;
      if |ac.statePwm| != MAX_COOLING_STATES { return false; }
      if d.pwmMin > d.pwmMax { return false; }
      if d.spinupMs > 0 && (d.spinupPwm == 0 || d.spinupPwm < d.pwmMin || d.spinupPwm > d.pwmMax) { return false; }
      var linear := LinearizationOk(ac.linearization);
      if !linear { return false; }
    }
    ok := IdsDistinct(cfg.ActuatorIds());
  }

  predicate ContextValid(c: ContextCfg) {
    c.timeoutMs > 0 && 0 <= c.alpha <= Q16_ONE && c.failSafe in {FAILSAFE_STATIONARY, FAILSAFE_HOLD_LAST}
  }

  method ContextsValid(cfg: Config) returns (ok: bool)
    ensures ok <==>
            (forall c :: 0 <= c < |cfg.contexts| ==> ContextValid(cfg.contexts[c])) && Distinct(cfg.ContextIds())
  {
    for c := 0 to |cfg.contexts|
      invariant forall d :: 0 <= d < c ==> ContextValid(cfg.contexts[d])
    {
      var cc := cfg.contexts[c];
      if cc.timeoutMs == 0 { return false; }
      if cc.failSafe != FAILSAFE_STATIONARY && cc.failSafe != FAILSAFE_HOLD_LAST { return false; }
      if cc.alpha < 0 || cc.alpha > Q16_ONE { return false; }
    }
    ok := IdsDistinct(cfg.ContextIds());
  }

  // ----- Zones

  method WeightsPositive(w: seq<i32>) returns (ok: bool)
    ensures ok <==> WeightSum(w) > 0
  {
    var sum: int := 0;
    for i := 0 to |w|
      invariant sum == WeightSum(w[..i])
    {
      assert w[..i + 1][..i] == w[..i];
      sum := sum + w[i];
    }
    assert w[..|w|] == w;
    ok := sum > 0;
  }

  /** The trip rules of validate_zone: legal fields, ascending, no overlap of hysteresis bands. */
  method TripsValid(trips: seq<Trip>) returns (ok: bool)
    ensures ok <==> Ordered(trips) && forall i :: 0 <= i < |trips| ==> TripLegal(trips[i])
  {
    for i := 0 to |trips|
      invariant forall j :: 0 <= j < i ==> TripLegal(trips[j])
      invariant Ordered(trips[..i])
    {
      var t := trips[i];
      if t.cooling >= MAX_COOLING_STATES { return false; }
      if t.severity != TRIP_WARN && t.severity != TRIP_CRITICAL && t.severity != TRIP_SHUTDOWN { return false; }
      if i > 0 {
        if t.tempMc <= trips[i - 1].tempMc { return false; }
        if t.tempMc - t.hystMc < trips[i - 1].tempMc { return false; }
      }
    }
    assert trips[..|trips|] == trips;
    return true;
  }

  predicate TripLegal(t: Trip) {
    t.cooling < MAX_COOLING_STATES && t.severity in {TRIP_WARN, TRIP_CRITICAL, TRIP_SHUTDOWN}
  }

  /** governor_validate_pid. */
  method PidOk(p: PidCfg, periodMs: u16, trips: seq<Trip>) returns (ok: bool)
    ensures ok <==> PidValid(p, periodMs, trips)
  {
    var g := p.gains;
    if g.kp < p.kpMin || g.kp > p.kpMax { return false; }
    if g.ki < p.kiMin || g.ki > p.kiMax { return false; }
    if g.kd < p.kdMin || g.kd > p.kdMax { return false; }
    if g.dAlpha < 0 || g.dAlpha > Q16_ONE { return false; }
    if p.setpoint < p.setpointMin || p.setpoint > p.setpointMax { return false; }
    if p.dtMin == 0 { return false; }
    if p.dtMin > periodMs { return false; }
    if p.dtMax < periodMs { return false; }
    for i := 0 to |trips|
      invariant forall j :: 0 <= j < i ==> trips[j].severity != TRIP_CRITICAL && trips[j].severity != TRIP_SHUTDOWN
    {
      if trips[i].severity == TRIP_CRITICAL || trips[i].severity == TRIP_SHUTDOWN { return true; }
    }
    return false;
  }

  method ZoneOk(cfg: Config, z: ZoneCfg) returns (ok: bool)
    ensures ok <==> ZoneValid(cfg, z)
  {
    if |z.sensorIds| == 0 || |z.sensorIds| > MAX_SENSORS_PER_ZONE || |z.weights| != |z.sensorIds| { return false; }
    if |z.actuatorIds| == 0 || |z.actuatorIds| > MAX_ACTUATORS_PER_ZONE { return false; }
    if z.aggregation != Zone.AGG_MAX && z.aggregation != Zone.AGG_AVG &&
      z.aggregation != Zone.AGG_WEIGHTED { return false; }
    if z.governor != GOVERNOR_STEP_WISE && z.governor != GOVERNOR_PID { return false; }
    var known := IdsKnown(z.sensorIds, cfg.SensorIds());
    if !known { return false; }
    known := IdsKnown(z.actuatorIds, cfg.ActuatorIds());
    if !known { return false; }
    if z.aggregation == Zone.AGG_WEIGHTED {
      var positive := WeightsPositive(z.weights);
      if !positive { return false; }
    }
    if |z.trips| > MAX_TRIPS { return false; }
    ok := ZoneTripsOk(cfg, z);
  }

  /** The part of validate_zone that looks at the trips and the governor. */
  method ZoneTripsOk(cfg: Config, z: ZoneCfg) returns (ok: bool)
    requires z.governor in {GOVERNOR_STEP_WISE, GOVERNOR_PID}
    ensures ok <==>
      Ordered(z.trips) && (forall i :: 0 <= i < |z.trips| ==> TripLegal(z.trips[i])) &&
      FallbackReaches(z.fallbackMc, z.trips) && (z.governor == GOVERNOR_PID ==> PidValid(z.pid, cfg.periodMs, z.trips))
  {
    ok := TripsValid(z.trips);
    if !ok { return; }
    ok := FallbackReachesSafetyFloor(z.fallbackMc, z.trips);
    if !ok { return; }
    if z.governor == GOVERNOR_PID { ok := PidOk(z.pid, cfg.periodMs, z.trips); }
  }

  // ----- Modifiers and detectors

  method CurveAscending(c: seq<Point>) returns (ok: bool)
    ensures ok <==> Ascending(c)
  {
    var k := 1;
    while k < |c|
      invariant 1 <= k
      invariant forall j :: 1 <= j < k && j < |c| ==> c[j - 1].x < c[j].x
    {
      if c[k].x <= c[k - 1].x { return false; }
      k := k + 1;
    }
    return true;
  }

  method ModifierOk(cfg: Config, m: ModifierCfg) returns (ok: bool)
    ensures ok <==> ModifierValid(cfg, m)
  {
    if m.name != MODIFIER_NAME { return false; }
    var slot := FindSlot(cfg.ContextIds(), m.contextId);
    if slot < 0 { return false; }
    if |m.curve| < 2 || |m.curve| > MAX_CURVE_POINTS { return false; }
    ok := CurveAscending(m.curve);
    if !ok { return; }
    ok := CheckCurve(cfg, CfgTrips(cfg), CfgSetpoints(cfg), m);
    if !ok { return; }
    if m.failSafe != FAILSAFE_STATIONARY && m.failSafe != FAILSAFE_HOLD_LAST { return false; }
    if cfg.contexts[slot].failSafe != m.failSafe { return false; }
    ok := 1 <= m.stages <= 3;
  }

  method DetectorOk(cfg: Config, fc: DetectorCfg, needsContext: bool) returns (ok: bool)
    ensures ok <==> DetectorValid(cfg, fc, needsContext)
  {
    if !fc.enabled { return true; }
    if fc.severity < 1 || fc.severity > 2 { return false; }
    if fc.action > ACTION_REQUEST_SHUTDOWN { return false; }
    if needsContext && fc.contextId != NO_CONTEXT {
      var slot := FindSlot(cfg.ContextIds(), fc.contextId);
      if slot < 0 { return false; }
      if fc.threshold2 <= 0 { return false; }
    }
    return true;
  }

  // ----- Duties named by the trips

  /** What validate_state_pwm_references relies on from the checks before it. */
  ghost predicate PartsValid(cfg: Config) {
    Distinct(cfg.ActuatorIds()) &&
      (forall a :: 0 <= a < |cfg.actuators| ==> |cfg.actuators[a].statePwm| == MAX_COOLING_STATES) &&
    (forall z, t :: 0 <= z < |cfg.zones| && 0 <= t < |cfg.zones[z].trips| ==>
     cfg.zones[z].trips[t].cooling < MAX_COOLING_STATES)
  }

  /** The duty of a cooling state is off or within the actuator's range. */
  predicate DutyLegal(ac: ActuatorCfg, cooling: nat)
    requires cooling < |ac.statePwm|
  {
    ac.statePwm[cooling] == 0 || ac.drive.pwmMin <= ac.statePwm[cooling] <= ac.drive.pwmMax
  }

  /** One trip: its duty must be legal on every actuator of its zone, and raises their highest state. */
  method VisitTrip(cfg: Config, z: nat, cooling: u8, maxState: seq<nat>) returns (ok: bool, r: seq<nat>)
    requires PartsValid(cfg) && z < |cfg.zones| && cooling < MAX_COOLING_STATES && |maxState| == |cfg.actuators|
    ensures ok <==> forall a :: 0 <= a < |cfg.actuators| && Drives(cfg, z, a) ==> DutyLegal(cfg.actuators[a], cooling)
    ensures ok ==> |r| == |maxState|
    ensures ok ==> forall a :: 0 <= a < |r| ==>
      r[a] == if Drives(cfg, z, a) then Max(maxState[a], cooling) else maxState[a]
  {
    var ids, actuatorIds := cfg.zones[z].actuatorIds, cfg.ActuatorIds();
    r := maxState;
    for k := 0 to |ids|
      invariant |r| == |maxState|
      invariant forall a :: 0 <= a < |r| && cfg.actuators[a].id in ids[..k] ==> DutyLegal(cfg.actuators[a], cooling)
      invariant forall a :: 0 <= a < |r| ==>
        r[a] == if cfg.actuators[a].id in ids[..k] then Max(maxState[a], cooling) else maxState[a]
    {
      var slot := FindSlot(actuatorIds, ids[k]);
      assert ids[..k + 1] == ids[..k] + [ids[k]];
      forall a | 0 <= a < |r| ensures cfg.actuators[a].id == ids[k] <==> a == slot {
        assert actuatorIds[a] == cfg.actuators[a].id;
      }
      if slot >= 0 {
        if cooling > r[slot] { r := r[slot := cooling]; }
        if !DutyLegal(cfg.actuators[slot], cooling) {
          assert Drives(cfg, z, slot);
          return false, r;
        }
      }
    }
    assert ids[..|ids|] == ids;
    ok := true;
  }

  /** Among the first n trips of zone z and all trips of earlier zones, some trip asks actuator a for
      cooling state s or a higher one. */
  ghost predicate AskedSoFar(cfg: Config, a: nat, s: nat, z: nat, n: nat)
    requires a < |cfg.actuators| && z <= |cfg.zones|
  {
    exists y, t :: 0 <= y < |cfg.zones| && 0 <= t < |cfg.zones[y].trips| && (y < z || (y == z && t < n)) &&
      Drives(cfg, y, a) && s <= cfg.zones[y].trips[t].cooling
  }

  ghost predicate LegalSoFar(cfg: Config, z: nat, n: nat)
    requires PartsValid(cfg) && z <= |cfg.zones|
  {
    forall a, y, t :: (0 <= a < |cfg.actuators| && 0 <= y < |cfg.zones| && 0 <= t < |cfg.zones[y].trips| &&
      (y < z || (y == z && t < n)) && Drives(cfg, y, a)) ==> DutyLegal(cfg.actuators[a], cfg.zones[y].trips[t].cooling)
  }

  /** maxState holds the highest cooling state asked of each actuator. */
  ghost predicate Highest(cfg: Config, maxState: seq<nat>, z: nat, n: nat)
    requires z <= |cfg.zones|
  {
    |maxState| == |cfg.actuators| &&
    forall a, s: nat :: 0 <= a < |maxState| && s >= 1 ==> (s <= maxState[a] <==> AskedSoFar(cfg, a, s, z, n))
  }

  lemma AskedNext(cfg: Config, a: nat, s: nat, z: nat, n: nat)
    requires a < |cfg.actuators| && z < |cfg.zones| && n < |cfg.zones[z].trips|
    ensures AskedSoFar(cfg, a, s, z, n + 1) <==>
      AskedSoFar(cfg, a, s, z, n) || (Drives(cfg, z, a) && s <= cfg.zones[z].trips[n].cooling)
  {
  }

  lemma AskedZone(cfg: Config, a: nat, s: nat, z: nat)
    requires a < |cfg.actuators| && z < |cfg.zones|
    ensures AskedSoFar(cfg, a, s, z, |cfg.zones[z].trips|) <==> AskedSoFar(cfg, a, s, z + 1, 0)
  {
  }

  lemma HighestNext(cfg: Config, z: nat, n: nat, before: seq<nat>, after: seq<nat>)
    requires z < |cfg.zones| && n < |cfg.zones[z].trips| && Highest(cfg, before, z, n) && |after| == |before|
    requires forall a :: 0 <= a < |after| ==>
      after[a] == if Drives(cfg, z, a) then Max(before[a], cfg.zones[z].trips[n].cooling) else before[a]
    ensures Highest(cfg, after, z, n + 1)
  {
    var next := n + 1;
    forall a, s: nat | 0 <= a < |after| && s >= 1 ensures s <= after[a] <==> AskedSoFar(cfg, a, s, z, next) {
      AskedNext(cfg, a, s, z, n);
    }
  }

  method VisitTrips(cfg: Config) returns (ok: bool, maxState: seq<nat>)
    requires PartsValid(cfg)
    ensures ok <==> LegalSoFar(cfg, |cfg.zones|, 0)
    ensures ok ==> Highest(cfg, maxState, |cfg.zones|, 0)
  {
    maxState := seq(|cfg.actuators|, _ => 0);
    for z := 0 to |cfg.zones|
      invariant LegalSoFar(cfg, z, 0) && Highest(cfg, maxState, z, 0)
    {
      for t := 0 to |cfg.zones[z].trips|
        invariant LegalSoFar(cfg, z, t) && Highest(cfg, maxState, z, t)
      {
        var legal, next := VisitTrip(cfg, z, cfg.zones[z].trips[t].cooling, maxState);
        if !legal { return false, maxState; }
        HighestNext(cfg, z, t, maxState, next);
        maxState := next;
      }
      ZoneDone(cfg, z, maxState);
    }
    ok := true;
  }

  lemma ZoneDone(cfg: Config, z: nat, maxState: seq<nat>)
    requires z < |cfg.zones| && Highest(cfg, maxState, z, |cfg.zones[z].trips|)
    ensures Highest(cfg, maxState, z + 1, 0)
  {
    var next := z + 1;
    forall a, s: nat | 0 <= a < |maxState| && s >= 1 ensures s <= maxState[a] <==> AskedSoFar(cfg, a, s, next, 0) {
      AskedZone(cfg, a, s, z);
    }
  }

  /** Duties never fall up to the highest state asked of the actuator. */
  method DutiesRise(ac: ActuatorCfg, highest: nat) returns (ok: bool)
    requires |ac.statePwm| == MAX_COOLING_STATES && highest < MAX_COOLING_STATES
    ensures ok <==> forall s :: 1 <= s <= highest ==> ac.statePwm[s - 1] <= ac.statePwm[s]
  {
    for s := 1 to highest + 1
      invariant forall r :: 1 <= r < s ==> ac.statePwm[r - 1] <= ac.statePwm[r]
    {
      if ac.statePwm[s] < ac.statePwm[s - 1] { return false; }
    }
    return true;
  }

  lemma VisitedMeansValid(cfg: Config, maxState: seq<nat>)
    requires PartsValid(cfg) && LegalSoFar(cfg, |cfg.zones|, 0) && Highest(cfg, maxState, |cfg.zones|, 0)
    ensures StatePwmValid(cfg) <==> forall a :: 0 <= a < |cfg.actuators| ==> RisesTo(cfg.actuators[a], maxState[a])
    ensures forall a :: 0 <= a < |maxState| ==> maxState[a] < MAX_COOLING_STATES
  {
    forall a, s: nat | 0 <= a < |cfg.actuators| && s >= 1 ensures s <= maxState[a] <==> Reaches(cfg, a, s) {
      assert AskedSoFar(cfg, a, s, |cfg.zones|, 0) <==> Reaches(cfg, a, s);
    }
    forall a | 0 <= a < |maxState| ensures maxState[a] < MAX_COOLING_STATES {
      if maxState[a] > 0 { assert Reaches(cfg, a, maxState[a]); }
    }
  }

  predicate RisesTo(ac: ActuatorCfg, highest: nat) {
    forall s :: 1 <= s <= highest && s < |ac.statePwm| ==> ac.statePwm[s - 1] <= ac.statePwm[s]
  }

  /** validate_state_pwm_references. */
  method StatePwmOk(cfg: Config) returns (ok: bool)
    requires PartsValid(cfg)
    ensures ok <==> StatePwmValid(cfg)
  {
    var legal, maxState := VisitTrips(cfg);
    if !legal {
      IllegalDuty(cfg);
      return false;
    }
    VisitedMeansValid(cfg, maxState);
    for a := 0 to |cfg.actuators|
      invariant forall b :: 0 <= b < a ==> RisesTo(cfg.actuators[b], maxState[b])
    {
      var rises := DutiesRise(cfg.actuators[a], maxState[a]);
      if !rises { return false; }
    }
    return true;
  }

  lemma IllegalDuty(cfg: Config)
    requires PartsValid(cfg) && !LegalSoFar(cfg, |cfg.zones|, 0)
    ensures !StatePwmValid(cfg)
  {
    var a, y, t :| 0 <= a < |cfg.actuators| && 0 <= y < |cfg.zones| && 0 <= t < |cfg.zones[y].trips| &&
      Drives(cfg, y, a) && !DutyLegal(cfg.actuators[a], cfg.zones[y].trips[t].cooling);
    assert cfg.zones[y].trips[t].cooling < MAX_COOLING_STATES;
  }

  // ----- Telemetry, fan health and bookkeeping

  method TelemetryOk(cfg: Config) returns (ok: bool)
    ensures ok <==> TelemetryValid(cfg)
  {
    var t := cfg.telemetry;
    if |t.ids| > MAX_TELEMETRY_SIGNALS { return false; }
    if t.enable && t.periodTicks == 0 { return false; }
    for i := 0 to |t.ids|
      invariant forall j :: 0 <= j < i ==> Signals.Supported(cfg.Counts(), t.ids[j])
    {
      ok := Signals.IsSupported(cfg.Counts(), t.ids[i]);
      if !ok { return; }
    }
    ok := true;
  }

  /** validate_fan_health for one actuator. */
  method FanOk(a: ActuatorCfg) returns (ok: bool)
    ensures ok <==> FanValid(a)
  {
    var fh := a.fan;
    if !fh.enable { return true; }
    if fh.source > FanHealth.SRC_MODEL { return false; }
    if fh.rpmTolerancePct > 100 { return false; }
    if |fh.baseline| < 2 || |fh.baseline| > FanHealth.MAX_POINTS { return false; }
    if fh.baseline[|fh.baseline| - 1].x < a.drive.pwmMax { return false; }
    for p := 0 to |fh.baseline|
      invariant forall q :: 0 <= q < p ==> 0 <= fh.baseline[q].x <= 255 && 1 <= fh.baseline[q].value0 <= 65535
      invariant forall q :: 1 <= q < p ==>
        fh.baseline[q - 1].x < fh.baseline[q].x && fh.baseline[q - 1].value0 <= fh.baseline[q].value0
    {
      var pt := fh.baseline[p];
      if pt.x < 0 || pt.x > 255 || pt.value0 < 1 || pt.value0 > 65535 { return false; }
      if p > 0 && (pt.x <= fh.baseline[p - 1].x || pt.value0 < fh.baseline[p - 1].value0) {
        assert Y(pt, Axis0) < Y(fh.baseline[p - 1], Axis0) || pt.x <= fh.baseline[p - 1].x;
        return false;
      }
    }
    if !(0 > fh.agingPct && fh.agingPct > fh.degradedPct && fh.degradedPct > fh.failingPct) { return false; }
    if fh.pwmTicks == 0 || fh.rpmTicks == 0 { return false; }
    ok := fh.minPoints >= 1 && fh.minPoints <= |fh.baseline|;
  }

  method AncillaryOk(cfg: Config) returns (ok: bool)
    ensures ok <==> AncillaryValid(cfg)
  {
    if cfg.version != CONFIG_VERSION { return false; }
    if cfg.relativeMs != 0 && cfg.relativeMs != cfg.periodMs { return false; }
    for i := 0 to |cfg.sensors|
      invariant forall j :: 0 <= j < i ==> cfg.sensors[j].maxStalenessMs > 0
    {
      if cfg.sensors[i].maxStalenessMs == 0 { return false; }
    }
    for c := 0 to |cfg.contexts|
      invariant forall d :: 0 <= d < c ==> cfg.contexts[d].unit <= UNIT_MAX
    {
      if cfg.contexts[c].unit > UNIT_MAX { return false; }
    }
    for a := 0 to |cfg.actuators|
      invariant forall b :: 0 <= b < a ==> FanValid(cfg.actuators[b])
    {
      ok := FanOk(cfg.actuators[a]);
      if !ok { return; }
    }
    ok := TelemetryOk(cfg);
  }

  // ----- The whole configuration

  method SizesOk(cfg: Config) returns (ok: bool)
    ensures ok <==>
      cfg.periodMs > 0 && |cfg.sensors| <= MAX_SENSORS && |cfg.zones| <= MAX_ZONES &&
      |cfg.actuators| <= MAX_ACTUATORS && |cfg.contexts| <= MAX_CONTEXTS && |cfg.modifiers| <= 1 &&
      (cfg.runaway.enabled ==> cfg.runaway.persistTicks <= RUNAWAY_WINDOW_MAX)
  {
    if cfg.periodMs == 0 { return false; }
    if |cfg.sensors| > MAX_SENSORS || |cfg.zones| > MAX_ZONES || |cfg.actuators| > MAX_ACTUATORS { return false; }
    if |cfg.contexts| > MAX_CONTEXTS || |cfg.modifiers| > 1 { return false; }
    ok := !(cfg.runaway.enabled && cfg.runaway.persistTicks > RUNAWAY_WINDOW_MAX);
  }

  method DetectorsOk(cfg: Config) returns (ok: bool)
    ensures ok <==> DetectorValid(cfg, cfg.stall, false) && DetectorValid(cfg, cfg.stuck, true) &&
                    DetectorValid(cfg, cfg.runaway, false) && DetectorValid(cfg, cfg.stale, false)
  {
    ok := DetectorOk(cfg, cfg.stall, false);
    if !ok { return; }
    ok := DetectorOk(cfg, cfg.stuck, true);
    if !ok { return; }
    ok := DetectorOk(cfg, cfg.runaway, false);
    if !ok { return; }
    ok := DetectorOk(cfg, cfg.stale, false);
  }

  method ZonesOk(cfg: Config) returns (ok: bool)
    ensures ok <==> forall z :: 0 <= z < |cfg.zones| ==> ZoneValid(cfg, cfg.zones[z])
  {
    for z := 0 to |cfg.zones|
      invariant forall y :: 0 <= y < z ==> ZoneValid(cfg, cfg.zones[y])
    {
      ok := ZoneOk(cfg, cfg.zones[z]);
      if !ok { return; }
    }
    ok := true;
  }

  method ModifiersOk(cfg: Config) returns (ok: bool)
    ensures ok <==> forall m :: 0 <= m < |cfg.modifiers| ==> ModifierValid(cfg, cfg.modifiers[m])
  {
    for m := 0 to |cfg.modifiers|
      invariant forall n :: 0 <= n < m ==> ModifierValid(cfg, cfg.modifiers[n])
    {
      ok := ModifierOk(cfg, cfg.modifiers[m]);
      if !ok { return; }
    }
    ok := true;
  }

  /** thermal_core_validate_config accepts exactly the valid configurations. */
  method ValidateConfig(cfg: Config) returns (ok: bool)
    ensures ok <==> ValidConfig(cfg)
  {
    ok := SizesOk(cfg);
    if !ok { return; }
    ok := SensorsValid(cfg);
    if !ok { return; }
    ok := ActuatorsValid(cfg);
    if !ok { return; }
    ok := ContextsValid(cfg);
    if !ok { return; }
    ok := ZonesOk(cfg);
    if !ok { return; }
    ok := ModifiersOk(cfg);
    if !ok { return; }
    ok := DetectorsOk(cfg);
    if !ok { return; }
    assert PartsValid(cfg) by {
      forall z, t | 0 <= z < |cfg.zones| &&
        0 <= t < |cfg.zones[z].trips| ensures cfg.zones[z].trips[t].cooling < MAX_COOLING_STATES {
        assert ZoneValid(cfg, cfg.zones[z]);
      }
    }
    ok := StatePwmOk(cfg);
    if !ok { return; }
    ok := AncillaryOk(cfg);
  }
}
