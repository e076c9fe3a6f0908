/** Configuration of the regulator and its validation (core/thermal_core.h, core/thermal_core.c:364-941,
    1297-1397). */
module Config {
  import opened CInt
  import opened Curve
  import opened Governor
  import opened Fault
  import Actuator
  import FanHealth
  import Pid
  import Signals
  import Zone

  const GOVERNOR_STEP_WISE: u8 := 1
  const GOVERNOR_PID: u8 := 2
  const FAILSAFE_STATIONARY: u8 := 1
  const FAILSAFE_HOLD_LAST: u8 := 2
  const NO_CONTEXT: u16 := 0xFFFF

  const MAX_SENSORS: nat := 8
  const MAX_ZONES: nat := 4
  const MAX_ACTUATORS: nat := 2
  const MAX_CONTEXTS: nat := 4
  const MAX_SENSORS_PER_ZONE: nat := 4
  const MAX_ACTUATORS_PER_ZONE: nat := 2
  const MAX_TRIPS: nat := 4
  const MAX_COOLING_STATES: nat := 5
  const MAX_CURVE_POINTS: nat := 8
  const MAX_SAMPLES: nat := 16
  const RUNAWAY_WINDOW_MAX: nat := 64
  const MAX_TELEMETRY_SIGNALS: nat := 128
  const CONFIG_VERSION: u16 := 1
  const UNIT_MAX: u8 := 4
  const MODIFIER_NAME: string := "acoustic_mask"

  datatype SensorCfg = SensorCfg(id: u16, alpha: i32, maxStalenessMs: u32)

  datatype ContextCfg = ContextCfg(id: u16, unit: u8, alpha: i32, timeoutMs: u32, failSafe: u8)

  datatype ActuatorCfg = ActuatorCfg(id: u16, drive: Actuator.Config, statePwm: seq<u8>, linearization: seq<Point>,
                                     fan: FanHealth.Config)

  datatype PidCfg = PidCfg(gains: Pid.Gains, setpoint: i32, kpMin: i32, kpMax: i32, kiMin: i32, kiMax: i32,
                           kdMin: i32, kdMax: i32, setpointMin: i32, setpointMax: i32, dtMin: u16, dtMax: u16)
  {
    predicate GainsInBounds(kp: i32, ki: i32, kd: i32) {
      kpMin <= kp <= kpMax && kiMin <= ki <= kiMax && kdMin <= kd <= kdMax
    }
    predicate SetpointInBounds(sp: int) { setpointMin <= sp <= setpointMax }
  }

  datatype ZoneCfg = ZoneCfg(sensorIds: seq<u16>, weights: seq<i32>, aggregation: u8, fallbackMc: i32, governor: u8,
                             pid: PidCfg, actuatorIds: seq<u16>, trips: seq<Trip>)

  datatype ModifierCfg = ModifierCfg(name: string, contextId: u16, stages: u8, curve: seq<Point>, failSafe: u8) {
    predicate PreGovernor() { stages % 2 == 1 }        // trip-offset stage bit
    predicate PostGovernor() { stages / 2 % 2 == 1 }   // pwm-cap stage bit
  }

  datatype Telemetry = Telemetry(enable: bool, periodTicks: u16, ids: seq<u16>)

  /** relativeMs is the period the tick counts were written for, 0 when unspecified. */
  datatype Config = Config(version: u16, periodMs: u16, relativeMs: u16, telemetry: Telemetry,
                           sensors: seq<SensorCfg>, contexts: seq<ContextCfg>, actuators: seq<ActuatorCfg>,
                           zones: seq<ZoneCfg>, modifiers: seq<ModifierCfg>,
                           stall: DetectorCfg, stuck: DetectorCfg, runaway: DetectorCfg, stale: DetectorCfg)
  {
    function SensorIds(): (ids: seq<u16>)
      ensures |ids| == |sensors|
    {
      seq(|sensors|, i requires 0 <= i < |sensors| => sensors[i].id)
    }
    function ContextIds(): (ids: seq<u16>)
      ensures |ids| == |contexts|
    {
      seq(|contexts|, i requires 0 <= i < |contexts| => contexts[i].id)
    }
    function ActuatorIds(): (ids: seq<u16>)
      ensures |ids| == |actuators|
    {
      seq(|actuators|, i requires 0 <= i < |actuators| => actuators[i].id)
    }
    function Counts(): Signals.Counts {
      Signals.Counts(|sensors|, |zones|, |actuators|, |contexts|, |modifiers|)
    }
  }

  /** First slot holding an id, -1 when there is none. */
  function SlotOf(ids: seq<u16>, id: u16): (slot: int)
    ensures -1 <= slot < |ids|
    ensures slot >= 0 ==> ids[slot] == id && id !in ids[..slot]
    ensures slot == -1 <==> id !in ids
  {
    if |ids| == 0 then -1
    else if ids[0] == id then 0
    else
      var rest := SlotOf(ids[1..], id);
      if rest < 0 then -1
      else
        assert ids[..rest + 1] == [ids[0]] + ids[1..][..rest];
        rest + 1
  }

  method FindSlot(ids: seq<u16>, id: u16) returns (slot: int)
    ensures slot == SlotOf(ids, id)
  {
    for i := 0 to |ids|
      invariant id !in ids[..i]
    {
      if ids[i] == id { return i; }
    }
    assert ids[..|ids|] == ids;
    return -1;
  }

  predicate Distinct(ids: seq<u16>) { forall i, j :: 0 <= i < j < |ids| ==> ids[i] != ids[j] }

  // ----- Validity of the parts

  /** A duty linearization: absent, or a monotone map of [0, 255] onto itself. */
  predicate LinearizationValid(c: seq<Point>) {
    |c| == 0 ||
    (2 <= |c| <= MAX_CURVE_POINTS && Ascending(c) && Rising(c, Axis0) &&
     (forall p :: 0 <= p < |c| ==> 0 <= c[p].x <= 255 && 0 <= c[p].value0 <= 255 && c[p].value1 == 0) &&
     c[0].x == 0 && c[0].value0 == 0 && c[|c| - 1].x == 255 && c[|c| - 1].value0 == 255)
  }

  predicate ActuatorValid(a: ActuatorCfg) {
    a.drive.Valid() && |a.statePwm| == MAX_COOLING_STATES && LinearizationValid(a.linearization)
  }

  predicate PidValid(p: PidCfg, periodMs: u16, trips: seq<Trip>) {
    p.GainsInBounds(p.gains.kp, p.gains.ki, p.gains.kd) && 0 <= p.gains.dAlpha <= Q16_ONE &&
    p.SetpointInBounds(p.setpoint) && 0 < p.dtMin <= periodMs <= p.dtMax &&
    exists i :: 0 <= i < |trips| && (trips[i].severity == TRIP_CRITICAL || trips[i].severity == TRIP_SHUTDOWN)
  }

  function WeightSum(w: seq<i32>): int { if |w| == 0 then 0 else WeightSum(w[..|w| - 1]) + w[|w| - 1] }

  predicate ZoneValid(cfg: Config, z: ZoneCfg) {
    0 < |z.sensorIds| <= MAX_SENSORS_PER_ZONE && |z.weights| == |z.sensorIds| &&
    0 < |z.actuatorIds| <= MAX_ACTUATORS_PER_ZONE &&
    z.aggregation in {Zone.AGG_MAX, Zone.AGG_AVG, Zone.AGG_WEIGHTED} &&
    z.governor in {GOVERNOR_STEP_WISE, GOVERNOR_PID} &&
    (forall i :: 0 <= i < |z.sensorIds| ==> z.sensorIds[i] in cfg.SensorIds()) &&
    (forall i :: 0 <= i < |z.actuatorIds| ==> z.actuatorIds[i] in cfg.ActuatorIds()) &&
    (z.aggregation == Zone.AGG_WEIGHTED ==> WeightSum(z.weights) > 0) &&
    |z.trips| <= MAX_TRIPS && Ordered(z.trips) &&
    (forall i :: 0 <= i < |z.trips| ==>
      z.trips[i].cooling < MAX_COOLING_STATES && z.trips[i].severity in {TRIP_WARN, TRIP_CRITICAL, TRIP_SHUTDOWN}) &&
    FallbackReaches(z.fallbackMc, z.trips) &&
    (z.governor == GOVERNOR_PID ==> PidValid(z.pid, cfg.periodMs, z.trips))
  }

  /** The values of one knot are acceptable for the given trip tables and setpoints (one per zone). */
  predicate KnotValid(cfg: Config, trips: seq<seq<Trip>>, setpoints: seq<i32>, m: ModifierCfg, p: Point)
    requires |trips| == |setpoints| == |cfg.zones|
  {
    0 <= p.value0 <= 255 &&
    (m.PostGovernor() ==>
      forall a :: 0 <= a < |cfg.actuators| ==> p.value0 == 0 || cfg.actuators[a].drive.pwmMin <= p.value0) &&
    (m.PreGovernor() ==>
      forall z :: 0 <= z < |cfg.zones| ==> OffsetValid(cfg.zones[z], trips[z], setpoints[z], p.value1))
  }

  /** An offset keeps one zone's trips valid and, for a PID zone, its setpoint within bounds. */
  predicate OffsetValid(z: ZoneCfg, trips: seq<Trip>, setpoint: i32, offset: int) {
    ValidAt(trips, offset) && (z.governor == GOVERNOR_PID ==> z.pid.SetpointInBounds(setpoint + offset))
  }

  predicate CurveValid(cfg: Config, trips: seq<seq<Trip>>, setpoints: seq<i32>, m: ModifierCfg)
    requires |trips| == |setpoints| == |cfg.zones|
  {
    forall p :: 0 <= p < |m.curve| ==> KnotValid(cfg, trips, setpoints, m, m.curve[p])
  }

  method CheckKnot(cfg: Config, trips: seq<seq<Trip>>, setpoints: seq<i32>, m: ModifierCfg, p: Point) returns (ok: bool)
    requires |trips| == |setpoints| == |cfg.zones|
    ensures ok <==> KnotValid(cfg, trips, setpoints, m, p)
  {
    if p.value0 < 0 || p.value0 > 255 { return false; }
    if m.PostGovernor() {
      for a := 0 to |cfg.actuators|
        invariant forall b :: 0 <= b < a ==> p.value0 == 0 || cfg.actuators[b].drive.pwmMin <= p.value0
      {
        if p.value0 != 0 && p.value0 < cfg.actuators[a].drive.pwmMin { return false; }
      }
    }
    if m.PreGovernor() {
      for z := 0 to |cfg.zones|
        invariant forall y :: 0 <= y < z ==> OffsetValid(cfg.zones[y], trips[y], setpoints[y], p.value1)
      {
        var fits := AdjustedTripsValid(trips[z], p.value1);
        if !fits { return false; }
        if cfg.zones[z].governor == GOVERNOR_PID {
          var shifted := setpoints[z] + p.value1;
          if shifted < cfg.zones[z].pid.setpointMin || shifted > cfg.zones[z].pid.setpointMax { return false; }
        }
      }
    }
    return true;
  }

  /** modifier_curve_values_valid and its runtime twin: the same test against the current tables. */
  method CheckCurve(cfg: Config, trips: seq<seq<Trip>>, setpoints: seq<i32>, m: ModifierCfg) returns (ok: bool)
    requires |trips| == |setpoints| == |cfg.zones|
    ensures ok <==> CurveValid(cfg, trips, setpoints, m)
  {
    for p := 0 to |m.curve|
      invariant forall q :: 0 <= q < p ==> KnotValid(cfg, trips, setpoints, m, m.curve[q])
    {
      var good := CheckKnot(cfg, trips, setpoints, m, m.curve[p]);
      if !good { return false; }
    }
    return true;
  }

  function CfgTrips(cfg: Config): (t: seq<seq<Trip>>)
    ensures |t| == |cfg.zones|
  {
    seq(|cfg.zones|, z requires 0 <= z < |cfg.zones| => cfg.zones[z].trips)
  }

  function CfgSetpoints(cfg: Config): (t: seq<i32>)
    ensures |t| == |cfg.zones|
  {
    seq(|cfg.zones|, z requires 0 <= z < |cfg.zones| => cfg.zones[z].pid.setpoint)
  }

  predicate ModifierValid(cfg: Config, m: ModifierCfg) {
    var slot := SlotOf(cfg.ContextIds(), m.contextId);
    m.name == MODIFIER_NAME && slot >= 0 && 2 <= |m.curve| <= MAX_CURVE_POINTS && Ascending(m.curve) &&
    CurveValid(cfg, CfgTrips(cfg), CfgSetpoints(cfg), m) &&
    m.failSafe in {FAILSAFE_STATIONARY, FAILSAFE_HOLD_LAST} && cfg.contexts[slot].failSafe == m.failSafe &&
    1 <= m.stages <= 3
  }

  predicate DetectorValid(cfg: Config, fc: DetectorCfg, needsContext: bool) {
    fc.enabled ==>
      1 <= fc.severity <= 2 && fc.action <= ACTION_REQUEST_SHUTDOWN &&
      (needsContext && fc.contextId != NO_CONTEXT ==> fc.contextId in cfg.ContextIds() && fc.threshold2 > 0)
  }

  /** Actuator a is driven by zone z. */
  predicate Drives(cfg: Config, z: nat, a: nat)
    requires z < |cfg.zones| && a < |cfg.actuators|
  {
    cfg.actuators[a].id in cfg.zones[z].actuatorIds
  }

  /** Cooling state s, or a higher one, is asked of actuator a by some trip of a zone that drives it. */
  predicate Reaches(cfg: Config, a: nat, s: nat)
    requires a < |cfg.actuators|
  {
    exists z, t :: 0 <= z < |cfg.zones| && Drives(cfg, z, a) && 0 <= t < |cfg.zones[z].trips| &&
      s <= cfg.zones[z].trips[t].cooling
  }

  /** Duties are legal where a trip refers to them and do not fall as the cooling state rises. */
  predicate StatePwmValid(cfg: Config) {
    forall a :: 0 <= a < |cfg.actuators| && |cfg.actuators[a].statePwm| == MAX_COOLING_STATES ==>
      var ac := cfg.actuators[a];
      (forall z, t ::
        (0 <= z < |cfg.zones| && Drives(cfg, z, a) && 0 <= t < |cfg.zones[z].trips| &&
         cfg.zones[z].trips[t].cooling < MAX_COOLING_STATES) ==>
        var pwm := ac.statePwm[cfg.zones[z].trips[t].cooling];
        pwm == 0 || ac.drive.pwmMin <= pwm <= ac.drive.pwmMax) &&
      (forall s :: 1 <= s < MAX_COOLING_STATES && Reaches(cfg, a, s) ==> ac.statePwm[s - 1] <= ac.statePwm[s])
  }

  /** An enabled fan-health baseline is valid and reaches the actuator's highest duty. */
  predicate FanValid(a: ActuatorCfg) {
    a.fan.enable ==> a.fan.Valid() && a.fan.baseline[|a.fan.baseline| - 1].x >= a.drive.pwmMax
  }

  ghost predicate TelemetryValid(cfg: Config) {
    var t := cfg.telemetry;
    |t.ids| <= MAX_TELEMETRY_SIGNALS && (t.enable ==> t.periodTicks > 0) &&
    forall i :: 0 <= i < |t.ids| ==> Signals.Supported(cfg.Counts(), t.ids[i])
  }

  /** The rules on fields that never reach the control law. */
  ghost predicate AncillaryValid(cfg: Config) {
    cfg.version == CONFIG_VERSION && (cfg.relativeMs == 0 || cfg.relativeMs == cfg.periodMs) &&
    (forall i :: 0 <= i < |cfg.sensors| ==> cfg.sensors[i].maxStalenessMs > 0) &&
    (forall c :: 0 <= c < |cfg.contexts| ==> cfg.contexts[c].unit <= UNIT_MAX) &&
    (forall a :: 0 <= a < |cfg.actuators| ==> FanValid(cfg.actuators[a])) && TelemetryValid(cfg)
  }

  ghost predicate ValidConfig(cfg: Config) {
    cfg.periodMs > 0 &&
    |cfg.sensors| <= MAX_SENSORS && |cfg.zones| <= MAX_ZONES && |cfg.actuators| <= MAX_ACTUATORS &&
    |cfg.contexts| <= MAX_CONTEXTS && |cfg.modifiers| <= 1 &&
    (cfg.runaway.enabled ==> cfg.runaway.persistTicks <= RUNAWAY_WINDOW_MAX) &&
    Distinct(cfg.SensorIds()) && Distinct(cfg.ActuatorIds()) && Distinct(cfg.ContextIds()) &&
    (forall i :: 0 <= i < |cfg.sensors| ==> 0 <= cfg.sensors[i].alpha <= Q16_ONE) &&
    (forall a :: 0 <= a < |cfg.actuators| ==> ActuatorValid(cfg.actuators[a])) &&
    (forall c :: 0 <= c < |cfg.contexts| ==>
      cfg.contexts[c].timeoutMs > 0 && 0 <= cfg.contexts[c].alpha <= Q16_ONE &&
      cfg.contexts[c].failSafe in {FAILSAFE_STATIONARY, FAILSAFE_HOLD_LAST}) &&
    (forall z :: 0 <= z < |cfg.zones| ==> ZoneValid(cfg, cfg.zones[z])) &&
    (forall m :: 0 <= m < |cfg.modifiers| ==> ModifierValid(cfg, cfg.modifiers[m])) &&
    DetectorValid(cfg, cfg.stall, false) && DetectorValid(cfg, cfg.stuck, true) &&
    DetectorValid(cfg, cfg.runaway, false) && DetectorValid(cfg, cfg.stale, false) &&
    StatePwmValid(cfg) && AncillaryValid(cfg)
  }

  // ----- What the curve checks at the knots mean between them

  lemma ExtremeKnots(c: seq<Point>, axis: Axis) returns (lo: nat, hi: nat)
    requires |c| > 0
    ensures lo < |c| && hi < |c|
    ensures forall i :: 0 <= i < |c| ==> Y(c[lo], axis) <= Y(c[i], axis) <= Y(c[hi], axis)
  {
    lo, hi := 0, 0;
    for i := 0 to |c|
      invariant lo < |c| && hi < |c|
      invariant forall j :: 0 <= j < i ==> Y(c[lo], axis) <= Y(c[j], axis) <= Y(c[hi], axis)
    {
      if Y(c[i], axis) < Y(c[lo], axis) { lo := i; }
      if Y(c[i], axis) > Y(c[hi], axis) { hi := i; }
    }
  }

  /** Validation looks only at the knots; it thereby covers every offset the curve can interpolate,
      and every cap it can interpolate is a byte. */
  lemma KnotsCoverCurve(cfg: Config, trips: seq<seq<Trip>>, setpoints: seq<i32>, m: ModifierCfg, x: int)
    requires |trips| == |setpoints| == |cfg.zones|
    requires |m.curve| > 0 && Ascending(m.curve) && CurveValid(cfg, trips, setpoints, m)
    ensures 0 <= Eval(m.curve, Axis0, x) <= 255
    ensures m.PreGovernor() ==>
      forall z :: 0 <= z < |cfg.zones| ==> OffsetValid(cfg.zones[z], trips[z], setpoints[z], Eval(m.curve, Axis1, x))
  {
    EvalHull(m.curve, Axis0, x, 0, 255);
    if m.PreGovernor() {
      var lo, hi := ExtremeKnots(m.curve, Axis1);
      var l, h := m.curve[lo].value1, m.curve[hi].value1;
      EvalHull(m.curve, Axis1, x, l, h);
      assert KnotValid(cfg, trips, setpoints, m, m.curve[lo]) && KnotValid(cfg, trips, setpoints, m, m.curve[hi]);
      forall z | 0 <= z < |cfg.zones|
        ensures OffsetValid(cfg.zones[z], trips[z], setpoints[z], Eval(m.curve, Axis1, x))
      {
        ValidBetween(trips[z], l, h, Eval(m.curve, Axis1, x));
      }
    }
  }
}
