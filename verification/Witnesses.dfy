/** Accepted configurations on which three properties a reader may expect fail (core/thermal_core.c:513-535,
    899-909, 1649-1708). */
module Witnesses {
  import opened CInt
  import opened Curve
  import opened Governor
  import opened Config
  import opened Fault
  import opened Regulator
  import opened Invariants
  import Actuator
  import DetectorRuns
  import Detectors
  import FanHealth
  import Filter
  import Pid
  import Safety
  import Zone

  const NO_DETECTOR: DetectorCfg := DetectorCfg(false, 0, 0, 0, 0, 0, 0, 0, NO_CONTEXT)

  const NO_PID: PidCfg := PidCfg(Pid.Gains(0, 0, 0, 0), 0, 0, 0, 0, 0, 0, 0, 0, 0, 0, 0)

  const NO_FAN_HEALTH: FanHealth.Config := FanHealth.Config(false, 0, [], 0, 0, 0, 0, 0, 0, 0, 0)

  /** One fan with id 20, one context signal with id 10, and at most a stuck-sensor detector. */
  function Plant(sensors: seq<SensorCfg>, zone: ZoneCfg, modifiers: seq<ModifierCfg>, stuck: DetectorCfg): Config {
    Config(CONFIG_VERSION, 100, 0, Telemetry(false, 0, []), sensors,
           [ContextCfg(10, 0, 65536, 1000, FAILSAFE_STATIONARY)],
           [ActuatorCfg(20, Actuator.Config(0, 255, 0, 0, 0, 0, 0), [0, 64, 128, 192, 255], [], NO_FAN_HEALTH)],
           [zone], modifiers, NO_DETECTOR, stuck, NO_DETECTOR, NO_DETECTOR)
  }

  lemma PlantDuties(cfg: Config)
    requires |cfg.actuators| == 1 && cfg.actuators[0].statePwm == [0, 64, 128, 192, 255]
    requires cfg.actuators[0].drive == Actuator.Config(0, 255, 0, 0, 0, 0, 0)
    ensures StatePwmValid(cfg)
  {
  }

  lemma PlantValid(sensors: seq<SensorCfg>, zone: ZoneCfg, modifiers: seq<ModifierCfg>, stuck: DetectorCfg)
    requires var cfg := Plant(sensors, zone, modifiers, stuck);
             |sensors| <= MAX_SENSORS && Distinct(cfg.SensorIds()) && ZoneValid(cfg, zone) && |modifiers| <= 1 &&
             DetectorValid(cfg, stuck, true)
    requires forall i :: 0 <= i < |sensors| ==> 0 <= sensors[i].alpha <= Q16_ONE && sensors[i].maxStalenessMs > 0
    requires forall m :: 0 <= m < |modifiers| ==> ModifierValid(Plant(sensors, zone, modifiers, stuck), modifiers[m])
    ensures ValidConfig(Plant(sensors, zone, modifiers, stuck))
  {
    var cfg := Plant(sensors, zone, modifiers, stuck);
    PlantDuties(cfg);
    assert ActuatorValid(cfg.actuators[0]);
    assert cfg.ActuatorIds() == [20] && cfg.ContextIds() == [10];
  }

  // ----- A curve that raises the trips beyond the fallback

  /** Trips at 70 (WARN) and 90 (CRITICAL) degrees, fallback 90 degrees. */
  const RAISED_ZONE: ZoneCfg :=
    ZoneCfg([1], [65536], Zone.AGG_MAX, 90000, GOVERNOR_STEP_WISE, NO_PID, [20],
            [Trip(70000, 5000, TRIP_WARN, 1), Trip(90000, 5000, TRIP_CRITICAL, 4)])

  /** No offset at context 0, +10 degrees at context 30000. */
  const RAISING: ModifierCfg :=
    ModifierCfg(MODIFIER_NAME, 10, 1, [Point(0, 255, 0), Point(30000, 255, 10000)], FAILSAFE_STATIONARY)

  function Raised(): Config { Plant([SensorCfg(1, 65536, 1000)], RAISED_ZONE, [RAISING], NO_DETECTOR) }

  /** A first snapshot with the raising context and no temperature. */
  const BLIND: Snapshot := Snapshot(0, [Sample(ContextI32, 10, 30000, true)])

  lemma RaisedZoneValid()
    ensures ZoneValid(Raised(), RAISED_ZONE)
  {
    assert Raised().SensorIds() == [1] && Raised().ActuatorIds() == [20];
  }

  lemma RaisingValid()
    ensures ModifierValid(Raised(), RAISING)
  {
    var cfg := Raised();
    assert cfg.ContextIds() == [10];
    assert CfgTrips(cfg) == [RAISED_ZONE.trips];
    forall p | 0 <= p < 2 ensures KnotValid(cfg, CfgTrips(cfg), CfgSetpoints(cfg), RAISING, RAISING.curve[p]) {
      assert ValidAt(RAISED_ZONE.trips, RAISING.curve[p].value1);
    }
  }

  lemma RaisedValid()
    ensures ValidConfig(Raised()) && Inv(Raised(), Init(Raised()))
  {
    RaisedZoneValid();
    RaisingValid();
    PlantValid([SensorCfg(1, 65536, 1000)], RAISED_ZONE, [RAISING], NO_DETECTOR);
    InitInv(Raised());
  }

  /** With the context at or beyond the last point, the offset is the last point's. */
  lemma OffsetAtEnd(cfg: Config, s: Core, snap: Snapshot, slot: nat)
    requires Sized(cfg, s) && CurvesAscending(s) && |cfg.modifiers| > 0 && s.modifiers[0].PreGovernor()
    requires slot < |cfg.contexts| && SlotOf(cfg.ContextIds(), s.modifiers[0].contextId) == slot
    requires var c := s.modifiers[0].curve;
             |c| > 0 && EffectiveContext(cfg.contexts[slot], Contexts1(cfg, s, snap)[slot]) >= c[|c| - 1].x
    ensures var c := s.modifiers[0].curve; TripOffset(s, Mod1(cfg, s, snap)) == c[|c| - 1].value1
  {
    var x := EffectiveContext(cfg.contexts[slot], Contexts1(cfg, s, snap)[slot]);
    EvalAboveLast(s.modifiers[0].curve, Axis1, x);
  }

  lemma RaisedContext(cfg: Config, s: Core)
    requires cfg == Raised() && s == Init(cfg) && Sized(cfg, s)
    ensures EffectiveContext(cfg.contexts[0], Contexts1(cfg, s, BLIND)[0]) == 30000
  {
    assert Lookup(BLIND.samples, ContextI32, 10) == Filter.Sample(30000, true);
    assert Contexts1(cfg, s, BLIND)[0] == ContextStep(s.contexts[0], cfg.contexts[0], BLIND);
  }

  lemma RaisedOffset(cfg: Config, s: Core)
    requires cfg == Raised() && s == Init(cfg) && Sized(cfg, s) && CurvesAscending(s)
    ensures TripOffset(s, Mod1(cfg, s, BLIND)) == 10000
  {
    assert cfg.ContextIds() == [10];
    RaisedContext(cfg, s);
    OffsetAtEnd(cfg, s, BLIND, 0);
  }

  lemma RaisedIsBlind()
    requires Sized(Raised(), Init(Raised()))
    ensures Wellformed(Raised(), BLIND) && Safety.Blind(Raised(), Init(Raised()), BLIND, 0)
  {
    var cfg, s := Raised(), Init(Raised());
    assert cfg.SensorIds() == [1] && cfg.ContextIds() == [10];
    assert Lookup(BLIND.samples, TempMc, 1) == Filter.Sample(0, false);
    assert Filters1(cfg, s, BLIND)[0] == Filter.Step(s.filters[0], 65536, Filter.Sample(0, false));
  }

  lemma RaisedTripsOutOfReach()
    ensures !ReachesSafety(90000, RAISED_ZONE.trips, 10000)
  {
  }

  lemma RaisedMisses(cfg: Config, s: Core)
    requires cfg == Raised() && s == Init(cfg) && Sized(cfg, s) && CurvesAscending(s)
    ensures !Safety.FloorReached(cfg, s, BLIND, 0)
  {
    RaisedOffset(cfg, s);
    RaisedTripsOutOfReach();
    assert s.zones[0].trips == RAISED_ZONE.trips && cfg.zones[0].fallbackMc == 90000;
  }

  lemma StartsCalm(cfg: Config)
    requires |cfg.zones| == 1
    ensures Safety.Calm(cfg.zones[0], Init(cfg).zones[0])
  {
  }

  lemma BelowCritical(cfg: Config, s: Core)
    requires Inv(cfg, s) && |cfg.zones| == 1 && Safety.Blind(cfg, s, BLIND, 0)
    requires Safety.Calm(cfg.zones[0], s.zones[0]) && !Safety.FloorReached(cfg, s, BLIND, 0)
    ensures ZoneSeverity(cfg.zones[0], Zone1(cfg, s, BLIND, 0)) < TRIP_CRITICAL
  {
    Safety.BlindZoneIsCritical(cfg, s, BLIND, 0);
  }

  /** Validation accepts this configuration, and on its first tick its only zone has no usable sensor and
      stays below CRITICAL: the fallback floor is not a promise of validation alone. */
  lemma RaisedTripsMissFallback()
    ensures ValidConfig(Raised()) && Wellformed(Raised(), BLIND) && Inv(Raised(), Init(Raised()))
    ensures Safety.Blind(Raised(), Init(Raised()), BLIND, 0)
    ensures ZoneSeverity(Raised().zones[0], Zone1(Raised(), Init(Raised()), BLIND, 0)) < TRIP_CRITICAL
  {
    RaisedValid();
    RaisedIsBlind();
    RaisedMisses(Raised(), Init(Raised()));
    StartsCalm(Raised());
    BelowCritical(Raised(), Init(Raised()));
  }

  // ----- A weighted zone that leaves the range of its sensors

  /** Weights 2 and -1; one CRITICAL trip at 90 degrees. */
  const SKEWED_ZONE: ZoneCfg :=
    ZoneCfg([1, 2], [2 * 65536, -65536], Zone.AGG_WEIGHTED, 90000, GOVERNOR_STEP_WISE, NO_PID, [20],
            [Trip(90000, 5000, TRIP_CRITICAL, 4)])

  function Skewed(): Config {
    Plant([SensorCfg(1, 65536, 1000), SensorCfg(2, 65536, 1000)], SKEWED_ZONE, [], NO_DETECTOR)
  }

  /** A first snapshot: 0 and -60 degrees. */
  const COLD: Snapshot := Snapshot(0, [Sample(TempMc, 1, 0, true), Sample(TempMc, 2, -60000, true)])

  lemma SkewedWeights()
    ensures WeightSum(SKEWED_ZONE.weights) > 0
  {
    var w := SKEWED_ZONE.weights;
    assert w[..1] == [131072] && w[..1][..0] == [];
  }

  lemma SkewedValid()
    ensures ValidConfig(Skewed())
  {
    assert Skewed().SensorIds() == [1, 2] && Skewed().ActuatorIds() == [20];
    SkewedWeights();
    assert ZoneValid(Skewed(), SKEWED_ZONE);
    PlantValid([SensorCfg(1, 65536, 1000), SensorCfg(2, 65536, 1000)], SKEWED_ZONE, [], NO_DETECTOR);
  }

  lemma SkewedSlots(cfg: Config, s: Core)
    requires cfg == Skewed() && s == Init(cfg) && Sized(cfg, s)
    ensures Slots(cfg, s, COLD, 0) == [Zone.Slot(0, true, 2 * 65536), Zone.Slot(-60000, true, -65536)]
  {
    assert cfg.SensorIds() == [1, 2];
    assert Lookup(COLD.samples, TempMc, 1) == Filter.Sample(0, true);
    assert Lookup(COLD.samples, TempMc, 2) == Filter.Sample(-60000, true);
    var f, t := Filters1(cfg, s, COLD), Stuck1(cfg, s, COLD);
    assert f[0] == Filter.Step(Filter.RESET, 65536, Filter.Sample(0, true));
    assert f[1] == Filter.Step(Filter.RESET, 65536, Filter.Sample(-60000, true));
    assert SlotViews(cfg, f, t, 0)[0] == SlotView(cfg, f, t, 0, 0);
    assert SlotViews(cfg, f, t, 0)[1] == SlotView(cfg, f, t, 0, 1);
  }

  /** Validation accepts a negative weight, and on the first tick of this configuration a zone whose sensors
      read 0 and -60 degrees acts on +60 degrees. */
  lemma SkewedZoneLeavesSensors()
    ensures ValidConfig(Skewed()) && Inv(Skewed(), Init(Skewed()))
    ensures Slots(Skewed(), Init(Skewed()), COLD, 0) == [Zone.Slot(0, true, 2 * 65536), Zone.Slot(-60000, true, -65536)]
    ensures Zone1(Skewed(), Init(Skewed()), COLD, 0).temp == 60000
  {
    SkewedValid();
    InitInv(Skewed());
    SkewedSlots(Skewed(), Init(Skewed()));
    SkewedReads(Skewed(), Init(Skewed()));
  }

  lemma SkewedReads(cfg: Config, s: Core)
    requires Sized(cfg, s) && CurvesAscending(s) && |cfg.zones| == 1 && cfg.zones[0] == SKEWED_ZONE
    requires Slots(cfg, s, COLD, 0) == [Zone.Slot(0, true, 2 * 65536), Zone.Slot(-60000, true, -65536)]
    ensures Zone1(cfg, s, COLD, 0).temp == 60000
  {
    Zone.NegativeWeightLeavesHull();
  }

  // ----- A stuck-sensor detector that cannot report

  /** Flat within 1 degree over a window of 3 ticks, on 2 ticks in a row. */
  const SILENT: DetectorCfg := DetectorCfg(true, 1, 1, 2, 1, 1000, 3, 0, NO_CONTEXT)

  function Silent(): Config { Plant([SensorCfg(1, 65536, 1000)], RAISED_ZONE, [], SILENT) }

  lemma SilentValid()
    ensures ValidConfig(Silent()) && |Silent().sensors| == 1
    ensures Silent().stuck.enabled && !Detectors.CanReport(Silent().stuck)
  {
    assert Silent().SensorIds() == [1] && Silent().ActuatorIds() == [20];
    assert ZoneValid(Silent(), RAISED_ZONE);
    PlantValid([SensorCfg(1, 65536, 1000)], RAISED_ZONE, [], SILENT);
  }

  /** Under such settings the first sensor is never reported. */
  lemma NeverReported(cfg: Config, ops: seq<Invariants.Op>)
    requires ValidConfig(cfg) && |cfg.sensors| > 0 && !Detectors.CanReport(cfg.stuck)
    ensures !Invariants.Run(cfg, ops).stuck[0].det.fsm.Active()
  {
    DetectorRuns.CoreNeverReportsStuck(cfg, ops, 0);
  }

  /** Validation accepts this enabled detector, and no run of the regulator makes it report. */
  lemma SilentDetectorNeverReports(ops: seq<Invariants.Op>)
    ensures ValidConfig(Silent()) && Silent().stuck.enabled
    ensures !Invariants.Run(Silent(), ops).stuck[0].det.fsm.Active()
  {
    SilentValid();
    NeverReported(Silent(), ops);
  }
}
