/** What every tick and every command keeps, from any validated configuration (core/thermal_core.c). */
module Invariants {
  import opened CInt
  import opened Curve
  import opened Governor
  import opened Config
  import opened Regulator
  import Actuator
  import Pid
  import Runaway
  import Wire
  import Zone

  // ----- The invariant

  ghost predicate ZoneInv(z: ZoneCfg, zr: ZoneRt) {
    (z.governor == GOVERNOR_PID ==> PidLimits(z).Valid()) &&
    |zr.trips| == |z.trips| && Ordered(zr.trips) && FallbackReaches(z.fallbackMc, zr.trips) &&
    (forall i :: 0 <= i < |z.trips| ==>
      zr.trips[i].severity == z.trips[i].severity && zr.trips[i].cooling == z.trips[i].cooling < MAX_COOLING_STATES) &&
    (z.governor == GOVERNOR_PID ==>
      z.pid.GainsInBounds(zr.gains.kp, zr.gains.ki, zr.gains.kd) && zr.gains.dAlpha == z.pid.gains.dAlpha &&
      z.pid.SetpointInBounds(zr.setpoint)) &&
    IsPrefix(zr.mask) && (forall i :: i in zr.mask ==> i < |z.trips|) && zr.cooling < MAX_COOLING_STATES
  }

  /** A shadow modifier differs from its configuration only in the curve's points. */
  predicate Shadows(m: ModifierCfg, c: ModifierCfg) {
    m.contextId == c.contextId && m.stages == c.stages && m.failSafe == c.failSafe && |m.curve| == |c.curve| > 0 &&
    Ascending(m.curve)
  }

  ghost predicate ModifiersInv(cfg: Config, s: Core)
    requires |s.zones| == |cfg.zones| && |s.modifiers| == |cfg.modifiers|
  {
    forall m :: 0 <= m < |cfg.modifiers| ==>
      Shadows(s.modifiers[m], cfg.modifiers[m]) && CurveValid(cfg, Trips(s), Setpoints(s), s.modifiers[m])
  }

  ghost predicate Inv(cfg: Config, s: Core) {
    Sized(cfg, s) && CurvesAscending(s) && ModifiersInv(cfg, s) &&
    (forall z :: 0 <= z < |cfg.zones| ==> ZoneInv(cfg.zones[z], s.zones[z])) &&
    (forall a :: 0 <= a < |cfg.actuators| ==> Actuator.Inv(cfg.actuators[a].drive, s.acts[a]))
  }

  lemma InitInv(cfg: Config)
    requires ValidConfig(cfg)
    ensures Inv(cfg, Init(cfg))
  {
    var s := Init(cfg);
    assert Trips(s) == CfgTrips(cfg) && Setpoints(s) == CfgSetpoints(cfg);
  }

  // ----- One tick

  /** Under the invariant the 32-bit additions of the offset do not wrap. */
  lemma EffectiveIsShifted(trips: seq<Trip>, offset: int)
    requires ValidAt(trips, offset)
    ensures EffectiveTrips(trips, offset) == Shifted(trips, offset)
  {
  }

  lemma ZeroOffsetValid(trips: seq<Trip>)
    requires Ordered(trips)
    ensures ValidAt(trips, 0)
  {
  }

  /** Every offset this tick can apply is one validation covered, for every zone. */
  lemma TickOffsetValid(cfg: Config, s: Core, snap: Snapshot, z: nat)
    requires Inv(cfg, s) && z < |cfg.zones|
    ensures OffsetValid(cfg.zones[z], s.zones[z].trips, s.zones[z].setpoint, TripOffset(s, Mod1(cfg, s, snap)))
  {
    ZeroOffsetValid(s.zones[z].trips);
    var mod := Mod1(cfg, s, snap);
    if TripOffset(s, mod) != 0 {
      var m := s.modifiers[0];
      var slot := SlotOf(cfg.ContextIds(), m.contextId);
      var x := EffectiveContext(cfg.contexts[slot], Contexts1(cfg, s, snap)[slot]);
      KnotsCoverCurve(cfg, Trips(s), Setpoints(s), m, x);
    }
  }

  lemma ZoneStepInv(z: ZoneCfg, zr: ZoneRt, reading: Zone.Reading, offset: int, now: u32)
    requires ZoneInv(z, zr) && OffsetValid(z, zr.trips, zr.setpoint, offset)
    ensures var t := ZoneStep(z, zr, reading, offset, now);
            ZoneInv(z, t) && t.trips == zr.trips && t.setpoint == zr.setpoint && t.gains == zr.gains
  {
    EffectiveIsShifted(zr.trips, offset);
    MaskIsPrefix(Shifted(zr.trips, offset), reading.tempMc, zr.mask);
  }

  lemma TickKeepsZones(cfg: Config, s: Core, snap: Snapshot)
    requires Inv(cfg, s)
    ensures forall z :: 0 <= z < |cfg.zones| ==> ZoneInv(cfg.zones[z], Zones1(cfg, s, snap)[z])
    ensures forall z :: 0 <= z < |cfg.zones| ==>
      Zones1(cfg, s, snap)[z].trips == s.zones[z].trips && Zones1(cfg, s, snap)[z].setpoint == s.zones[z].setpoint
  {
    forall z | 0 <= z < |cfg.zones|
      ensures ZoneInv(cfg.zones[z], Zones1(cfg, s, snap)[z])
      ensures Zones1(cfg, s, snap)[z].trips == s.zones[z].trips &&
        Zones1(cfg, s, snap)[z].setpoint == s.zones[z].setpoint
    {
      TickOffsetValid(cfg, s, snap, z);
      ZoneStepInv(cfg.zones[z], s.zones[z], ZoneReading(cfg, s, snap, z), TripOffset(s, Mod1(cfg, s, snap)), snap.now);
    }
  }

  lemma RunawayStaysValid(cfg: Config, s: Core, snap: Snapshot)
    requires Inv(cfg, s)
    ensures forall z :: 0 <= z < |cfg.zones| ==> Runaway.Valid(Runaway1(cfg, s, snap)[z].ring)
  {
    forall z | 0 <= z < |cfg.zones| ensures Runaway.Valid(Runaway1(cfg, s, snap)[z].ring) {
      var w := Runaway.Width(cfg.runaway);
      if w > 0 { Runaway.NextSlot(0, w); }
    }
  }

  lemma TickKeepsInv(cfg: Config, s: Core, snap: Snapshot)
    requires Inv(cfg, s)
    ensures Inv(cfg, Tick(cfg, s, snap))
  {
    var t := Tick(cfg, s, snap);
    if Wellformed(cfg, snap) {
      TickKeepsZones(cfg, s, snap);
      RunawayStaysValid(cfg, s, snap);
      assert Trips(t) == Trips(s) && Setpoints(t) == Setpoints(s);
      forall a | 0 <= a < |cfg.actuators| ensures Actuator.Inv(cfg.actuators[a].drive, t.acts[a]) {
        Actuator.StepKeepsInv(cfg.actuators[a].drive, s.acts[a], Command(cfg, s, snap, a), cfg.periodMs);
      }
    }
  }

  // ----- One command

  /** Replacing one zone's trips and setpoint keeps the modifiers valid when that zone still fits every knot. */
  lemma ZoneChangeKeepsModifiers(cfg: Config, s: Core, z: nat, zr: ZoneRt)
    requires Inv(cfg, s) && z < |cfg.zones|
    requires forall m, p ::
      (0 <= m < |s.modifiers| && s.modifiers[m].PreGovernor() && 0 <= p < |s.modifiers[m].curve|) ==>
        OffsetValid(cfg.zones[z], zr.trips, zr.setpoint, s.modifiers[m].curve[p].value1)
    ensures ModifiersInv(cfg, s.(zones := s.zones[z := zr]))
  {
    var t := s.(zones := s.zones[z := zr]);
    forall m, p | 0 <= m < |cfg.modifiers| && 0 <= p < |s.modifiers[m].curve|
      ensures KnotValid(cfg, Trips(t), Setpoints(t), s.modifiers[m], s.modifiers[m].curve[p])
    {
      var mc, pt := s.modifiers[m], s.modifiers[m].curve[p];
      assert KnotValid(cfg, Trips(s), Setpoints(s), mc, pt);
      if mc.PreGovernor() {
        forall y | 0 <= y < |cfg.zones| ensures OffsetValid(cfg.zones[y], Trips(t)[y], Setpoints(t)[y], pt.value1) {
          assert OffsetValid(cfg.zones[y], Trips(s)[y], Setpoints(s)[y], pt.value1);
        }
      }
    }
  }

  /** The knots a zone fits today, as the command checks see them. */
  lemma ZoneFitsKnots(cfg: Config, s: Core, z: nat)
    requires Inv(cfg, s) && z < |cfg.zones|
    ensures forall m, p :: 0 <= m < |s.modifiers| && s.modifiers[m].PreGovernor() && 0 <= p < |s.modifiers[m].curve| ==>
      OffsetValid(cfg.zones[z], s.zones[z].trips, s.zones[z].setpoint, s.modifiers[m].curve[p].value1)
  {
    forall m, p | 0 <= m < |s.modifiers| && s.modifiers[m].PreGovernor() && 0 <= p < |s.modifiers[m].curve|
      ensures OffsetValid(cfg.zones[z], s.zones[z].trips, s.zones[z].setpoint, s.modifiers[m].curve[p].value1)
    {
      assert KnotValid(cfg, Trips(s), Setpoints(s), s.modifiers[m], s.modifiers[m].curve[p]);
      assert Trips(s)[z] == s.zones[z].trips && Setpoints(s)[z] == s.zones[z].setpoint;
    }
  }

  /** Neighbour checks at the changed trip keep the whole table ordered. */
  lemma ReplacedTripOrdered(trips: seq<Trip>, t: nat, temp: i32, hyst: i32)
    requires Ordered(trips) && t < |trips| && NeighboursAllow(trips, t, temp, hyst)
    ensures Ordered(trips[t := trips[t].(tempMc := temp, hystMc := hyst)])
  {
  }

  /** Replacing one zone by another that meets the zone invariant and fits every knot. */
  lemma ZoneChangeKeepsInv(cfg: Config, s: Core, z: nat, zr: ZoneRt)
    requires Inv(cfg, s) && z < |cfg.zones| && ZoneInv(cfg.zones[z], zr)
    requires forall m, p ::
      (0 <= m < |s.modifiers| && s.modifiers[m].PreGovernor() && 0 <= p < |s.modifiers[m].curve|) ==>
        OffsetValid(cfg.zones[z], zr.trips, zr.setpoint, s.modifiers[m].curve[p].value1)
    ensures Inv(cfg, s.(zones := s.zones[z := zr]))
  {
    ZoneChangeKeepsModifiers(cfg, s, z, zr);
  }

  lemma SetTripKeepsInv(cfg: Config, s: Core, z: u16, t: u16, temp: i32, hyst: i32)
    requires Inv(cfg, s)
    ensures Inv(cfg, SetTrip(cfg, s, z, t, temp, hyst).0)
  {
    if SetTrip(cfg, s, z, t, temp, hyst).1 == Ok {
      var trips := s.zones[z].trips;
      var zr := s.zones[z].(trips := trips[t := trips[t].(tempMc := temp, hystMc := hyst)]);
      ReplacedTripOrdered(trips, t, temp, hyst);
      ZoneFitsKnots(cfg, s, z);
      ZoneChangeKeepsInv(cfg, s, z, zr);
    }
  }

  lemma SetSetpointKeepsInv(cfg: Config, s: Core, z: u16, sp: i32)
    requires Inv(cfg, s)
    ensures Inv(cfg, SetSetpoint(cfg, s, z, sp).0)
  {
    if SetSetpoint(cfg, s, z, sp).1 == Ok {
      ZoneFitsKnots(cfg, s, z);
      ZoneChangeKeepsInv(cfg, s, z, s.zones[z].(setpoint := sp));
    }
  }

  lemma SetPidKeepsInv(cfg: Config, s: Core, z: u16, kp: i32, ki: i32, kd: i32)
    requires Inv(cfg, s)
    ensures Inv(cfg, SetPid(cfg, s, z, kp, ki, kd).0)
  {
    if SetPid(cfg, s, z, kp, ki, kd).1 == Ok {
      var zr := s.zones[z].(gains := s.zones[z].gains.(kp := kp, ki := ki, kd := kd), pid := Pid.RESET);
      ZoneFitsKnots(cfg, s, z);
      ZoneChangeKeepsInv(cfg, s, z, zr);
    }
  }

  lemma SetCurvePointKeepsInv(cfg: Config, s: Core, m: u16, p: u16, pt: Point)
    requires Inv(cfg, s)
    ensures Inv(cfg, SetCurvePoint(cfg, s, m, p, pt).0)
  {
    var t := SetCurvePoint(cfg, s, m, p, pt).0;
    if SetCurvePoint(cfg, s, m, p, pt).1 == Ok {
      assert Trips(t) == Trips(s) && Setpoints(t) == Setpoints(s);
    }
  }

  lemma ClearKeepsInv(cfg: Config, s: Core, kind: u16, target: u16)
    requires Inv(cfg, s)
    ensures Inv(cfg, ClearCommand(cfg, s, kind, target).0)
  {
    var t := ClearCommand(cfg, s, kind, target).0;
    assert Trips(t) == Trips(s) && Setpoints(t) == Setpoints(s);
  }

  lemma CommandKeepsInv(cfg: Config, s: Core, cmd: Wire.Command)
    requires Inv(cfg, s)
    ensures Inv(cfg, ApplyCommand(cfg, s, cmd).0)
  {
    match cmd
    case SetPid(z, kp, ki, kd) => SetPidKeepsInv(cfg, s, z, kp, ki, kd);
    case SetSetpoint(z, sp) => SetSetpointKeepsInv(cfg, s, z, sp);
    case SetTrip(z, t, temp, hyst) => SetTripKeepsInv(cfg, s, z, t, temp, hyst);
    case SetCurvePoint(m, p, x, v0, v1) => SetCurvePointKeepsInv(cfg, s, m, p, Point(x, v0, v1));
    case ClearFault(kind, target) => ClearKeepsInv(cfg, s, kind, target);
    case Unknown(_) =>
  }

  /** A rejected command changes no regulator state. */
  lemma RejectedChangesNothing(cfg: Config, s: Core, cmd: Wire.Command)
    requires Sized(cfg, s)
    ensures ApplyCommand(cfg, s, cmd).1 != Ok ==> ApplyCommand(cfg, s, cmd).0 == s
  {
  }

  // ----- Every interleaving

  datatype Op = Step(snap: Snapshot) | Order(cmd: Wire.Command)

  function Apply(cfg: Config, s: Core, op: Op): Core
    requires Sized(cfg, s) && CurvesAscending(s)
  {
    match op
    case Step(snap) => Tick(cfg, s, snap)
    case Order(cmd) => ApplyCommand(cfg, s, cmd).0
  }

  lemma ApplyKeepsInv(cfg: Config, s: Core, op: Op)
    requires Inv(cfg, s)
    ensures Inv(cfg, Apply(cfg, s, op))
  {
    match op
    case Step(snap) => TickKeepsInv(cfg, s, snap);
    case Order(cmd) => CommandKeepsInv(cfg, s, cmd);
  }

  /** The state after any interleaving of ticks and commands. */
  ghost function Run(cfg: Config, ops: seq<Op>): (s: Core)
    requires ValidConfig(cfg)
    ensures Sized(cfg, s) && CurvesAscending(s)
    decreases |ops|, 0
  {
    if |ops| == 0 then
      InitInv(cfg);
      Init(cfg)
    else
      var k := |ops| - 1;
      RunKeepsInv(cfg, ops[..k]);
      ApplyKeepsInv(cfg, Run(cfg, ops[..k]), ops[k]);
      Apply(cfg, Run(cfg, ops[..k]), ops[k])
  }

  /** Every reachable state meets the invariant. */
  lemma {:induction false} RunKeepsInv(cfg: Config, ops: seq<Op>)
    requires ValidConfig(cfg)
    ensures Inv(cfg, Run(cfg, ops))
    decreases |ops|, 1
  {
    if |ops| == 0 {
      InitInv(cfg);
    } else {
      var k := |ops| - 1;
      RunKeepsInv(cfg, ops[..k]);
      ApplyKeepsInv(cfg, Run(cfg, ops[..k]), ops[k]);
    }
  }

  /** After any interleaving, the trip tables are ordered at every offset the curve can interpolate and
      every interpolated cap is a byte, for every context value x. */
  lemma TablesValidAtEveryOffset(cfg: Config, ops: seq<Op>, m: nat, z: nat, x: int)
    requires ValidConfig(cfg) && m < |cfg.modifiers| && z < |cfg.zones|
    ensures var s := Run(cfg, ops);
            var mc := s.modifiers[m];
            Ascending(mc.curve) && 0 <= Eval(mc.curve, Axis0, x) <= 255 &&
            (mc.PreGovernor() ==>
              OffsetValid(cfg.zones[z], s.zones[z].trips, s.zones[z].setpoint, Eval(mc.curve, Axis1, x)))
  {
    var s := Run(cfg, ops);
    RunKeepsInv(cfg, ops);
    KnotsCoverCurve(cfg, Trips(s), Setpoints(s), s.modifiers[m], x);
    assert Trips(s)[z] == s.zones[z].trips && Setpoints(s)[z] == s.zones[z].setpoint;
  }

  /** What the governor of one zone is given and returns. */
  ghost predicate GovernorSound(z: ZoneCfg, before: ZoneRt, after: ZoneRt, offset: int) {
    var trips := EffectiveTrips(before.trips, offset);
    Ordered(trips) && IsPrefix(after.mask) &&
    (forall i, j :: HistoryDecides(trips, after.temp, i) && HistoryDecides(trips, after.temp, j) ==> i == j) &&
    (z.governor == GOVERNOR_PID ==>
      z.pid.SetpointInBounds(after.effSetpoint) && after.effSetpoint == before.setpoint + offset)
  }

  lemma ZoneStepSound(z: ZoneCfg, zr: ZoneRt, reading: Zone.Reading, offset: int, now: u32)
    requires ZoneInv(z, zr) && OffsetValid(z, zr.trips, zr.setpoint, offset)
    ensures GovernorSound(z, zr, ZoneStep(z, zr, reading, offset, now), offset)
  {
    EffectiveIsShifted(zr.trips, offset);
    var trips := EffectiveTrips(zr.trips, offset);
    MaskIsPrefix(trips, reading.tempMc, zr.mask);
    forall i, j | HistoryDecides(trips, reading.tempMc, i) && HistoryDecides(trips, reading.tempMc, j) ensures i == j {
      OneTripDependsOnHistory(trips, reading.tempMc, i, j);
    }
  }

  /** On every tick the governor gets an ordered table, its mask is a prefix, at most one trip depends on
      history, and a PID zone's effective setpoint lies within its configured bounds. */
  lemma EveryTickMeetsGovernor(cfg: Config, s: Core, snap: Snapshot, z: nat)
    requires Inv(cfg, s) && z < |cfg.zones|
    ensures GovernorSound(cfg.zones[z], s.zones[z], Zone1(cfg, s, snap, z), TripOffset(s, Mod1(cfg, s, snap)))
  {
    TickOffsetValid(cfg, s, snap, z);
    ZoneStepSound(cfg.zones[z], s.zones[z], ZoneReading(cfg, s, snap, z), TripOffset(s, Mod1(cfg, s, snap)), snap.now);
  }
}
