/** What each command does: exactly when it is accepted, what it changes, and how it is refused
    (core/thermal_core.c:2231-2492). */
module CommandLaws {
  import opened CInt
  import opened Curve
  import opened Governor
  import opened Config
  import opened Fault
  import opened Regulator
  import opened Invariants
  import Detectors
  import Pid
  import Wire

  // ----- One zone

  /** t is s with the runtime of zone z replaced by zr. */
  ghost predicate OnlyZone(s: Core, t: Core, z: nat, zr: ZoneRt) {
    |t.zones| == |s.zones| && z < |s.zones| && t.zones[z] == zr &&
    (forall y :: 0 <= y < |s.zones| && y != z ==> t.zones[y] == s.zones[y]) && t.(zones := s.zones) == s
  }

  predicate IsPidZone(cfg: Config, z: nat) { z < |cfg.zones| && cfg.zones[z].governor == 2 }

  predicate GainsAllowed(p: PidCfg, kp: i32, ki: i32, kd: i32) {
    p.kpMin <= kp <= p.kpMax && p.kiMin <= ki <= p.kiMax && p.kdMin <= kd <= p.kdMax
  }

  /** Gains are taken over exactly for a PID zone and within its bounds; its controller then starts afresh. */
  lemma SetPidLaw(cfg: Config, s: Core, z: u16, kp: i32, ki: i32, kd: i32)
    requires Inv(cfg, s)
    ensures var st := ApplyCommand(cfg, s, Wire.SetPid(z, kp, ki, kd)).1;
            (st == Ok <==> (IsPidZone(cfg, z) && GainsAllowed(cfg.zones[z].pid, kp, ki, kd))) &&
            (st == InvalidArg <==> !IsPidZone(cfg, z)) && st in {Ok, InvalidArg, OutOfBounds}
    ensures var (t, st) := ApplyCommand(cfg, s, Wire.SetPid(z, kp, ki, kd));
            st == Ok ==> OnlyZone(s, t, z, s.zones[z].(gains := Pid.Gains(kp, ki, kd, s.zones[z].gains.dAlpha),
                                                       pid := Pid.State(0, 0, 0, 0, false, false)))
  {
  }

  /** The setpoint stays within its bounds at offset 0 and at the offset of every pre-governor curve point. */
  ghost predicate SetpointAllowed(cfg: Config, s: Core, z: nat, sp: int)
    requires z < |cfg.zones|
  {
    var p := cfg.zones[z].pid;
    p.setpointMin <= sp <= p.setpointMax &&
    forall m, k :: (0 <= m < |s.modifiers| && s.modifiers[m].stages % 2 == 1 && 0 <= k < |s.modifiers[m].curve|) ==>
      p.setpointMin <= sp + s.modifiers[m].curve[k].value1 <= p.setpointMax
  }

  /** A setpoint is taken over exactly then, and the controller keeps its state. */
  lemma SetSetpointLaw(cfg: Config, s: Core, z: u16, sp: i32)
    requires Inv(cfg, s)
    ensures var st := ApplyCommand(cfg, s, Wire.SetSetpoint(z, sp)).1;
            (st == Ok <==> (IsPidZone(cfg, z) && SetpointAllowed(cfg, s, z, sp))) &&
            (st == InvalidArg <==> !IsPidZone(cfg, z)) && st in {Ok, InvalidArg, OutOfBounds}
    ensures var (t, st) := ApplyCommand(cfg, s, Wire.SetSetpoint(z, sp));
            st == Ok ==> OnlyZone(s, t, z, s.zones[z].(setpoint := sp))
  {
    if z < |cfg.zones| { SetpointMeans(cfg, s, z, sp); }
  }

  lemma SetpointMeans(cfg: Config, s: Core, z: nat, sp: int)
    requires z < |cfg.zones|
    ensures cfg.zones[z].pid.SetpointInBounds(sp) && SetpointFitsKnots(s, cfg.zones[z].pid, sp)
      <==> SetpointAllowed(cfg, s, z, sp)
  {
  }

  /** The table with trip k at a new temperature and hysteresis. */
  function Retuned(trips: seq<Trip>, k: nat, temp: i32, hyst: i32): (r: seq<Trip>)
    requires k < |trips|
    ensures |r| == |trips| && r[k].tempMc == temp && r[k].hystMc == hyst && r[k].cooling == trips[k].cooling
    ensures r[k].severity == trips[k].severity && forall i :: 0 <= i < |r| && i != k ==> r[i] == trips[i]
  {
    trips[k := Trip(temp, hyst, trips[k].severity, trips[k].cooling)]
  }

  /** A table that may replace a zone's trips: ordered, reached by the fallback, and valid at the offset of every
      pre-governor curve point. */
  ghost predicate TableAllowed(cfg: Config, s: Core, z: nat, trips: seq<Trip>)
    requires z < |cfg.zones|
  {
    Ordered(trips) && FallbackReaches(cfg.zones[z].fallbackMc, trips) &&
    forall m, k :: (0 <= m < |s.modifiers| && s.modifiers[m].stages % 2 == 1 && 0 <= k < |s.modifiers[m].curve|) ==>
      ValidAt(trips, s.modifiers[m].curve[k].value1)
  }

  /** A trip is taken over exactly when its hysteresis is not negative and the whole new table is allowed, although
      the command looks only at the neighbours of the trip; nothing else changes. */
  lemma SetTripLaw(cfg: Config, s: Core, z: u16, k: u16, temp: i32, hyst: i32)
    requires Inv(cfg, s)
    ensures var st := ApplyCommand(cfg, s, Wire.SetTrip(z, k, temp, hyst)).1;
            (st == InvalidArg <==> z >= |cfg.zones|) && st in {Ok, InvalidArg, OutOfBounds} &&
            (st == Ok <==> (z < |cfg.zones| && k < |s.zones[z].trips| && hyst >= 0 &&
                            TableAllowed(cfg, s, z, Retuned(s.zones[z].trips, k, temp, hyst))))
    ensures var (t, st) := ApplyCommand(cfg, s, Wire.SetTrip(z, k, temp, hyst));
            st == Ok ==> k < |s.zones[z].trips| &&
                         OnlyZone(s, t, z, s.zones[z].(trips := Retuned(s.zones[z].trips, k, temp, hyst)))
  {
    if z < |cfg.zones| && k < |s.zones[z].trips| {
      NeighboursDecide(s.zones[z].trips, k, temp, hyst);
      KnotsMean(s, Retuned(s.zones[z].trips, k, temp, hyst));
    }
  }

  lemma NeighboursDecide(trips: seq<Trip>, k: nat, temp: i32, hyst: i32)
    requires Ordered(trips) && k < |trips|
    ensures NeighboursAllow(trips, k, temp, hyst) <==> (hyst >= 0 && Ordered(Retuned(trips, k, temp, hyst)))
  {
    var r := Retuned(trips, k, temp, hyst);
    if Ordered(r) {
      if k > 0 { assert r[k - 1].tempMc < r[k].tempMc && r[k - 1].tempMc <= r[k].tempMc - r[k].hystMc; }
      if k + 1 < |r| { assert r[k].tempMc < r[k + 1].tempMc && r[k].tempMc <= r[k + 1].tempMc - r[k + 1].hystMc; }
    }
  }

  lemma KnotsMean(s: Core, trips: seq<Trip>)
    ensures TripsFitKnots(s, trips) <==>
      forall m, k :: (0 <= m < |s.modifiers| && s.modifiers[m].stages % 2 == 1 && 0 <= k < |s.modifiers[m].curve|) ==>
        ValidAt(trips, s.modifiers[m].curve[k].value1)
  {
  }

  // ----- The modifier

  /** t is s with the curve of modifier m replaced. */
  ghost predicate OnlyCurve(s: Core, t: Core, m: nat, curve: seq<Point>) {
    |t.modifiers| == |s.modifiers| && m < |s.modifiers| && t.modifiers[m] == s.modifiers[m].(curve := curve) &&
    (forall n :: 0 <= n < |s.modifiers| && n != m ==> t.modifiers[n] == s.modifiers[n]) &&
    t.(modifiers := s.modifiers) == s
  }

  /** A curve point is taken over exactly when the whole new curve ascends and its values are acceptable for the
      current trips and setpoints, although the command looks only at the neighbours of the point. */
  lemma SetCurvePointLaw(cfg: Config, s: Core, m: u16, k: u16, x: i32, v0: i32, v1: i32)
    requires Inv(cfg, s)
    ensures var st := ApplyCommand(cfg, s, Wire.SetCurvePoint(m, k, x, v0, v1)).1;
            (st == InvalidArg <==> m >= |cfg.modifiers|) && st in {Ok, InvalidArg, OutOfBounds} &&
            (st == Ok <==> (m < |cfg.modifiers| && k < |s.modifiers[m].curve| &&
                            CurveAllowed(cfg, s, m, s.modifiers[m].curve[k := Point(x, v0, v1)])))
    ensures var (t, st) := ApplyCommand(cfg, s, Wire.SetCurvePoint(m, k, x, v0, v1));
            st == Ok ==> k < |s.modifiers[m].curve| && OnlyCurve(s, t, m, s.modifiers[m].curve[k := Point(x, v0, v1)])
  {
    if m < |cfg.modifiers| && k < |s.modifiers[m].curve| {
      PointDecides(s.modifiers[m].curve, k, Point(x, v0, v1));
    }
  }

  ghost predicate CurveAllowed(cfg: Config, s: Core, m: nat, curve: seq<Point>)
    requires |s.zones| == |cfg.zones| && m < |s.modifiers|
  {
    Ascending(curve) && CurveValid(cfg, Trips(s), Setpoints(s), s.modifiers[m].(curve := curve))
  }

  lemma PointDecides(c: seq<Point>, k: nat, pt: Point)
    requires Ascending(c) && k < |c|
    ensures (k > 0 ==> c[k - 1].x < pt.x) && (k + 1 < |c| ==> pt.x < c[k + 1].x) <==> Ascending(c[k := pt])
  {
    var r := c[k := pt];
    if Ascending(r) {
      if k > 0 { assert r[k - 1].x < r[k].x; }
      if k + 1 < |r| { assert r[k].x < r[k + 1].x; }
    }
  }

  // ----- Clearing

  /** How a clear of one detector ends: nothing to do in NORMAL; refused unless latched and quiet long enough. */
  predicate ClearAnswers(f: Fsm, fc: DetectorCfg, st: Status) {
    if f.state == Normal || (f.state == Latched && f.recovery >= fc.recoveryTicks) then st == Status.Ok
    else st == Status.RejectedSafety
  }

  /** It is gone, with its window, if it was latched and quiet long enough; otherwise untouched. */
  lemma ClearStallLaw(cfg: Config, s: Core, target: u16, a: nat)
    requires Inv(cfg, s) && a < |cfg.actuators| && SlotOf(cfg.ActuatorIds(), target) == a
    ensures var ((t, st), f) := (ApplyCommand(cfg, s, Wire.ClearFault(1, target)), s.stall[a].det.fsm);
            ClearAnswers(f, cfg.stall, st) && |t.stall| == |s.stall| && t.(stall := s.stall) == s &&
            (forall b :: 0 <= b < |s.stall| && b != a ==> t.stall[b] == s.stall[b]) &&
            if f.state == Latched && f.recovery >= cfg.stall.recoveryTicks
            then t.stall[a].det.fsm == Fsm(Normal, 0, 0, 0) && t.stall[a].aux == Detectors.Stall(0, true)
            else t.stall[a] == s.stall[a]
  {
  }

  lemma ClearStuckLaw(cfg: Config, s: Core, target: u16, i: nat)
    requires Inv(cfg, s) && i < |cfg.sensors| && SlotOf(cfg.SensorIds(), target) == i
    ensures var ((t, st), f) := (ApplyCommand(cfg, s, Wire.ClearFault(2, target)), s.stuck[i].det.fsm);
            ClearAnswers(f, cfg.stuck, st) && |t.stuck| == |s.stuck| && t.(stuck := s.stuck) == s &&
            (forall j :: 0 <= j < |s.stuck| && j != i ==> t.stuck[j] == s.stuck[j]) &&
            if f.state == Latched && f.recovery >= cfg.stuck.recoveryTicks
            then t.stuck[i].det.fsm == Fsm(Normal, 0, 0, 0) && t.stuck[i].aux == Detectors.Stuck(0, 0, 0, 0, 0, 0)
            else t.stuck[i] == s.stuck[i]
  {
  }

  /** A cleared runaway also loses its window and its progress toward shutdown. */
  lemma ClearRunawayLaw(cfg: Config, s: Core, z: u16)
    requires Inv(cfg, s) && z < |cfg.zones|
    ensures var ((t, st), f) := (ApplyCommand(cfg, s, Wire.ClearFault(3, z)), s.runaway[z].det.fsm);
            ClearAnswers(f, cfg.runaway, st) && |t.runaway| == |s.runaway| && t.(runaway := s.runaway) == s &&
            (forall y :: 0 <= y < |s.runaway| && y != z ==> t.runaway[y] == s.runaway[y]) &&
            if f.state == Latched && f.recovery >= cfg.runaway.recoveryTicks
            then t.runaway[z].det.fsm == Fsm(Normal, 0, 0, 0) && t.runaway[z].latchedActive == 0 &&
                 t.runaway[z].ring.head == 0 && !t.runaway[z].ring.filled
            else t.runaway[z] == s.runaway[z]
  {
  }

  lemma ClearStaleLaw(cfg: Config, s: Core, target: u16, c: nat)
    requires Inv(cfg, s) && c < |cfg.contexts| && SlotOf(cfg.ContextIds(), target) == c
    ensures var ((t, st), f) := (ApplyCommand(cfg, s, Wire.ClearFault(4, target)), s.stale[c].fsm);
            ClearAnswers(f, cfg.stale, st) && |t.stale| == |s.stale| && t.(stale := s.stale) == s &&
            (forall d :: 0 <= d < |s.stale| && d != c ==> t.stale[d] == s.stale[d]) &&
            if f.state == Latched && f.recovery >= cfg.stale.recoveryTicks then t.stale[c].fsm == Fsm(Normal, 0, 0, 0)
            else t.stale[c] == s.stale[c]
  {
  }

  /** A clear that names no detector, and a command nobody knows, are invalid. */
  lemma UnknownTargets(cfg: Config, s: Core, kind: u16, target: u16)
    requires Inv(cfg, s)
    requires kind == 0 || kind > 4 || (kind == 1 && target !in cfg.ActuatorIds()) ||
      (kind == 2 && target !in cfg.SensorIds()) || (kind == 3 && target >= |cfg.zones|) ||
      (kind == 4 && target !in cfg.ContextIds())
    ensures ApplyCommand(cfg, s, Wire.ClearFault(kind, target)) == (s, InvalidArg)
    ensures ApplyCommand(cfg, s, Wire.Unknown(kind)) == (s, InvalidArg)
  {
  }
}
