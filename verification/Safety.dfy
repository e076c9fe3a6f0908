/** Safety precedence, fallback floor and monotone demand of the whole tick (core/thermal_core.c:1585-1788,
    2024-2131). */
module Safety {
  import opened CInt
  import opened Curve
  import opened Governor
  import opened Config
  import opened Regulator
  import opened Invariants
  import Actuator
  import Zone

  // ----- Safety precedence

  /** Severity SHUTDOWN, or an active detector with a forcing or shutdown action, on actuator a this tick. */
  ghost predicate MustForce(cfg: Config, s: Core, snap: Snapshot, a: nat)
    requires Inv(cfg, s) && a < |cfg.actuators|
  {
    Sev(cfg, Zones1(cfg, s, snap), a) >= TRIP_SHUTDOWN ||
    FaultForces(cfg, a, Stall1(cfg, s, snap), Stuck1(cfg, s, snap), Runaway1(cfg, s, snap), Stale1(cfg, s, snap))
  }

  /** In every state any run can reach: a forced actuator outputs exactly pwmMax; a CRITICAL one at least
      its arbitrated demand (up to pwmMax), skipping the acoustic cap; and no tick, under any faults,
      lowers a duty by more than a nonzero slew rate. */
  lemma SafetyPrecedence(cfg: Config, s: Core, snap: Snapshot, a: nat)
    requires Inv(cfg, s) && a < |cfg.actuators|
    ensures var (ac, zones, duty) := (cfg.actuators[a].drive, Zones1(cfg, s, snap), Acts1(cfg, s, snap)[a].duty);
            (MustForce(cfg, s, snap, a) ==> duty == ac.pwmMax) &&
            (Sev(cfg, zones, a) >= TRIP_CRITICAL ==> duty >= Min(Arb(cfg, zones, a), ac.pwmMax)) &&
            (ac.slew > 0 ==> duty >= s.acts[a].duty - ac.slew)
  {
    var ac, inp := cfg.actuators[a].drive, Command(cfg, s, snap, a);
    StageSafety(ac, s.acts[a], inp, cfg.periodMs);
  }

  /** The three facts for the final stage alone. */
  lemma StageSafety(ac: Actuator.Config, st: Actuator.State, inp: Actuator.Input, periodMs: u16)
    requires Actuator.Inv(ac, st) && (inp.forceMax ==> inp.slewUp)
    ensures var duty := Actuator.Step(ac, st, inp, periodMs).duty;
            (inp.forceMax ==> duty == ac.pwmMax) && (inp.slewUp ==> duty >= Min(inp.demand, ac.pwmMax)) &&
            (ac.slew > 0 ==> duty >= st.duty - ac.slew)
  {
    if inp.forceMax { Actuator.ForcedIsMax(ac, st, inp, periodMs); }
    if inp.slewUp { Actuator.OverrideReachesDemand(ac, st, inp, periodMs); }
    if ac.slew > 0 { Actuator.DownwardSlewAlwaysHolds(ac, st, inp, periodMs); }
  }

  // ----- The acoustic cap

  /** The modifier's evaluation is a byte cap, and it is active whenever it caps anything. */
  lemma CapIsByte(cfg: Config, s: Core, snap: Snapshot)
    requires Inv(cfg, s)
    ensures var mod := Mod1(cfg, s, snap);
            mod != ModEval(false, 0, 0) ==> 0 <= mod.cap <= 255 && (mod.cap < 255 ==> mod.active)
  {
    if |cfg.modifiers| > 0 {
      var m := s.modifiers[0];
      var slot := SlotOf(cfg.ContextIds(), m.contextId);
      if slot >= 0 {
        var x := EffectiveContext(cfg.contexts[slot], Contexts1(cfg, s, snap)[slot]);
        KnotsCoverCurve(cfg, Trips(s), Setpoints(s), m, x);
      }
    }
  }

  /** A post-governor modifier was evaluated and its cap lies under the actuator's maximum. */
  predicate CapApplies(cfg: Config, mod: ModEval, a: nat)
    requires a < |cfg.actuators|
  {
    |cfg.modifiers| > 0 && cfg.modifiers[0].PostGovernor() && mod != ModEval(false, 0, 0) &&
      mod.cap < cfg.actuators[a].drive.pwmMax
  }

  /** What the final stage is asked for never exceeds the arbitrated demand; a CRITICAL actuator gets all of
      it; and below CRITICAL an evaluated post-governor cap under pwmMax binds. */
  lemma CapBinds(cfg: Config, s: Core, snap: Snapshot, a: nat)
    requires Inv(cfg, s) && a < |cfg.actuators|
    ensures var (zones, demand) := (Zones1(cfg, s, snap), Command(cfg, s, snap, a).demand);
            demand <= Arb(cfg, zones, a) && (Sev(cfg, zones, a) >= TRIP_CRITICAL ==> demand == Arb(cfg, zones, a))
    ensures CapApplies(cfg, Mod1(cfg, s, snap), a) && Sev(cfg, Zones1(cfg, s, snap), a) < TRIP_CRITICAL ==>
      Command(cfg, s, snap, a).demand <= Mod1(cfg, s, snap).cap
  {
    CapIsByte(cfg, s, snap);
  }

  // ----- Fallback floor

  /** The zone has a governor, and no valid temperature this tick: no sensor is usable, or the usable weights
      of a weighted zone cancel. */
  predicate Blind(cfg: Config, s: Core, snap: Snapshot, z: nat)
    requires Sized(cfg, s) && z < |cfg.zones|
  {
    cfg.zones[z].governor in {GOVERNOR_STEP_WISE, GOVERNOR_PID} && !ZoneReading(cfg, s, snap, z).valid
  }

  /** The fallback of zone z reaches one of its current safety trips at this tick's offset. */
  predicate FloorReached(cfg: Config, s: Core, snap: Snapshot, z: nat)
    requires Sized(cfg, s) && CurvesAscending(s) && z < |cfg.zones|
  {
    ReachesSafety(cfg.zones[z].fallbackMc, s.zones[z].trips, TripOffset(s, Mod1(cfg, s, snap)))
  }

  /** No CRITICAL or SHUTDOWN trip of the zone is active. */
  ghost predicate Calm(z: ZoneCfg, zr: ZoneRt) {
    forall k :: k in zr.mask && k < |z.trips| ==> z.trips[k].severity < TRIP_CRITICAL
  }

  /** A blind zone reads its fallback, and is at least CRITICAL when the fallback reaches a shifted safety
      trip. From a calm state, as on the first tick, it is so exactly then. */
  lemma BlindZoneIsCritical(cfg: Config, s: Core, snap: Snapshot, z: nat)
    requires Inv(cfg, s) && z < |cfg.zones| && Blind(cfg, s, snap, z)
    ensures Zone1(cfg, s, snap, z).temp == cfg.zones[z].fallbackMc && !Zone1(cfg, s, snap, z).aggValid
    ensures FloorReached(cfg, s, snap, z) ==> ZoneSeverity(cfg.zones[z], Zone1(cfg, s, snap, z)) >= TRIP_CRITICAL
    ensures Calm(cfg.zones[z], s.zones[z]) ==>
      (ZoneSeverity(cfg.zones[z], Zone1(cfg, s, snap, z)) >= TRIP_CRITICAL) == FloorReached(cfg, s, snap, z)
  {
    TickOffsetValid(cfg, s, snap, z);
    BlindReading(cfg, s, snap, z);
    BlindStep(cfg.zones[z], s.zones[z], TripOffset(s, Mod1(cfg, s, snap)), snap.now);
  }

  lemma BlindStep(z: ZoneCfg, zr: ZoneRt, offset: int, now: u32)
    requires ZoneInv(z, zr) && z.governor in {GOVERNOR_STEP_WISE, GOVERNOR_PID} && ValidAt(zr.trips, offset)
    ensures var sev := ZoneSeverity(z, ZoneStep(z, zr, Zone.Reading(z.fallbackMc, false), offset, now));
            (ReachesSafety(z.fallbackMc, zr.trips, offset) ==> sev >= TRIP_CRITICAL) &&
            (Calm(z, zr) ==> (sev >= TRIP_CRITICAL) == ReachesSafety(z.fallbackMc, zr.trips, offset))
  {
    BlindSeverity(z, zr, offset, now);
    BlindMask(z, zr, offset);
  }

  lemma BlindMask(z: ZoneCfg, zr: ZoneRt, offset: int)
    requires ZoneInv(z, zr) && ValidAt(zr.trips, offset)
    ensures var sev := MaxSeverity(zr.trips, ActiveMask(Shifted(zr.trips, offset), z.fallbackMc, zr.mask), |zr.trips|);
            (ReachesSafety(z.fallbackMc, zr.trips, offset) ==> sev >= TRIP_CRITICAL) &&
            (Calm(z, zr) ==> (sev >= TRIP_CRITICAL) == ReachesSafety(z.fallbackMc, zr.trips, offset))
  {
    if ReachesSafety(z.fallbackMc, zr.trips, offset) { ReachedIsCritical(z.fallbackMc, zr.trips, offset, zr.mask); }
    if Calm(z, zr) { FirstTickDecides(z.fallbackMc, zr.trips, offset, zr.mask); }
  }

  lemma BlindSeverity(z: ZoneCfg, zr: ZoneRt, offset: int, now: u32)
    requires ZoneInv(z, zr) && z.governor in {GOVERNOR_STEP_WISE, GOVERNOR_PID} && ValidAt(zr.trips, offset)
    ensures ZoneSeverity(z, ZoneStep(z, zr, Zone.Reading(z.fallbackMc, false), offset, now)) ==
      MaxSeverity(zr.trips, ActiveMask(Shifted(zr.trips, offset), z.fallbackMc, zr.mask), |zr.trips|)
  {
    EffectiveIsShifted(zr.trips, offset);
    SameSeverity(zr.trips, z.trips, ActiveMask(EffectiveTrips(zr.trips, offset), z.fallbackMc, zr.mask), |z.trips|);
  }

  lemma {:induction false} SameSeverity(a: seq<Trip>, b: seq<Trip>, mask: set<nat>, n: nat)
    requires n <= |a| == |b| && forall i :: 0 <= i < n ==> a[i].severity == b[i].severity
    ensures MaxSeverity(a, mask, n) == MaxSeverity(b, mask, n)
  {
    if n > 0 { SameSeverity(a, b, mask, n - 1); }
  }

  /** The tick leaves the zone at least CRITICAL whatever state its trips were in before. */
  ghost predicate CriticalFromAny(z: ZoneCfg, zr: ZoneRt, reading: Zone.Reading, offset: int, now: u32) {
    forall prev: set<nat> :: ZoneSeverity(z, ZoneStep(z, zr.(mask := prev), reading, offset, now)) >= TRIP_CRITICAL
  }

  lemma BlindFromAny(z: ZoneCfg, zr: ZoneRt, offset: int, now: u32)
    requires ZoneInv(z, zr) && z.governor in {GOVERNOR_STEP_WISE, GOVERNOR_PID} && ValidAt(zr.trips, offset)
    ensures CriticalFromAny(z, zr, Zone.Reading(z.fallbackMc, false), offset, now)
      <==> ReachesSafety(z.fallbackMc, zr.trips, offset)
  {
    forall prev: set<nat>
      ensures ZoneSeverity(z, ZoneStep(z, zr.(mask := prev), Zone.Reading(z.fallbackMc, false), offset, now)) ==
              MaxSeverity(zr.trips, ActiveMask(Shifted(zr.trips, offset), z.fallbackMc, prev), |zr.trips|)
    {
      EffectiveIsShifted(zr.trips, offset);
      SameSeverity(zr.trips, z.trips, ActiveMask(EffectiveTrips(zr.trips, offset), z.fallbackMc, prev), |z.trips|);
    }
    FallbackCriticalIff(z.fallbackMc, zr.trips, offset);
  }

  /** The tick of Zone1 leaves a blind zone at least CRITICAL, whatever its trip history, if and only if its
      fallback reaches a shifted safety trip. */
  lemma BlindZoneIff(cfg: Config, s: Core, snap: Snapshot, z: nat)
    requires Inv(cfg, s) && z < |cfg.zones| && Blind(cfg, s, snap, z)
    ensures CriticalFromAny(cfg.zones[z], s.zones[z], ZoneReading(cfg, s, snap, z), TripOffset(s, Mod1(cfg, s, snap)),
                            snap.now)
      == FloorReached(cfg, s, snap, z)
  {
    TickOffsetValid(cfg, s, snap, z);
    BlindReading(cfg, s, snap, z);
    BlindFromAny(cfg.zones[z], s.zones[z], TripOffset(s, Mod1(cfg, s, snap)), snap.now);
  }

  lemma BlindReading(cfg: Config, s: Core, snap: Snapshot, z: nat)
    requires Sized(cfg, s) && z < |cfg.zones| && Blind(cfg, s, snap, z)
    ensures ZoneReading(cfg, s, snap, z) == Zone.Reading(cfg.zones[z].fallbackMc, false)
  {
    Zone.InvalidMeansFallback(cfg.zones[z].aggregation, Slots(cfg, s, snap, z), cfg.zones[z].fallbackMc);
  }

  /** At a trip offset <= 0 validation is enough: a blind zone with a CRITICAL or SHUTDOWN trip (index k) is
      at least CRITICAL. */
  lemma BlindUnraisedIsCritical(cfg: Config, s: Core, snap: Snapshot, z: nat, k: nat)
    requires Inv(cfg, s) && z < |cfg.zones| && Blind(cfg, s, snap, z)
    requires k < |cfg.zones[z].trips| && cfg.zones[z].trips[k].severity >= TRIP_CRITICAL
    requires TripOffset(s, Mod1(cfg, s, snap)) <= 0
    ensures ZoneSeverity(cfg.zones[z], Zone1(cfg, s, snap, z)) >= TRIP_CRITICAL
  {
    UnraisedReaches(cfg.zones[z].fallbackMc, s.zones[z].trips, TripOffset(s, Mod1(cfg, s, snap)), k);
    BlindZoneIsCritical(cfg, s, snap, z);
  }

  /** The floor holds at every context value exactly when it holds at every point of the curve: a test a
      validator could make. */
  lemma FloorAtEveryContextIff(curve: seq<Point>, fallbackMc: int, trips: seq<Trip>)
    requires |curve| > 0 && Ascending(curve)
    ensures (forall x: int :: ReachesSafety(fallbackMc, trips, Eval(curve, Axis1, x)))
      <==> forall p :: 0 <= p < |curve| ==> ReachesSafety(fallbackMc, trips, curve[p].value1)
  {
    if forall p :: 0 <= p < |curve| ==> ReachesSafety(fallbackMc, trips, curve[p].value1) {
      var _, hi := ExtremeKnots(curve, Axis1);
      assert ReachesSafety(fallbackMc, trips, curve[hi].value1);
      var k :| 0 <= k < |trips| && trips[k].severity >= TRIP_CRITICAL &&
        trips[k].tempMc + curve[hi].value1 <= fallbackMc;
      forall x: int ensures ReachesSafety(fallbackMc, trips, Eval(curve, Axis1, x)) {
        EvalHull(curve, Axis1, x, I32_MIN, curve[hi].value1);
      }
    } else {
      var p :| 0 <= p < |curve| && !ReachesSafety(fallbackMc, trips, curve[p].value1);
      EvalAtKnot(curve, Axis1, p);
      assert !ReachesSafety(fallbackMc, trips, Eval(curve, Axis1, curve[p].x));
    }
  }

  /** When the floor is reached every actuator of a blind zone skips the acoustic cap, bypasses upward slew,
      and outputs at least its arbitrated demand. */
  lemma BlindZoneDrivesFans(cfg: Config, s: Core, snap: Snapshot, z: nat, a: nat)
    requires Inv(cfg, s) && z < |cfg.zones| && Blind(cfg, s, snap, z) && FloorReached(cfg, s, snap, z)
    requires a < |cfg.actuators| && Drives(cfg, z, a)
    ensures var (zones, inp) := (Zones1(cfg, s, snap), Command(cfg, s, snap, a));
            inp.slewUp && inp.demand == Arb(cfg, zones, a) &&
            inp.demand >= Demand(cfg.zones[z], zones[z], cfg.actuators[a]) &&
            Acts1(cfg, s, snap)[a].duty >= Min(Arb(cfg, zones, a), cfg.actuators[a].drive.pwmMax)
  {
    BlindZoneIsCritical(cfg, s, snap, z);
    var zones := Zones1(cfg, s, snap);
    assert zones[z] == Zone1(cfg, s, snap, z);
    SeverityIsMax(cfg, zones, a, |zones|);
    SafetyPrecedence(cfg, s, snap, a);
  }

  // ----- Hotter never means less cooling

  lemma {:induction false} StatePwmRises(cfg: Config, a: nat, low: nat, high: nat)
    requires StatePwmValid(cfg) && a < |cfg.actuators| && ActuatorValid(cfg.actuators[a])
    requires low <= high < MAX_COOLING_STATES && (high == 0 || Reaches(cfg, a, high))
    ensures cfg.actuators[a].statePwm[low] <= cfg.actuators[a].statePwm[high]
  {
    if low < high {
      assert Reaches(cfg, a, high - 1);
      StatePwmRises(cfg, a, low, high - 1);
      assert cfg.actuators[a].statePwm[high - 1] <= cfg.actuators[a].statePwm[high];
    }
  }

  /** The cooling state is 0 or that of one of the zone's trips. */
  ghost predicate CoolingOfTrip(z: ZoneCfg, cooling: u8) {
    cooling == 0 || exists t :: 0 <= t < |z.trips| && z.trips[t].cooling == cooling
  }

  /** A step-wise zone in a higher cooling state demands no less of an actuator it drives. */
  lemma ColderDemandsLess(cfg: Config, z: nat, a: nat, cold: ZoneRt, hot: ZoneRt)
    requires ValidConfig(cfg) && z < |cfg.zones| && a < |cfg.actuators| && Drives(cfg, z, a)
    requires cfg.zones[z].governor == GOVERNOR_STEP_WISE
    requires cold.cooling <= hot.cooling && CoolingOfTrip(cfg.zones[z], hot.cooling)
    ensures Demand(cfg.zones[z], cold, cfg.actuators[a]) <= Demand(cfg.zones[z], hot, cfg.actuators[a])
  {
    assert ZoneValid(cfg, cfg.zones[z]) && ActuatorValid(cfg.actuators[a]);
    if hot.cooling > 0 {
      var t :| 0 <= t < |cfg.zones[z].trips| && cfg.zones[z].trips[t].cooling == hot.cooling;
      assert Reaches(cfg, a, hot.cooling) by { assert hot.cooling <= cfg.zones[z].trips[t].cooling; }
    }
    StatePwmRises(cfg, a, cold.cooling, hot.cooling);
  }

  /** Max-wins arbitration is monotone in the demands of the zones that drive the actuator. */
  lemma {:induction false} ArbitrationMonotone(cfg: Config, low: seq<ZoneRt>, high: seq<ZoneRt>, a: nat, n: nat)
    requires n <= |cfg.zones| == |low| == |high| && a < |cfg.actuators|
    requires forall z :: 0 <= z < n && Drives(cfg, z, a) ==>
      Demand(cfg.zones[z], low[z], cfg.actuators[a]) <= Demand(cfg.zones[z], high[z], cfg.actuators[a])
    ensures Arbitrated(cfg, low, a, n) <= Arbitrated(cfg, high, a, n)
  {
    if n > 0 { ArbitrationMonotone(cfg, low, high, a, n - 1); }
  }

  /** A PID zone's linearized demand rises with the controller output and fixes both ends. */
  lemma LinearizationMonotone(ac: ActuatorCfg, low: u8, high: u8)
    requires LinearizationValid(ac.linearization) && low <= high
    ensures Linearized(ac, low) <= Linearized(ac, high)
    ensures Linearized(ac, 0) == 0 && Linearized(ac, 255) == 255
  {
    var c := ac.linearization;
    if |c| > 0 {
      EvalMonotone(c, Axis0, low, high);
      EvalAboveLast(c, Axis0, 255);
    }
  }
}
