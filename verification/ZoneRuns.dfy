/** Whole runs of the regulator seen by one sensor and one zone: filters, trip masks, cooling states and the
    PID integral (core/thermal_core.c:186-305, 1526-1545, 1644-1734; core/thermal_filter.c; core/thermal_pid.c). */
module ZoneRuns {
  import opened CInt
  import opened Config
  import opened Governor
  import opened Regulator
  import opened Invariants
  import Filter
  import Pid
  import Safety
  import Wire
  import Zone

  // ----- One op, as zone z experiences it

  lemma TickStepsZone(cfg: Config, s: Core, snap: Snapshot, z: nat)
    requires Sized(cfg, s) && CurvesAscending(s) && z < |cfg.zones|
    ensures |Tick(cfg, s, snap).zones| == |cfg.zones|
    ensures Tick(cfg, s, snap).zones[z] == if Wellformed(cfg, snap) then Zone1(cfg, s, snap, z) else s.zones[z]
  {
  }

  /** A command never touches a zone's mask or cooling state, and its controller only by a reset. */
  predicate CommandEffect(before: ZoneRt, after: ZoneRt) {
    after.mask == before.mask && after.cooling == before.cooling && (after.pid == before.pid || after.pid == Pid.RESET)
  }

  lemma CommandSparesZone(cfg: Config, s: Core, cmd: Wire.Command, z: nat)
    requires Sized(cfg, s) && z < |cfg.zones|
    ensures |ApplyCommand(cfg, s, cmd).0.zones| == |cfg.zones|
    ensures CommandEffect(s.zones[z], ApplyCommand(cfg, s, cmd).0.zones[z])
  {
  }

  /** The zone of one op. */
  predicate ZoneEffect(cfg: Config, s: Core, op: Op, z: nat, after: ZoneRt)
    requires Sized(cfg, s) && CurvesAscending(s) && z < |cfg.zones|
  {
    match op
    case Step(snap) => after == if Wellformed(cfg, snap) then Zone1(cfg, s, snap, z) else s.zones[z]
    case Order(_) => CommandEffect(s.zones[z], after)
  }

  lemma OpStepsZone(cfg: Config, s: Core, op: Op, z: nat)
    requires Sized(cfg, s) && CurvesAscending(s) && z < |cfg.zones|
    ensures |Apply(cfg, s, op).zones| == |cfg.zones|
    ensures ZoneEffect(cfg, s, op, z, Apply(cfg, s, op).zones[z])
  {
    match op
    case Step(snap) => TickStepsZone(cfg, s, snap, z);
    case Order(cmd) => CommandSparesZone(cfg, s, cmd, z);
  }

  // ----- Masks and cooling states

  /** What the governor of zone z saw on each tick: its trip table and the zone temperature. */
  ghost function Governed(cfg: Config, ops: seq<Op>, z: nat): seq<(seq<Trip>, int)>
    requires ValidConfig(cfg) && z < |cfg.zones|
  {
    if |ops| == 0 then []
    else
      var k := |ops| - 1;
      Governed(cfg, ops[..k], z) + Adds(cfg, Run(cfg, ops[..k]), ops[k], z)
  }

  ghost function Entry(cfg: Config, s: Core, snap: Snapshot, z: nat): (seq<Trip>, int)
    requires Sized(cfg, s) && CurvesAscending(s) && z < |cfg.zones|
  {
    (EffectiveTrips(s.zones[z].trips, TripOffset(s, Mod1(cfg, s, snap))), ZoneReading(cfg, s, snap, z).tempMc)
  }

  ghost function CoolingRun(h: seq<(seq<Trip>, int)>): u8 {
    if |h| == 0 then 0 else MaxCooling(h[|h| - 1].0, MaskRun(h), |h[|h| - 1].0|)
  }

  /** The zone's runtime is the governor run over what it saw. */
  predicate Follows(z: ZoneCfg, zr: ZoneRt, mask: set<nat>, cooling: u8) {
    zr.mask == mask && (z.governor == GOVERNOR_STEP_WISE ==> zr.cooling == cooling)
  }

  lemma EntrySteps(cfg: Config, s: Core, snap: Snapshot, z: nat)
    requires Sized(cfg, s) && CurvesAscending(s) && z < |cfg.zones| && Runs(cfg.zones[z])
    ensures var (e, zr) := (Entry(cfg, s, snap, z), Zone1(cfg, s, snap, z));
            var mask := ActiveMask(e.0, e.1, s.zones[z].mask);
            Follows(cfg.zones[z], zr, mask, MaxCooling(e.0, mask, |e.0|))
  {
  }

  /** The governor of a validated zone always runs. */
  predicate Runs(z: ZoneCfg) {
    z.governor == GOVERNOR_STEP_WISE || (z.governor == GOVERNOR_PID && PidLimits(z).Valid())
  }

  lemma ValidatedRuns(cfg: Config, z: nat)
    requires ValidConfig(cfg) && z < |cfg.zones|
    ensures Runs(cfg.zones[z])
  {
    assert ZoneValid(cfg, cfg.zones[z]);
  }

  lemma MaskSnoc(h: seq<(seq<Trip>, int)>, e: (seq<Trip>, int))
    ensures MaskRun(h + [e]) == ActiveMask(e.0, e.1, MaskRun(h))
    ensures CoolingRun(h + [e]) == MaxCooling(e.0, MaskRun(h + [e]), |e.0|)
  {
    assert (h + [e])[..|h|] == h;
  }

  /** What one op adds to what the governor saw. */
  ghost function Adds(cfg: Config, s: Core, op: Op, z: nat): seq<(seq<Trip>, int)>
    requires Sized(cfg, s) && CurvesAscending(s) && z < |cfg.zones|
  {
    if op.Step? && Wellformed(cfg, op.snap) then [Entry(cfg, s, op.snap, z)] else []
  }

  lemma OpFollows(cfg: Config, s: Core, op: Op, z: nat, h: seq<(seq<Trip>, int)>)
    requires Sized(cfg, s) && CurvesAscending(s) && z < |cfg.zones| && Runs(cfg.zones[z])
    requires Follows(cfg.zones[z], s.zones[z], MaskRun(h), CoolingRun(h))
    ensures |Apply(cfg, s, op).zones| == |cfg.zones|
    ensures var g := h + Adds(cfg, s, op, z);
            Follows(cfg.zones[z], Apply(cfg, s, op).zones[z], MaskRun(g), CoolingRun(g))
  {
    OpStepsZone(cfg, s, op, z);
    if op.Step? && Wellformed(cfg, op.snap) {
      EntrySteps(cfg, s, op.snap, z);
      MaskSnoc(h, Entry(cfg, s, op.snap, z));
    } else {
      assert h + [] == h;
    }
  }

  lemma {:induction false} MaskRefines(cfg: Config, ops: seq<Op>, z: nat)
    requires ValidConfig(cfg) && z < |cfg.zones|
    ensures Follows(cfg.zones[z], Run(cfg, ops).zones[z], MaskRun(Governed(cfg, ops, z)),
                    CoolingRun(Governed(cfg, ops, z)))
  {
    if |ops| > 0 {
      var k := |ops| - 1;
      MaskRefines(cfg, ops[..k], z);
      ValidatedRuns(cfg, z);
      OpFollows(cfg, Run(cfg, ops[..k]), ops[k], z, Governed(cfg, ops[..k], z));
    }
  }

  predicate SameButTemp(a: Trip, b: Trip) {
    a.hystMc == b.hystMc && a.severity == b.severity && a.cooling == b.cooling
  }

  /** What the governor sees on a tick: the zone's trips, each moved by the offset of the tick without wrapping
      and otherwise as they are, and the temperature the zone acts on. */
  lemma EntryIsShifted(cfg: Config, s: Core, snap: Snapshot, z: nat, i: nat)
    requires Inv(cfg, s) && z < |cfg.zones| && i < |cfg.zones[z].trips|
    ensures var (e, t) := (Entry(cfg, s, snap, z), s.zones[z].trips[i]);
            |e.0| == |cfg.zones[z].trips| && e.1 == Zone1(cfg, s, snap, z).temp && SameButTemp(e.0[i], t) &&
            e.0[i].tempMc == t.tempMc + TripOffset(s, Mod1(cfg, s, snap))
  {
    TickOffsetValid(cfg, s, snap, z);
    EffectiveIsShifted(s.zones[z].trips, TripOffset(s, Mod1(cfg, s, snap)));
  }

  /** Every table has n trips. */
  predicate AllSized(h: seq<(seq<Trip>, int)>, n: nat) { forall k :: 0 <= k < |h| ==> |h[k].0| == n }

  lemma {:induction false} GovernedSized(cfg: Config, ops: seq<Op>, z: nat)
    requires ValidConfig(cfg) && z < |cfg.zones|
    ensures AllSized(Governed(cfg, ops, z), |cfg.zones[z].trips|)
  {
    if |ops| > 0 {
      var k := |ops| - 1;
      GovernedSized(cfg, ops[..k], z);
      RunKeepsInv(cfg, ops[..k]);
      AddsSized(cfg, Run(cfg, ops[..k]), ops[k], z);
    }
  }

  lemma AddsSized(cfg: Config, s: Core, op: Op, z: nat)
    requires Inv(cfg, s) && z < |cfg.zones|
    ensures AllSized(Adds(cfg, s, op, z), |cfg.zones[z].trips|)
  {
    if op.Step? { EntrySized(cfg, s, op.snap, z); }
  }

  lemma EntrySized(cfg: Config, s: Core, snap: Snapshot, z: nat)
    requires Inv(cfg, s) && z < |cfg.zones|
    ensures |Entry(cfg, s, snap, z).0| == |cfg.zones[z].trips|
  {
  }

  /** In any run, trip i of a zone is active exactly when some tick saw the zone at or above the trip of that
      tick and no later tick saw it below both that tick's trip and its cold edge. */
  lemma SchmittInRun(cfg: Config, ops: seq<Op>, z: nat, i: nat)
    requires ValidConfig(cfg) && z < |cfg.zones| && i < |cfg.zones[z].trips|
    ensures forall k :: 0 <= k < |Governed(cfg, ops, z)| ==> i < |Governed(cfg, ops, z)[k].0|
    ensures i in Run(cfg, ops).zones[z].mask <==>
      exists k :: 0 <= k < |Governed(cfg, ops, z)| && FiredSince(Governed(cfg, ops, z), i, k)
  {
    GovernedSized(cfg, ops, z);
    MaskRefines(cfg, ops, z);
    SchmittLaw(Governed(cfg, ops, z), i);
  }

  /** Same trip tables tick by tick, pointwise no cooler. */
  ghost predicate Hotter(cold: seq<(seq<Trip>, int)>, hot: seq<(seq<Trip>, int)>) {
    |cold| == |hot| && forall k :: 0 <= k < |cold| ==> cold[k].0 == hot[k].0 && cold[k].1 <= hot[k].1
  }

  lemma HotterRunsHotter(cold: seq<(seq<Trip>, int)>, hot: seq<(seq<Trip>, int)>)
    requires Hotter(cold, hot)
    ensures MaskRun(cold) <= MaskRun(hot) && CoolingRun(cold) <= CoolingRun(hot)
  {
    HotterRunDominates(cold, hot);
  }

  lemma TickCooling(z: ZoneCfg, zr: ZoneRt, reading: Zone.Reading, offset: int, now: u32)
    requires ZoneInv(z, zr) && Safety.CoolingOfTrip(z, zr.cooling)
    ensures Safety.CoolingOfTrip(z, ZoneStep(z, zr, reading, offset, now).cooling)
  {
    var trips := EffectiveTrips(zr.trips, offset);
    forall i | 0 <= i < |trips| ensures trips[i].cooling == z.trips[i].cooling { }
  }

  lemma OpNames(cfg: Config, s: Core, op: Op, z: nat)
    requires Inv(cfg, s) && z < |cfg.zones| && Safety.CoolingOfTrip(cfg.zones[z], s.zones[z].cooling)
    ensures |Apply(cfg, s, op).zones| == |cfg.zones|
    ensures Safety.CoolingOfTrip(cfg.zones[z], Apply(cfg, s, op).zones[z].cooling)
  {
    OpStepsZone(cfg, s, op, z);
    if op.Step? && Wellformed(cfg, op.snap) {
      TickCooling(cfg.zones[z], s.zones[z], ZoneReading(cfg, s, op.snap, z), TripOffset(s, Mod1(cfg, s, op.snap)),
                  op.snap.now);
    }
  }

  /** The cooling state of every zone is always 0 or one its trips name. */
  lemma {:induction false} CoolingIsNamed(cfg: Config, ops: seq<Op>, z: nat)
    requires ValidConfig(cfg) && z < |cfg.zones|
    ensures Safety.CoolingOfTrip(cfg.zones[z], Run(cfg, ops).zones[z].cooling)
  {
    if |ops| > 0 {
      var k := |ops| - 1;
      CoolingIsNamed(cfg, ops[..k], z);
      RunKeepsInv(cfg, ops[..k]);
      OpNames(cfg, Run(cfg, ops[..k]), ops[k], z);
    }
  }

  /** One zone, with either governor: after any two runs with the same trip tables tick by tick, the pointwise
      hotter one has a superset mask. */
  lemma HotterMask(cfg: Config, cold: seq<Op>, hot: seq<Op>, z: nat)
    requires ValidConfig(cfg) && z < |cfg.zones| && Hotter(Governed(cfg, cold, z), Governed(cfg, hot, z))
    ensures Run(cfg, cold).zones[z].mask <= Run(cfg, hot).zones[z].mask
    ensures cfg.zones[z].governor == GOVERNOR_STEP_WISE ==>
      Run(cfg, cold).zones[z].cooling <= Run(cfg, hot).zones[z].cooling
  {
    MaskRefines(cfg, cold, z);
    MaskRefines(cfg, hot, z);
    HotterRunsHotter(Governed(cfg, cold, z), Governed(cfg, hot, z));
  }

  /** A hotter step-wise zone demands no less of an actuator it drives. */
  lemma HotterDemand(cfg: Config, cold: seq<Op>, hot: seq<Op>, z: nat, a: nat)
    requires ValidConfig(cfg) && z < |cfg.zones| && a < |cfg.actuators| && Drives(cfg, z, a)
    requires cfg.zones[z].governor == GOVERNOR_STEP_WISE && Hotter(Governed(cfg, cold, z), Governed(cfg, hot, z))
    ensures DemandRises(cfg, cold, hot, z, a)
  {
    HotterMask(cfg, cold, hot, z);
    CoolingIsNamed(cfg, hot, z);
    Safety.ColderDemandsLess(cfg, z, a, Run(cfg, cold).zones[z], Run(cfg, hot).zones[z]);
  }

  /** After any two runs: if the zones that drive an actuator are step-wise and saw the same trip tables tick by
      tick at pointwise hotter temperatures, the actuator's arbitrated demand is no lower. */
  lemma HotterNeverDemandsLess(cfg: Config, cold: seq<Op>, hot: seq<Op>, a: nat)
    requires ValidConfig(cfg) && a < |cfg.actuators|
    requires forall z :: 0 <= z < |cfg.zones| && Drives(cfg, z, a) ==> cfg.zones[z].governor == GOVERNOR_STEP_WISE
    requires forall z :: 0 <= z < |cfg.zones| && Drives(cfg, z, a) ==>
      Hotter(Governed(cfg, cold, z), Governed(cfg, hot, z))
    ensures Arb(cfg, Run(cfg, cold).zones, a) <= Arb(cfg, Run(cfg, hot).zones, a)
  {
    forall z | 0 <= z < |cfg.zones| && Drives(cfg, z, a) ensures DemandRises(cfg, cold, hot, z, a) {
      HotterDemand(cfg, cold, hot, z, a);
    }
    DemandsArbitrate(cfg, cold, hot, a);
  }

  /** Zone z demands no less of actuator a after the second run. */
  ghost predicate DemandRises(cfg: Config, cold: seq<Op>, hot: seq<Op>, z: nat, a: nat)
    requires ValidConfig(cfg) && z < |cfg.zones| && a < |cfg.actuators|
  {
    Demand(cfg.zones[z], Run(cfg, cold).zones[z], cfg.actuators[a])
      <= Demand(cfg.zones[z], Run(cfg, hot).zones[z], cfg.actuators[a])
  }

  lemma DemandsArbitrate(cfg: Config, cold: seq<Op>, hot: seq<Op>, a: nat)
    requires ValidConfig(cfg) && a < |cfg.actuators|
    requires forall z :: 0 <= z < |cfg.zones| && Drives(cfg, z, a) ==> DemandRises(cfg, cold, hot, z, a)
    ensures Arb(cfg, Run(cfg, cold).zones, a) <= Arb(cfg, Run(cfg, hot).zones, a)
  {
    Safety.ArbitrationMonotone(cfg, Run(cfg, cold).zones, Run(cfg, hot).zones, a, |cfg.zones|);
  }

  // ----- The PID integral

  /** Configured gain bounds that only admit PI controllers. */
  predicate OnlyPi(p: PidCfg) { 0 <= p.kpMin && 0 <= p.kiMin && p.kdMin == p.kdMax == 0 }

  lemma TickWinds(z: ZoneCfg, zr: ZoneRt, reading: Zone.Reading, offset: int, now: u32)
    requires ZoneInv(z, zr) && z.governor == GOVERNOR_PID && OnlyPi(z.pid) && Pid.Wound(zr.pid)
    ensures Pid.Wound(ZoneStep(z, zr, reading, offset, now).pid)
  {
    Pid.PiStepBounded(zr.pid, zr.gains, Pid.Input(WrapI32(zr.setpoint + offset), reading.tempMc, now), PidLimits(z));
  }

  lemma OpWinds(cfg: Config, s: Core, op: Op, z: nat)
    requires Inv(cfg, s) && z < |cfg.zones| && cfg.zones[z].governor == GOVERNOR_PID && OnlyPi(cfg.zones[z].pid)
    requires Pid.Wound(s.zones[z].pid)
    ensures |Apply(cfg, s, op).zones| == |cfg.zones| && Pid.Wound(Apply(cfg, s, op).zones[z].pid)
  {
    OpStepsZone(cfg, s, op, z);
    if op.Step? && Wellformed(cfg, op.snap) {
      TickWinds(cfg.zones[z], s.zones[z], ZoneReading(cfg, s, op.snap, z), TripOffset(s, Mod1(cfg, s, op.snap)),
                op.snap.now);
    }
  }

  /** Whatever temperatures, contexts, timestamps and commands arrive, a PI zone's stored integral stays
      within [0, 2^24). */
  lemma {:induction false} IntegralNeverWindsUp(cfg: Config, ops: seq<Op>, z: nat)
    requires ValidConfig(cfg) && z < |cfg.zones|
    requires cfg.zones[z].governor == GOVERNOR_PID && OnlyPi(cfg.zones[z].pid)
    ensures Pid.Wound(Run(cfg, ops).zones[z].pid)
  {
    if |ops| > 0 {
      var k := |ops| - 1;
      IntegralNeverWindsUp(cfg, ops[..k], z);
      RunKeepsInv(cfg, ops[..k]);
      OpWinds(cfg, Run(cfg, ops[..k]), ops[k], z);
    }
  }

  // ----- Filters

  /** The samples sensor i was fed, one per tick; absent samples count as invalid. */
  ghost function Fed(cfg: Config, ops: seq<Op>, i: nat): seq<Filter.Sample>
    requires ValidConfig(cfg) && i < |cfg.sensors|
  {
    if |ops| == 0 then []
    else
      var h := Fed(cfg, ops[..|ops| - 1], i);
      var op := ops[|ops| - 1];
      if op.Step? && Wellformed(cfg, op.snap) then h + [Lookup(op.snap.samples, TempMc, cfg.sensors[i].id)] else h
  }

  lemma OpStepsFilter(cfg: Config, s: Core, op: Op, i: nat)
    requires Sized(cfg, s) && CurvesAscending(s) && i < |cfg.sensors|
    ensures |Apply(cfg, s, op).filters| == |cfg.sensors|
    ensures Apply(cfg, s, op).filters[i] ==
      if op.Step? && Wellformed(cfg, op.snap)
      then Filter.Step(s.filters[i], cfg.sensors[i].alpha, Lookup(op.snap.samples, TempMc, cfg.sensors[i].id))
      else s.filters[i]
  {
    match op
    case Step(snap) => TickStepsFilter(cfg, s, snap, i);
    case Order(cmd) => CommandSparesFilters(cfg, s, cmd);
  }

  lemma TickStepsFilter(cfg: Config, s: Core, snap: Snapshot, i: nat)
    requires Sized(cfg, s) && CurvesAscending(s) && i < |cfg.sensors|
    ensures |Tick(cfg, s, snap).filters| == |cfg.sensors|
    ensures Tick(cfg, s, snap).filters[i] ==
      if Wellformed(cfg, snap)
      then Filter.Step(s.filters[i], cfg.sensors[i].alpha, Lookup(snap.samples, TempMc, cfg.sensors[i].id))
      else s.filters[i]
  {
  }

  lemma CommandSparesFilters(cfg: Config, s: Core, cmd: Wire.Command)
    requires Sized(cfg, s)
    ensures ApplyCommand(cfg, s, cmd).0.filters == s.filters
  {
  }

  lemma FilterSnoc(alpha: int, h: seq<Filter.Sample>, x: Filter.Sample)
    ensures Filter.Run(Filter.RESET, alpha, h + [x]) == Filter.Step(Filter.Run(Filter.RESET, alpha, h), alpha, x)
  {
    assert (h + [x])[..|h|] == h;
  }

  /** Every sensor filter of any run is the IIR filter run over what it was fed. */
  lemma {:induction false} FilterRefines(cfg: Config, ops: seq<Op>, i: nat)
    requires ValidConfig(cfg) && i < |cfg.sensors|
    ensures Run(cfg, ops).filters[i] == Filter.Run(Filter.RESET, cfg.sensors[i].alpha, Fed(cfg, ops, i))
  {
    if |ops| > 0 {
      var k := |ops| - 1;
      FilterRefines(cfg, ops[..k], i);
      OpStepsFilter(cfg, Run(cfg, ops[..k]), ops[k], i);
      if ops[k].Step? && Wellformed(cfg, ops[k].snap) {
        FilterSnoc(cfg.sensors[i].alpha, Fed(cfg, ops[..k], i), Lookup(ops[k].snap.samples, TempMc, cfg.sensors[i].id));
      }
    }
  }

  /** Every valid sample sensor i was ever fed lies within [lo, hi]. */
  ghost predicate FedWithin(cfg: Config, ops: seq<Op>, i: nat, lo: int, hi: int)
    requires ValidConfig(cfg) && i < |cfg.sensors|
  {
    forall k :: 0 <= k < |Fed(cfg, ops, i)| && Fed(cfg, ops, i)[k].valid ==> lo <= Fed(cfg, ops, i)[k].value <= hi
  }

  lemma FilterWithin(alpha: int, fed: seq<Filter.Sample>, lo: int, hi: int)
    requires 0 <= alpha <= Q16_ONE
    requires forall k :: 0 <= k < |fed| && fed[k].valid ==> lo <= fed[k].value <= hi
    ensures var f := Filter.Run(Filter.RESET, alpha, fed); f.valid ==> lo <= f.value <= hi
  {
    Filter.RunStaysInHull(Filter.RESET, alpha, fed, lo, hi);
    Filter.ValidIsInitialized(Filter.RESET, alpha, fed);
  }

  lemma AlphaInRange(cfg: Config, i: nat)
    requires ValidConfig(cfg) && i < |cfg.sensors|
    ensures 0 <= cfg.sensors[i].alpha <= Q16_ONE
  {
  }

  lemma SensorWithin(cfg: Config, ops: seq<Op>, i: nat, lo: int, hi: int)
    requires ValidConfig(cfg) && i < |cfg.sensors| && FedWithin(cfg, ops, i, lo, hi)
    ensures Run(cfg, ops).filters[i].valid ==> lo <= Run(cfg, ops).filters[i].value <= hi
  {
    AlphaInRange(cfg, i);
    FilterRefines(cfg, ops, i);
    FilterWithin(cfg.sensors[i].alpha, Fed(cfg, ops, i), lo, hi);
  }

  /** A usable slot of zone z holds the filtered value of its sensor. */
  lemma SlotIsFilter(cfg: Config, s: Core, snap: Snapshot, z: nat, k: nat)
    requires Sized(cfg, s) && CurvesAscending(s) && Wellformed(cfg, snap)
    requires z < |cfg.zones| && k < |cfg.zones[z].sensorIds| && Slots(cfg, s, snap, z)[k].valid
    ensures |Tick(cfg, s, snap).filters| == |cfg.sensors|
    ensures var i := SlotOf(cfg.SensorIds(), cfg.zones[z].sensorIds[k]);
            i >= 0 && Tick(cfg, s, snap).filters[i].valid &&
              Slots(cfg, s, snap, z)[k].value == Tick(cfg, s, snap).filters[i].value
  {
    assert Slots(cfg, s, snap, z)[k] == SlotView(cfg, Filters1(cfg, s, snap), Stuck1(cfg, s, snap), z, k);
  }

  /** A weighted zone gives none of its sensors a negative weight. */
  predicate FairWeights(z: ZoneCfg) {
    z.aggregation == Zone.AGG_WEIGHTED ==> forall k :: 0 <= k < |z.weights| ==> 0 <= z.weights[k]
  }

  /** The filters after a tick lie within [lo, hi] wherever zone z reads a valid one. */
  ghost predicate FiltersWithin(cfg: Config, filters: seq<Filter.State>, z: nat, lo: int, hi: int)
    requires |filters| == |cfg.sensors| && z < |cfg.zones|
  {
    forall i :: 0 <= i < |cfg.sensors| && cfg.sensors[i].id in cfg.zones[z].sensorIds && filters[i].valid ==>
      lo <= filters[i].value <= hi
  }

  lemma SlotsWithin(cfg: Config, s: Core, snap: Snapshot, z: nat, lo: int, hi: int)
    requires Sized(cfg, s) && CurvesAscending(s) && Wellformed(cfg, snap) && z < |cfg.zones|
    requires |Tick(cfg, s, snap).filters| == |cfg.sensors| && FiltersWithin(cfg, Tick(cfg, s, snap).filters, z, lo, hi)
    ensures Zone.Within(Slots(cfg, s, snap, z), lo, hi)
  {
    forall k | 0 <= k < |Slots(cfg, s, snap, z)| && Slots(cfg, s, snap, z)[k].valid
      ensures lo <= Slots(cfg, s, snap, z)[k].value <= hi
    {
      SlotIsFilter(cfg, s, snap, z, k);
    }
  }

  lemma SensorsWithin(cfg: Config, ops: seq<Op>, z: nat, lo: int, hi: int)
    requires ValidConfig(cfg) && z < |cfg.zones|
    requires forall i :: 0 <= i < |cfg.sensors| && cfg.sensors[i].id in cfg.zones[z].sensorIds ==>
      FedWithin(cfg, ops, i, lo, hi)
    ensures FiltersWithin(cfg, Run(cfg, ops).filters, z, lo, hi)
  {
    forall i | 0 <= i < |cfg.sensors| && cfg.sensors[i].id in cfg.zones[z].sensorIds
      ensures Run(cfg, ops).filters[i].valid ==> lo <= Run(cfg, ops).filters[i].value <= hi
    {
      SensorWithin(cfg, ops, i, lo, hi);
    }
  }

  lemma RunSnoc(cfg: Config, ops: seq<Op>, snap: Snapshot)
    requires ValidConfig(cfg)
    ensures Run(cfg, ops + [Step(snap)]) == Tick(cfg, Run(cfg, ops), snap)
  {
    assert (ops + [Step(snap)])[..|ops|] == ops;
  }

  /** From raw samples to control: if every valid sample the zone's sensors were ever fed lies within
      [lo, hi] and its weights are fair, the temperature the governor acts on lies there too, or is the
      fallback. */
  lemma ZoneWithinSamples(cfg: Config, ops: seq<Op>, snap: Snapshot, z: nat, lo: i32, hi: i32)
    requires ValidConfig(cfg) && Wellformed(cfg, snap) && z < |cfg.zones| && FairWeights(cfg.zones[z])
    requires forall i :: 0 <= i < |cfg.sensors| && cfg.sensors[i].id in cfg.zones[z].sensorIds ==>
      FedWithin(cfg, ops + [Step(snap)], i, lo, hi)
    ensures ReadingWithin(cfg.zones[z], ZoneReading(cfg, Run(cfg, ops), snap, z), lo, hi)
  {
    SensorsWithin(cfg, ops + [Step(snap)], z, lo, hi);
    RunSnoc(cfg, ops, snap);
    SlotsWithin(cfg, Run(cfg, ops), snap, z, lo, hi);
    AggregatesWithin(cfg, Run(cfg, ops), snap, z, lo, hi);
  }

  predicate ReadingWithin(z: ZoneCfg, r: Zone.Reading, lo: int, hi: int) {
    if r.valid then lo <= r.tempMc <= hi else r.tempMc == z.fallbackMc
  }

  lemma AggregatesWithin(cfg: Config, s: Core, snap: Snapshot, z: nat, lo: i32, hi: i32)
    requires Sized(cfg, s) && z < |cfg.zones| && FairWeights(cfg.zones[z]) &&
      Zone.Within(Slots(cfg, s, snap, z), lo, hi)
    ensures ReadingWithin(cfg.zones[z], ZoneReading(cfg, s, snap, z), lo, hi)
  {
    var slots := Slots(cfg, s, snap, z);
    FairSlots(cfg, s, snap, z);
    if Zone.Aggregate(cfg.zones[z].aggregation, slots, cfg.zones[z].fallbackMc).valid {
      Zone.AggregateWithin(cfg.zones[z].aggregation, slots, cfg.zones[z].fallbackMc, lo, hi);
    }
  }

  lemma FairSlots(cfg: Config, s: Core, snap: Snapshot, z: nat)
    requires Sized(cfg, s) && z < |cfg.zones| && FairWeights(cfg.zones[z])
    ensures cfg.zones[z].aggregation == Zone.AGG_WEIGHTED ==> Zone.WeightsNonNegative(Slots(cfg, s, snap, z))
  {
    forall k | 0 <= k < |Slots(cfg, s, snap, z)|
      ensures Slots(cfg, s, snap, z)[k] == SlotView(cfg, Filters1(cfg, s, snap), Stuck1(cfg, s, snap), z, k)
    {
    }
  }
}
