/** A PID zone of the regulator: over whole runs its controller stays within the ranges in which the C
    arithmetic fits (core/thermal_core.c:265-305, core/thermal_pid.c:54-97). */
module RangeRuns {
  import opened CInt
  import opened Config
  import opened Invariants
  import opened Ranges
  import opened Regulator
  import Pid
  import Zone
  import ZoneRuns

  /** Configured bounds that keep a zone's gains moderate, and its setpoints and fallback in a narrow range. */
  predicate Moderate(z: ZoneCfg, lo: int, hi: int) {
    var p := z.pid;
    z.governor == GOVERNOR_PID && ZoneRuns.FairWeights(z) &&
    -0x100_0000 <= p.kiMin && p.kiMax <= 0x100_0000 && -0x2000_0000 <= p.kdMin && p.kdMax <= 0x2000_0000 &&
    Narrow(lo, hi) && lo <= z.fallbackMc <= hi && lo <= p.setpointMin && p.setpointMax <= hi
  }

  /** Every valid sample fed to a sensor of zone z lies within [lo, hi]. */
  ghost predicate ZoneFedWithin(cfg: Config, ops: seq<Op>, z: nat, lo: int, hi: int)
    requires ValidConfig(cfg) && z < |cfg.zones|
  {
    forall i :: 0 <= i < |cfg.sensors| && cfg.sensors[i].id in cfg.zones[z].sensorIds ==>
      ZoneRuns.FedWithin(cfg, ops, i, lo, hi)
  }

  lemma FedBefore(cfg: Config, ops: seq<Op>, i: nat, lo: int, hi: int)
    requires ValidConfig(cfg) && i < |cfg.sensors| && |ops| > 0 && ZoneRuns.FedWithin(cfg, ops, i, lo, hi)
    ensures ZoneRuns.FedWithin(cfg, ops[..|ops| - 1], i, lo, hi)
  {
    var all, before := ZoneRuns.Fed(cfg, ops, i), ZoneRuns.Fed(cfg, ops[..|ops| - 1], i);
    forall k | 0 <= k < |before| && before[k].valid ensures lo <= before[k].value <= hi { assert all[k] == before[k]; }
  }

  lemma PrevTempStep(z: ZoneCfg, zr: ZoneRt, reading: Zone.Reading, offset: int, now: u32, lo: int, hi: int)
    requires z.governor == GOVERNOR_PID && PidLimits(z).Valid()
    requires ZoneRuns.ReadingWithin(z, reading, lo, hi) && lo <= z.fallbackMc <= hi
    ensures lo <= ZoneStep(z, zr, reading, offset, now).pid.prevTemp <= hi
  {
  }

  lemma OpKeepsPrevTemp(cfg: Config, s: Core, op: Op, z: nat, lo: int, hi: int)
    requires Inv(cfg, s) && z < |cfg.zones| && Moderate(cfg.zones[z], lo, hi)
    requires s.zones[z].pid.initialized ==> lo <= s.zones[z].pid.prevTemp <= hi
    requires op.Step? && Wellformed(cfg, op.snap) ==>
      ZoneRuns.ReadingWithin(cfg.zones[z], ZoneReading(cfg, s, op.snap, z), lo, hi)
    ensures |Apply(cfg, s, op).zones| == |cfg.zones|
    ensures var pid := Apply(cfg, s, op).zones[z].pid; pid.initialized ==> lo <= pid.prevTemp <= hi
  {
    ZoneRuns.OpStepsZone(cfg, s, op, z);
    if op.Step? && Wellformed(cfg, op.snap) {
      PrevTempStep(cfg.zones[z], s.zones[z], ZoneReading(cfg, s, op.snap, z), TripOffset(s, Mod1(cfg, s, op.snap)),
                   op.snap.now, lo, hi);
    }
  }

  lemma ZoneFedBefore(cfg: Config, ops: seq<Op>, z: nat, lo: int, hi: int)
    requires ValidConfig(cfg) && z < |cfg.zones| && |ops| > 0 && ZoneFedWithin(cfg, ops, z, lo, hi)
    ensures ZoneFedWithin(cfg, ops[..|ops| - 1], z, lo, hi)
  {
    forall i | 0 <= i < |cfg.sensors| && cfg.sensors[i].id in cfg.zones[z].sensorIds
      ensures ZoneRuns.FedWithin(cfg, ops[..|ops| - 1], i, lo, hi)
    {
      FedBefore(cfg, ops, i, lo, hi);
    }
  }

  /** The last reading of a run. */
  lemma LastReading(cfg: Config, ops: seq<Op>, z: nat, lo: i32, hi: i32)
    requires ValidConfig(cfg) && z < |cfg.zones| && Moderate(cfg.zones[z], lo, hi)
    requires ZoneFedWithin(cfg, ops, z, lo, hi) && |ops| > 0
    requires ops[|ops| - 1].Step? && Wellformed(cfg, ops[|ops| - 1].snap)
    ensures var before := ops[..|ops| - 1];
            ZoneRuns.ReadingWithin(cfg.zones[z], ZoneReading(cfg, Run(cfg, before), ops[|ops| - 1].snap, z), lo, hi)
  {
    var before, snap := ops[..|ops| - 1], ops[|ops| - 1].snap;
    assert before + [Step(snap)] == ops;
    ZoneRuns.ZoneWithinSamples(cfg, before, snap, z, lo, hi);
  }

  lemma {:induction false} PrevTempWithin(cfg: Config, ops: seq<Op>, z: nat, lo: i32, hi: i32)
    requires ValidConfig(cfg) && z < |cfg.zones| && Moderate(cfg.zones[z], lo, hi)
    requires ZoneFedWithin(cfg, ops, z, lo, hi)
    ensures var pid := Run(cfg, ops).zones[z].pid; pid.initialized ==> lo <= pid.prevTemp <= hi
  {
    if |ops| > 0 {
      var k := |ops| - 1;
      ZoneFedBefore(cfg, ops, z, lo, hi);
      PrevTempWithin(cfg, ops[..k], z, lo, hi);
      RunKeepsInv(cfg, ops[..k]);
      if ops[k].Step? && Wellformed(cfg, ops[k].snap) { LastReading(cfg, ops, z, lo, hi); }
      OpKeepsPrevTemp(cfg, Run(cfg, ops[..k]), ops[k], z, lo, hi);
    }
  }

  /** What the controller of zone z is fed on a tick. */
  ghost function PidInput(cfg: Config, s: Core, snap: Snapshot, z: nat): Pid.Input
    requires Sized(cfg, s) && CurvesAscending(s) && z < |cfg.zones|
  {
    Pid.Input(WrapI32(s.zones[z].setpoint + TripOffset(s, Mod1(cfg, s, snap))), ZoneReading(cfg, s, snap, z).tempMc,
              snap.now)
  }

  lemma FedInputNear(cfg: Config, s: Core, snap: Snapshot, z: nat, lo: i32, hi: i32)
    requires Inv(cfg, s) && z < |cfg.zones| && Moderate(cfg.zones[z], lo, hi)
    requires ZoneRuns.ReadingWithin(cfg.zones[z], ZoneReading(cfg, s, snap, z), lo, hi)
    ensures Near(PidInput(cfg, s, snap, z), lo, hi)
    ensures ModerateGains(s.zones[z].gains) && PidLimits(cfg.zones[z]).Valid()
  {
    TickOffsetValid(cfg, s, snap, z);
  }

  /** In any run of the regulator, while the samples of a moderately configured PID zone lie in its narrow
      range, no tick overflows in the zone's controller. */
  lemma CorePidFits(cfg: Config, ops: seq<Op>, snap: Snapshot, z: nat, lo: i32, hi: i32)
    requires ValidConfig(cfg) && Wellformed(cfg, snap) && z < |cfg.zones| && Moderate(cfg.zones[z], lo, hi)
    requires ZoneFedWithin(cfg, ops + [Step(snap)], z, lo, hi)
    ensures var (zr, inp) := (Run(cfg, ops).zones[z], PidInput(cfg, Run(cfg, ops), snap, z));
            PidLimits(cfg.zones[z]).Valid() &&
            PidFits(zr.pid, zr.gains, inp, Pid.DtMs(zr.pid, snap.now, PidLimits(cfg.zones[z])))
  {
    var s := Run(cfg, ops);
    var next := ops + [Step(snap)];
    assert next[..|next| - 1] == ops;
    ZoneFedBefore(cfg, next, z, lo, hi);
    PrevTempWithin(cfg, ops, z, lo, hi);
    ZoneRuns.ZoneWithinSamples(cfg, ops, snap, z, lo, hi);
    RunKeepsInv(cfg, ops);
    FedInputNear(cfg, s, snap, z, lo, hi);
    NarrowStepFits(s.zones[z].pid, s.zones[z].gains, PidInput(cfg, s, snap, z),
                   Pid.DtMs(s.zones[z].pid, snap.now, PidLimits(cfg.zones[z])), lo, hi);
  }
}
