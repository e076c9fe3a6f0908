/** Whole runs of the regulator seen by one actuator: its state is the final stage run over the commands
    it was given, so the dwell and switch-off theorems hold in the core (core/thermal_core.c:2024-2210). */
module ActuatorRuns {
  import opened CInt
  import opened Config
  import opened Regulator
  import opened Invariants
  import Actuator
  import Wire

  /** An op that performs a control tick: commands and malformed snapshots do not. */
  predicate Ticks(cfg: Config, op: Op) { op.Step? && Wellformed(cfg, op.snap) }

  /** What actuator a was told on each tick of a run. */
  ghost function ActInputs(cfg: Config, ops: seq<Op>, a: nat): seq<Actuator.Input>
    requires ValidConfig(cfg) && a < |cfg.actuators|
  {
    if |ops| == 0 then []
    else
      var k := |ops| - 1;
      ActInputs(cfg, ops[..k], a) + Told(cfg, Run(cfg, ops[..k]), ops[k], a)
  }

  /** What one op tells actuator a. */
  function Told(cfg: Config, s: Core, op: Op, a: nat): seq<Actuator.Input>
    requires Sized(cfg, s) && CurvesAscending(s) && a < |cfg.actuators|
  {
    if Ticks(cfg, op) then [Command(cfg, s, op.snap, a)] else []
  }

  /** The duty actuator a was left at by each tick of a run. */
  ghost function Duties(cfg: Config, ops: seq<Op>, a: nat): seq<u8>
    requires ValidConfig(cfg) && a < |cfg.actuators|
  {
    if |ops| == 0 then []
    else
      var k := |ops| - 1;
      Duties(cfg, ops[..k], a) + DutyOf(cfg, Run(cfg, ops[..k]), ops[k], a)
  }

  /** The duty actuator a outputs on one op. */
  function DutyOf(cfg: Config, s: Core, op: Op, a: nat): seq<u8>
    requires Sized(cfg, s) && CurvesAscending(s) && a < |cfg.actuators|
  {
    if Ticks(cfg, op) then [Apply(cfg, s, op).acts[a].duty] else []
  }

  lemma CommandLeavesActs(cfg: Config, s: Core, cmd: Wire.Command)
    requires Sized(cfg, s)
    ensures ApplyCommand(cfg, s, cmd).0.acts == s.acts
  {
  }

  lemma ActStep(cfg: Config, s: Core, op: Op, a: nat)
    requires Sized(cfg, s) && CurvesAscending(s) && a < |cfg.actuators|
    ensures |Apply(cfg, s, op).acts| == |cfg.actuators|
    ensures Apply(cfg, s, op).acts[a] ==
      if Ticks(cfg, op) then Actuator.Step(cfg.actuators[a].drive, s.acts[a], Command(cfg, s, op.snap, a), cfg.periodMs)
      else s.acts[a]
  {
    match op
    case Step(snap) => TickDrives(cfg, s, snap, a);
    case Order(cmd) => CommandLeavesActs(cfg, s, cmd);
  }

  lemma TickDrives(cfg: Config, s: Core, snap: Snapshot, a: nat)
    requires Sized(cfg, s) && CurvesAscending(s) && a < |cfg.actuators|
    ensures |Tick(cfg, s, snap).acts| == |cfg.actuators|
    ensures Tick(cfg, s, snap).acts[a] ==
      if Wellformed(cfg, snap)
      then Actuator.Step(cfg.actuators[a].drive, s.acts[a], Command(cfg, s, snap, a), cfg.periodMs)
      else s.acts[a]
  {
  }

  lemma StageNext(ac: Actuator.Config, periodMs: u16, past: seq<Actuator.Input>, told: seq<Actuator.Input>)
    requires |told| <= 1
    ensures Actuator.Run(ac, periodMs, past + told) ==
      if |told| == 1 then Actuator.Step(ac, Actuator.Run(ac, periodMs, past), told[0], periodMs)
        else Actuator.Run(ac, periodMs, past)
    ensures Actuator.Trace(ac, periodMs, past + told) ==
      if |told| == 1 then Actuator.Trace(ac, periodMs, past) + [Actuator.Run(ac, periodMs, past + told).duty]
      else Actuator.Trace(ac, periodMs, past)
  {
    if |told| == 1 { assert (past + told)[..|past|] == past; } else { assert past + told == past; }
  }

  lemma ActuatorNext(cfg: Config, s: Core, op: Op, a: nat, past: seq<Actuator.Input>)
    requires Sized(cfg, s) && CurvesAscending(s) && a < |cfg.actuators|
    requires s.acts[a] == Actuator.Run(cfg.actuators[a].drive, cfg.periodMs, past)
    ensures |Apply(cfg, s, op).acts| == |cfg.actuators|
    ensures Apply(cfg, s, op).acts[a] == Actuator.Run(cfg.actuators[a].drive, cfg.periodMs, past + Told(cfg, s, op, a))
  {
    ActStep(cfg, s, op, a);
    StageNext(cfg.actuators[a].drive, cfg.periodMs, past, Told(cfg, s, op, a));
  }

  /** Actuator a of any run is the final stage run over what it was told. */
  lemma {:induction false} ActuatorRefines(cfg: Config, ops: seq<Op>, a: nat)
    requires ValidConfig(cfg) && a < |cfg.actuators|
    ensures Run(cfg, ops).acts[a] == Actuator.Run(cfg.actuators[a].drive, cfg.periodMs, ActInputs(cfg, ops, a))
  {
    if |ops| > 0 {
      var k := |ops| - 1;
      ActuatorRefines(cfg, ops[..k], a);
      ActuatorNext(cfg, Run(cfg, ops[..k]), ops[k], a, ActInputs(cfg, ops[..k], a));
    }
  }

  lemma DutyNext(cfg: Config, s: Core, op: Op, a: nat, past: seq<Actuator.Input>)
    requires Sized(cfg, s) && CurvesAscending(s) && a < |cfg.actuators|
    requires s.acts[a] == Actuator.Run(cfg.actuators[a].drive, cfg.periodMs, past)
    ensures Actuator.Trace(cfg.actuators[a].drive, cfg.periodMs, past + Told(cfg, s, op, a)) ==
      Actuator.Trace(cfg.actuators[a].drive, cfg.periodMs, past) + DutyOf(cfg, s, op, a)
  {
    ActuatorNext(cfg, s, op, a, past);
    StageNext(cfg.actuators[a].drive, cfg.periodMs, past, Told(cfg, s, op, a));
  }

  /** The duties of a run are those of the stage. */
  lemma {:induction false} DutiesAreTrace(cfg: Config, ops: seq<Op>, a: nat)
    requires ValidConfig(cfg) && a < |cfg.actuators|
    ensures Duties(cfg, ops, a) == Actuator.Trace(cfg.actuators[a].drive, cfg.periodMs, ActInputs(cfg, ops, a))
  {
    if |ops| > 0 {
      var k := |ops| - 1;
      DutiesAreTrace(cfg, ops[..k], a);
      ActuatorRefines(cfg, ops[..k], a);
      DutyNext(cfg, Run(cfg, ops[..k]), ops[k], a, ActInputs(cfg, ops[..k], a));
    }
  }

  predicate ValidDrive(cfg: Config, a: nat)
    requires a < |cfg.actuators|
  {
    cfg.actuators[a].drive.Valid()
  }

  lemma DriveIsValid(cfg: Config, a: nat)
    requires ValidConfig(cfg) && a < |cfg.actuators|
    ensures ValidDrive(cfg, a)
  {
    assert ActuatorValid(cfg.actuators[a]);
  }

  /** In any run, on a tick without a safety bypass, a switch to off ends an on-run of at least minOn
      ticks, and a switch to on ends an off-run of at least minOff ticks or one reaching back to init. */
  lemma NoShortCycles(cfg: Config, ops: seq<Op>, snap: Snapshot, a: nat)
    requires ValidConfig(cfg) && a < |cfg.actuators| && Wellformed(cfg, snap)
    ensures !Command(cfg, Run(cfg, ops), snap, a).Bypass() ==>
      DwellHeld(cfg.actuators[a].drive, Run(cfg, ops).acts[a], Apply(cfg, Run(cfg, ops), Step(snap)).acts[a],
                Duties(cfg, ops, a))
  {
    if !Command(cfg, Run(cfg, ops), snap, a).Bypass() {
      ActStep(cfg, Run(cfg, ops), Step(snap), a);
      ActuatorRefines(cfg, ops, a);
      DutiesAreTrace(cfg, ops, a);
      DriveIsValid(cfg, a);
      Actuator.SwitchEndsDwell(cfg.actuators[a].drive, cfg.periodMs, ActInputs(cfg, ops, a),
                               Command(cfg, Run(cfg, ops), snap, a));
    }
  }

  /** The dwell rule between two states of an actuator, given the duties that led to the first. */
  ghost predicate DwellHeld(ac: Actuator.Config, before: Actuator.State, after: Actuator.State, d: seq<u8>) {
    (before.duty > 0 && after.duty == 0 ==> Actuator.OnFor(d, ac.minOn)) &&
    (before.duty == 0 && after.duty > 0 ==> Actuator.OffFor(d, |d|) || Actuator.OffFor(d, ac.minOff))
  }

  /** Continuing a run only appends to what the actuator is told. */
  lemma {:induction false} InputsExtend(cfg: Config, ops: seq<Op>, k: nat, a: nat)
    requires ValidConfig(cfg) && a < |cfg.actuators| && k <= |ops|
    ensures ActInputs(cfg, ops[..k], a) <= ActInputs(cfg, ops, a)
    decreases |ops|
  {
    if k == |ops| {
      assert ops[..k] == ops;
    } else {
      assert ops[..|ops| - 1][..k] == ops[..k];
      InputsExtend(cfg, ops[..|ops| - 1], k, a);
    }
  }

  /** In any run: if since op k every tick asked actuator a for 0 with no bypass, for at least the rest of
      its on-dwell plus one full ramp, then it is off, and it stays off for as long as that lasts. */
  lemma IdleActuatorTurnsOff(cfg: Config, ops: seq<Op>, k: nat, a: nat)
    requires ValidConfig(cfg) && a < |cfg.actuators| && k <= |ops|
    ensures IdleSince(cfg.actuators[a].drive, Run(cfg, ops[..k]).acts[a], |ActInputs(cfg, ops[..k], a)|,
                      ActInputs(cfg, ops, a)) ==>
      Run(cfg, ops).acts[a].duty == 0
  {
    InputsExtend(cfg, ops, k, a);
    ActuatorRefines(cfg, ops[..k], a);
    ActuatorRefines(cfg, ops, a);
    DriveIsValid(cfg, a);
    if IdleSince(cfg.actuators[a].drive, Run(cfg, ops[..k]).acts[a], |ActInputs(cfg, ops[..k], a)|,
                 ActInputs(cfg, ops, a)) {
      Actuator.IdleTailTurnsOff(cfg.actuators[a].drive, cfg.periodMs, ActInputs(cfg, ops[..k], a),
                                ActInputs(cfg, ops, a));
    }
  }

  /** From input n on, an actuator then in state st was asked for 0 without bypass, for long enough. */
  ghost predicate IdleSince(ac: Actuator.Config, st: Actuator.State, n: nat, all: seq<Actuator.Input>) {
    n <= |all| && Actuator.AllQuiet(all[n..]) &&
      |all| - n >= Actuator.HoldTicks(ac, st) + Actuator.RampTicks(ac, ac.pwmMax)
  }

  // ----- The shutdown request

  /** One entry per op: whether it was a tick that saw a SHUTDOWN zone or a shutdown request. */
  ghost function Shutdowns(cfg: Config, ops: seq<Op>): seq<bool>
    requires ValidConfig(cfg)
  {
    if |ops| == 0 then []
    else
      var k := |ops| - 1;
      Shutdowns(cfg, ops[..k]) + [Ticks(cfg, ops[k]) && ShutdownSeen(cfg, Run(cfg, ops[..k]), ops[k].snap)]
  }

  lemma OpLatches(cfg: Config, s: Core, op: Op)
    requires Sized(cfg, s) && CurvesAscending(s)
    ensures Apply(cfg, s, op).shutdownLatched ==
      (s.shutdownLatched || (Ticks(cfg, op) && ShutdownSeen(cfg, s, op.snap)))
  {
    if op.Order? { CommandLeavesLatch(cfg, s, op.cmd); }
  }

  lemma CommandLeavesLatch(cfg: Config, s: Core, cmd: Wire.Command)
    requires Sized(cfg, s)
    ensures ApplyCommand(cfg, s, cmd).0.shutdownLatched == s.shutdownLatched
  {
  }

  lemma InSnoc(h: seq<bool>, b: bool)
    ensures true in h + [b] <==> true in h || b
  {
  }

  /** The latched shutdown request says exactly whether any tick of the run saw one; nothing releases it. */
  lemma {:induction false} ShutdownIsLatched(cfg: Config, ops: seq<Op>)
    requires ValidConfig(cfg)
    ensures Run(cfg, ops).shutdownLatched == (true in Shutdowns(cfg, ops))
  {
    if |ops| > 0 {
      var k := |ops| - 1;
      var s := Run(cfg, ops[..k]);
      ShutdownIsLatched(cfg, ops[..k]);
      OpLatches(cfg, s, ops[k]);
      InSnoc(Shutdowns(cfg, ops[..k]), Ticks(cfg, ops[k]) && ShutdownSeen(cfg, s, ops[k].snap));
    }
  }
}
