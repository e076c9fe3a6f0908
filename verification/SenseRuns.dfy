/** Any run of the regulator as its stall, stuck-sensor and stale-context detectors sense it: each tests a history
    of the run (core/thermal_core.c:1542-1643, 1790-1960; core/thermal_fault.c:101-144, 164-245, 327-355). */
module SenseRuns {
  import opened CInt
  import opened Config
  import opened Fault
  import opened Detectors
  import opened DetectorLaws
  import opened Regulator
  import opened DetectorRuns
  import Actuator
  import Filter
  import Invariants
  import Wire

  // ----- Stall

  /** The duties actuator a was asked for, one per tick of an enabled detector, since the last accepted clear. */
  ghost function Asked(cfg: Config, ops: seq<Invariants.Op>, a: nat): seq<u8>
    requires ValidConfig(cfg) && a < |cfg.actuators|
  {
    if |ops| == 0 then []
    else
      var k := |ops| - 1;
      AskedBy(cfg, Invariants.Run(cfg, ops[..k]), ops[k], a, Asked(cfg, ops[..k], a))
  }

  ghost function AskedBy(cfg: Config, s: Core, op: Invariants.Op, a: nat, h: seq<u8>): seq<u8>
    requires Sized(cfg, s) && CurvesAscending(s) && a < |cfg.actuators|
  {
    match op
    case Step(snap) => if Wellformed(cfg, snap) && cfg.stall.enabled then h + [Command(cfg, s, snap, a).demand] else h
    case Order(cmd) => if Addresses(cfg, cmd, StallOf(a)) && Accepts(s.stall[a].det, cfg.stall) then [] else h
  }

  function Grace(cfg: Config, a: nat): u16
    requires a < |cfg.actuators|
  {
    Actuator.SpinupTicks(cfg.actuators[a].drive, cfg.periodMs)
  }

  lemma StallStepped(cfg: Config, s: Core, snap: Snapshot, a: nat)
    requires Sized(cfg, s) && CurvesAscending(s) && a < |cfg.actuators|
    ensures |Regulator.Tick(cfg, s, snap).stall| == |cfg.actuators|
    ensures Regulator.Tick(cfg, s, snap).stall[a].aux ==
      if Wellformed(cfg, snap) && cfg.stall.enabled
      then StallStep(s.stall[a].aux, Command(cfg, s, snap, a).demand, Grace(cfg, a)) else s.stall[a].aux
  {
  }

  lemma StallOrdered(cfg: Config, s: Core, cmd: Wire.Command, a: nat)
    requires Sized(cfg, s) && a < |cfg.actuators|
    ensures |ApplyCommand(cfg, s, cmd).0.stall| == |cfg.actuators|
    ensures ApplyCommand(cfg, s, cmd).0.stall[a].aux ==
      if Addresses(cfg, cmd, StallOf(a)) && Accepts(s.stall[a].det, cfg.stall) then STALL_RESET else s.stall[a].aux
  {
  }

  lemma OpStalls(cfg: Config, s: Core, op: Invariants.Op, a: nat, h: seq<u8>)
    requires Sized(cfg, s) && CurvesAscending(s) && a < |cfg.actuators|
    requires s.stall[a].aux == StallRun(h, Grace(cfg, a))
    ensures |Invariants.Apply(cfg, s, op).stall| == |cfg.actuators|
    ensures Invariants.Apply(cfg, s, op).stall[a].aux == StallRun(AskedBy(cfg, s, op, a, h), Grace(cfg, a))
  {
    match op {
      case Step(snap) =>
        StallStepped(cfg, s, snap, a);
        StallSnoc(h, Command(cfg, s, snap, a).demand, Grace(cfg, a));
      case Order(cmd) => StallOrdered(cfg, s, cmd, a);
    }
  }

  lemma StallSnoc(h: seq<u8>, duty: u8, spin: u16)
    ensures StallRun(h + [duty], spin) == StallStep(StallRun(h, spin), duty, spin)
  {
    assert (h + [duty])[..|h|] == h;
  }

  lemma {:induction false} StallRefines(cfg: Config, ops: seq<Invariants.Op>, a: nat)
    requires ValidConfig(cfg) && a < |cfg.actuators|
    ensures Invariants.Run(cfg, ops).stall[a].aux == StallRun(Asked(cfg, ops, a), Grace(cfg, a))
  {
    if |ops| > 0 {
      var k := |ops| - 1;
      StallRefines(cfg, ops[..k], a);
      OpStalls(cfg, Invariants.Run(cfg, ops[..k]), ops[k], a, Asked(cfg, ops[..k], a));
    }
  }

  /** What an enabled stall detector senses in state s when its actuator was asked for these duties before: the
      tach sample of the actuator, clipped to 16 bits, against the duty asked for now. */
  ghost predicate StallSense(cfg: Config, s: Core, snap: Snapshot, a: nat, h: seq<u8>)
    requires Sized(cfg, s) && CurvesAscending(s) && a < |cfg.actuators|
  {
    var (tach, duty) := (Lookup(snap.samples, TachRpm, cfg.actuators[a].id), Command(cfg, s, snap, a).demand);
    tach.valid && duty >= cfg.stall.threshold1 % 0x100 &&
    Max(0, Min(tach.value, 0xFFFF)) < cfg.stall.threshold0 % 0x1_0000 && !GraceAt(h + [duty], Grace(cfg, a), |h|)
  }

  lemma SensedStall(cfg: Config, s: Core, snap: Snapshot, a: nat, h: seq<u8>)
    requires Sized(cfg, s) && CurvesAscending(s) && a < |cfg.actuators| && cfg.stall.enabled
    requires s.stall[a].aux == StallRun(h, Grace(cfg, a))
    ensures SensedBy(cfg, s, snap, StallOf(a)) == Condition(StallSense(cfg, s, snap, a, h))
  {
    var (rpm, valid) := TachOf(cfg, snap, a);
    StallLaw(cfg.stall, h, Command(cfg, s, snap, a).demand, rpm, valid, Grace(cfg, a));
  }

  /** On every tick of any run an enabled stall detector senses exactly that. */
  lemma CoreStallLaw(cfg: Config, ops: seq<Invariants.Op>, snap: Snapshot, a: nat)
    requires ValidConfig(cfg) && a < |cfg.actuators| && cfg.stall.enabled
    ensures var s := Invariants.Run(cfg, ops);
            SensedBy(cfg, s, snap, StallOf(a)) == Condition(StallSense(cfg, s, snap, a, Asked(cfg, ops, a)))
  {
    StallRefines(cfg, ops, a);
    SensedStall(cfg, Invariants.Run(cfg, ops), snap, a, Asked(cfg, ops, a));
  }

  // ----- Stuck sensor

  /** The readings sensor i offered, one per tick of an enabled detector, since the last accepted clear. */
  ghost function Offered(cfg: Config, ops: seq<Invariants.Op>, i: nat): seq<Reading>
    requires ValidConfig(cfg) && i < |cfg.sensors|
  {
    if |ops| == 0 then []
    else
      var k := |ops| - 1;
      OfferedBy(cfg, Invariants.Run(cfg, ops[..k]), ops[k], i, Offered(cfg, ops[..k], i))
  }

  ghost function OfferedBy(cfg: Config, s: Core, op: Invariants.Op, i: nat, h: seq<Reading>): seq<Reading>
    requires Sized(cfg, s) && CurvesAscending(s) && i < |cfg.sensors|
  {
    match op
    case Step(snap) => if Wellformed(cfg, snap) && cfg.stuck.enabled then h + [StuckReading(cfg, s, snap, i)] else h
    case Order(cmd) => if Addresses(cfg, cmd, StuckOf(i)) && Accepts(s.stuck[i].det, cfg.stuck) then [] else h
  }

  lemma StuckStepped(cfg: Config, s: Core, snap: Snapshot, i: nat)
    requires Sized(cfg, s) && CurvesAscending(s) && i < |cfg.sensors|
    ensures |Regulator.Tick(cfg, s, snap).stuck| == |cfg.sensors|
    ensures Regulator.Tick(cfg, s, snap).stuck[i].aux ==
      if Wellformed(cfg, snap) && cfg.stuck.enabled
      then StuckStep(s.stuck[i].aux, cfg.stuck, StuckReading(cfg, s, snap, i)) else s.stuck[i].aux
  {
  }

  lemma StuckOrdered(cfg: Config, s: Core, cmd: Wire.Command, i: nat)
    requires Sized(cfg, s) && i < |cfg.sensors|
    ensures |ApplyCommand(cfg, s, cmd).0.stuck| == |cfg.sensors|
    ensures ApplyCommand(cfg, s, cmd).0.stuck[i].aux ==
      if Addresses(cfg, cmd, StuckOf(i)) && Accepts(s.stuck[i].det, cfg.stuck) then STUCK_RESET else s.stuck[i].aux
  {
  }

  lemma StuckSnoc(fc: DetectorCfg, h: seq<Reading>, r: Reading, now: u32)
    ensures StuckRun(fc, h + [r], now).1 == StuckStep(StuckRun(fc, h, now).1, fc, r)
  {
    assert (h + [r])[..|h|] == h;
  }

  lemma OpSticks(cfg: Config, s: Core, op: Invariants.Op, i: nat, h: seq<Reading>)
    requires Sized(cfg, s) && CurvesAscending(s) && i < |cfg.sensors|
    requires s.stuck[i].aux == StuckRun(cfg.stuck, h, 0).1
    ensures |Invariants.Apply(cfg, s, op).stuck| == |cfg.sensors|
    ensures Invariants.Apply(cfg, s, op).stuck[i].aux == StuckRun(cfg.stuck, OfferedBy(cfg, s, op, i, h), 0).1
  {
    match op {
      case Step(snap) =>
        StuckStepped(cfg, s, snap, i);
        StuckSnoc(cfg.stuck, h, StuckReading(cfg, s, snap, i), 0);
      case Order(cmd) => StuckOrdered(cfg, s, cmd, i);
    }
  }

  lemma {:induction false} StuckRefines(cfg: Config, ops: seq<Invariants.Op>, i: nat)
    requires ValidConfig(cfg) && i < |cfg.sensors|
    ensures Invariants.Run(cfg, ops).stuck[i].aux == StuckRun(cfg.stuck, Offered(cfg, ops, i), 0).1
  {
    if |ops| > 0 {
      var k := |ops| - 1;
      StuckRefines(cfg, ops[..k], i);
      OpSticks(cfg, Invariants.Run(cfg, ops[..k]), ops[k], i, Offered(cfg, ops[..k], i));
    }
  }

  /** A sensor offers the filtered value of the tick, and with it that of the context the detector is correlated
      with, if any. */
  lemma ReadingLaw(cfg: Config, s: Core, snap: Snapshot, i: nat)
    requires Sized(cfg, s) && CurvesAscending(s) && i < |cfg.sensors| && Wellformed(cfg, snap)
    ensures var (t, r) := (Regulator.Tick(cfg, s, snap), StuckReading(cfg, s, snap, i));
            |t.filters| == |cfg.sensors| && |t.contexts| == |cfg.contexts| &&
            (r.value, r.valid) == (t.filters[i].value, t.filters[i].valid) &&
            (cfg.stuck.contextId == 0xFFFF || cfg.stuck.contextId !in cfg.ContextIds() ==> !r.contextValid) &&
            forall c :: 0 <= c < |cfg.contexts| && cfg.stuck.contextId != 0xFFFF &&
                        SlotOf(cfg.ContextIds(), cfg.stuck.contextId) == c ==>
              (r.contextValue, r.contextValid) == (t.contexts[c].filter.value, t.contexts[c].filter.valid)
  {
  }

  lemma SensedStuck(cfg: Config, s: Core, snap: Snapshot, i: nat, h: seq<Reading>)
    requires Sized(cfg, s) && CurvesAscending(s) && i < |cfg.sensors| && cfg.stuck.enabled
    requires s.stuck[i].aux == StuckRun(cfg.stuck, h, 0).1
    ensures SensedBy(cfg, s, snap, StuckOf(i)) == Condition(StuckSense(cfg.stuck, h, StuckReading(cfg, s, snap, i)))
  {
    StuckLaw(cfg.stuck, h, StuckReading(cfg, s, snap, i), 0);
  }

  /** On every tick of any run an enabled stuck-sensor detector senses exactly that. */
  lemma CoreStuckLaw(cfg: Config, ops: seq<Invariants.Op>, snap: Snapshot, i: nat)
    requires ValidConfig(cfg) && i < |cfg.sensors| && cfg.stuck.enabled
    ensures var s := Invariants.Run(cfg, ops);
            SensedBy(cfg, s, snap, StuckOf(i)) ==
              Condition(StuckSense(cfg.stuck, Offered(cfg, ops, i), StuckReading(cfg, s, snap, i)))
  {
    StuckRefines(cfg, ops, i);
    SensedStuck(cfg, Invariants.Run(cfg, ops), snap, i, Offered(cfg, ops, i));
  }

  // ----- Stale context

  /** What one op brought a context: a valid sample or not, and when. */
  datatype Mark = Mark(valid: bool, now: u32)

  function MarkOf(cfg: Config, op: Invariants.Op, c: nat): Mark
    requires c < |cfg.contexts|
  {
    if op.Step? && Wellformed(cfg, op.snap)
    then Mark(Lookup(op.snap.samples, ContextI32, cfg.contexts[c].id).valid, op.snap.now) else Mark(false, 0)
  }

  function Marks(cfg: Config, ops: seq<Invariants.Op>, c: nat): (m: seq<Mark>)
    requires c < |cfg.contexts|
    ensures |m| == |ops| && forall k :: 0 <= k < |ops| ==> m[k] == MarkOf(cfg, ops[k], c)
  {
    if |ops| == 0 then [] else Marks(cfg, ops[..|ops| - 1], c) + [MarkOf(cfg, ops[|ops| - 1], c)]
  }

  lemma MarksSnoc(cfg: Config, ops: seq<Invariants.Op>, op: Invariants.Op, c: nat)
    requires c < |cfg.contexts|
    ensures Marks(cfg, ops + [op], c) == Marks(cfg, ops, c) + [MarkOf(cfg, op, c)]
  {
    assert (ops + [op])[..|ops|] == ops;
  }

  /** Mark k is the last valid one. */
  ghost predicate IsLast(m: seq<Mark>, k: nat)
    requires k < |m|
  {
    m[k].valid && forall j :: k < j < |m| ==> !m[j].valid
  }

  /** The context remembers whether it ever had a valid sample, and when the last one came. */
  ghost predicate Remembers(m: seq<Mark>, ever: bool, lastMs: u32) {
    (ever <==> exists k :: 0 <= k < |m| && m[k].valid) &&
    forall k :: 0 <= k < |m| && IsLast(m, k) ==> lastMs == m[k].now
  }

  lemma RemembersNext(m: seq<Mark>, x: Mark, ever: bool, lastMs: u32)
    requires Remembers(m, ever, lastMs)
    ensures Remembers(m + [x], ever || x.valid, if x.valid then x.now else lastMs)
  {
    var all := m + [x];
    if x.valid { assert all[|m|].valid; }
    if k :| 0 <= k < |m| && m[k].valid { assert all[k].valid; }
    forall k | 0 <= k < |all| && IsLast(all, k) ensures (if x.valid then x.now else lastMs) == all[k].now {
      if k < |m| {
        assert !all[|m|].valid;
        assert IsLast(m, k) by { assert forall j :: k < j < |m| ==> all[j] == m[j]; }
      }
    }
  }

  lemma ContextStepped(cfg: Config, s: Core, op: Invariants.Op, c: nat)
    requires Sized(cfg, s) && CurvesAscending(s) && c < |cfg.contexts|
    ensures |Invariants.Apply(cfg, s, op).contexts| == |cfg.contexts|
    ensures var (rt, t, x) := (s.contexts[c], Invariants.Apply(cfg, s, op).contexts[c], MarkOf(cfg, op, c));
            t.everValid == (rt.everValid || x.valid) && t.lastValidMs == if x.valid then x.now else rt.lastValidMs
  {
    match op {
      case Step(snap) => ContextTicked(cfg, s, snap, c);
      case Order(cmd) => ContextOrdered(cfg, s, cmd);
    }
  }

  lemma ContextTicked(cfg: Config, s: Core, snap: Snapshot, c: nat)
    requires Sized(cfg, s) && CurvesAscending(s) && c < |cfg.contexts|
    ensures |Regulator.Tick(cfg, s, snap).contexts| == |cfg.contexts|
    ensures Regulator.Tick(cfg, s, snap).contexts[c] ==
      if Wellformed(cfg, snap) then ContextStep(s.contexts[c], cfg.contexts[c], snap) else s.contexts[c]
  {
  }

  lemma ContextOrdered(cfg: Config, s: Core, cmd: Wire.Command)
    requires Sized(cfg, s)
    ensures ApplyCommand(cfg, s, cmd).0.contexts == s.contexts
  {
  }

  lemma OpRemembers(cfg: Config, s: Core, op: Invariants.Op, c: nat, m: seq<Mark>)
    requires Sized(cfg, s) && CurvesAscending(s) && c < |cfg.contexts|
    requires Remembers(m, s.contexts[c].everValid, s.contexts[c].lastValidMs)
    ensures |Invariants.Apply(cfg, s, op).contexts| == |cfg.contexts|
    ensures var rt := Invariants.Apply(cfg, s, op).contexts[c];
            Remembers(m + [MarkOf(cfg, op, c)], rt.everValid, rt.lastValidMs)
  {
    ContextStepped(cfg, s, op, c);
    RemembersNext(m, MarkOf(cfg, op, c), s.contexts[c].everValid, s.contexts[c].lastValidMs);
  }

  lemma {:induction false} ContextRemembers(cfg: Config, ops: seq<Invariants.Op>, c: nat)
    requires ValidConfig(cfg) && c < |cfg.contexts|
    ensures var rt := Invariants.Run(cfg, ops).contexts[c]; Remembers(Marks(cfg, ops, c), rt.everValid, rt.lastValidMs)
  {
    if |ops| > 0 {
      var k := |ops| - 1;
      ContextRemembers(cfg, ops[..k], c);
      OpRemembers(cfg, Invariants.Run(cfg, ops[..k]), ops[k], c, Marks(cfg, ops[..k], c));
    }
  }

  /** The timeout has passed between two clock readings, across a wrap of the clock too. */
  predicate Expired(since: u32, now: u32, timeoutMs: u32) { (now - since) % 0x1_0000_0000 >= timeoutMs }

  /** At time now: no valid sample ever, or the last one expired. */
  ghost predicate IsStale(m: seq<Mark>, timeoutMs: u32, now: u32) {
    forall k :: 0 <= k < |m| && IsLast(m, k) ==> Expired(m[k].now, now, timeoutMs)
  }

  lemma {:induction false} LastExists(m: seq<Mark>, j: nat)
    requires j < |m| && m[j].valid
    ensures exists k :: 0 <= k < |m| && IsLast(m, k)
    decreases |m| - j
  {
    if i :| j < i < |m| && m[i].valid { LastExists(m, i); } else { assert IsLast(m, j); }
  }

  lemma StaleMeans(m: seq<Mark>, ever: bool, lastMs: u32, timeoutMs: u32, now: u32)
    requires Remembers(m, ever, lastMs)
    ensures IsStale(m, timeoutMs, now) <==> !ever || Expired(lastMs, now, timeoutMs)
  {
    if ever {
      var j :| 0 <= j < |m| && m[j].valid;
      LastExists(m, j);
      var k :| 0 <= k < |m| && IsLast(m, k);
      assert m[k].now == lastMs;
    }
  }

  /** An enabled stale-context detector senses exactly that. */
  lemma SensedStale(fc: DetectorCfg, cc: ContextCfg, rt: ContextRt, m: seq<Mark>, now: u32)
    requires Remembers(m, rt.everValid, rt.lastValidMs) && fc.enabled
    ensures StaleSensed(fc, rt, cc, now) == Condition(IsStale(m, cc.timeoutMs, now))
  {
    StaleMeans(m, rt.everValid, rt.lastValidMs, cc.timeoutMs, now);
  }

  /** So it does on every accepted tick of any run, the tick's own sample counted. */
  lemma CoreStaleLaw(cfg: Config, ops: seq<Invariants.Op>, snap: Snapshot, c: nat)
    requires ValidConfig(cfg) && c < |cfg.contexts| && cfg.stale.enabled && Wellformed(cfg, snap)
    ensures SensedBy(cfg, Invariants.Run(cfg, ops), snap, StaleOf(c)) ==
      Condition(IsStale(Marks(cfg, ops + [Invariants.Step(snap)], c), cfg.contexts[c].timeoutMs, snap.now))
  {
    MarksSnoc(cfg, ops, Invariants.Step(snap), c);
    ContextRemembers(cfg, ops, c);
    StaleAfter(cfg, Marks(cfg, ops, c), Invariants.Run(cfg, ops), snap, c);
  }

  lemma StaleAfter(cfg: Config, m: seq<Mark>, s: Core, snap: Snapshot, c: nat)
    requires Sized(cfg, s) && CurvesAscending(s) && c < |cfg.contexts| && cfg.stale.enabled && Wellformed(cfg, snap)
    requires Remembers(m, s.contexts[c].everValid, s.contexts[c].lastValidMs)
    ensures SensedBy(cfg, s, snap, StaleOf(c)) ==
      Condition(IsStale(m + [MarkOf(cfg, Invariants.Step(snap), c)], cfg.contexts[c].timeoutMs, snap.now))
  {
    var x := MarkOf(cfg, Invariants.Step(snap), c);
    RemembersNext(m, x, s.contexts[c].everValid, s.contexts[c].lastValidMs);
    SensedStale(cfg.stale, cfg.contexts[c], ContextStep(s.contexts[c], cfg.contexts[c], snap), m + [x], snap.now);
    StaleSenses(cfg, s, snap, c);
  }

  lemma StaleSenses(cfg: Config, s: Core, snap: Snapshot, c: nat)
    requires Sized(cfg, s) && CurvesAscending(s) && c < |cfg.contexts|
    ensures SensedBy(cfg, s, snap, StaleOf(c)) ==
      StaleSensed(cfg.stale, ContextStep(s.contexts[c], cfg.contexts[c], snap), cfg.contexts[c], snap.now)
  {
  }
}
