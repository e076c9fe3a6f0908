/** The telemetry ring, its drain loop and its drop report (platform/ch32v003/ch32_callbacks.c:51-148). */
module TelemetryRing {
  import opened CInt
  import opened Ring

  const RING_SIZE: nat := 16
  const DROPS_MAX: u32 := 0xFFFF_FFFF

  datatype Record = Record(tsMs: u32, id: u16, isEvent: bool, arg0: i32, arg1: u32, arg2: u32, arg3: u32)

  /** A drop report: when the last drop was, and how many there have been, capped to a signed value. */
  datatype Report = Report(tsMs: u32, count: i32)

  /** The ring, its saturating drop counter, and what the drain has written out. */
  datatype State = State(ring: Ring<Record>, drops: u32, lastDropMs: u32, drained: seq<Record>,
                         reported: u32, reports: seq<Report>)

  datatype Op = Emit(record: Record) | Drain

  function Apply(s: State, op: Op): State
    requires s.ring.Valid()
  {
    match op
    case Emit(rec) =>
      if Full(s.ring) then s.(drops := if s.drops < DROPS_MAX then s.drops + 1 else s.drops, lastDropMs := rec.tsMs)
      else s.(ring := Push(s.ring, rec))
    case Drain =>
      var t := s.(ring := s.ring.(tail := s.ring.head), drained := s.drained + Pending(s.ring));
      if s.drops != s.reported then t.(reported := s.drops, reports := s.reports + [DropReport(s)]) else t
  }

  function DropCount(drops: u32): i32 { if drops > I32_MAX then I32_MAX else drops }

  function DropReport(s: State): Report { Report(s.lastDropMs, DropCount(s.drops)) }

  ghost function Run(slots: seq<Record>, ops: seq<Op>): (s: State)
    requires |slots| == RING_SIZE
    ensures s.ring.Valid() && |s.ring.slots| == RING_SIZE
  {
    if |ops| == 0 then State(Ring(slots, 0, 0), 0, 0, [], 0, [])
    else
      var before := Run(slots, ops[..|ops| - 1]);
      NextWraps(before.ring.head, RING_SIZE);
      Apply(before, ops[|ops| - 1])
  }

  ghost function Emitted(ops: seq<Op>): seq<Record> {
    if |ops| == 0 then []
    else
      var e := Emitted(ops[..|ops| - 1]);
      if ops[|ops| - 1].Emit? then e + [ops[|ops| - 1].record] else e
  }

  /** a can be obtained from b by deleting elements. */
  ghost predicate Subsequence(a: seq<Record>, b: seq<Record>) {
    if |a| == 0 then true
    else if |b| == 0 then false
    else if a[|a| - 1] == b[|b| - 1] && Subsequence(a[..|a| - 1], b[..|b| - 1]) then true
    else Subsequence(a, b[..|b| - 1])
  }

  ghost function Kept(s: State): seq<Record>
    requires s.ring.Valid()
  {
    s.drained + Pending(s.ring)
  }

  lemma SubsequenceSnoc(a: seq<Record>, b: seq<Record>, x: Record)
    requires Subsequence(a, b)
    ensures Subsequence(a + [x], b + [x]) && Subsequence(a, b + [x])
  {
    assert (a + [x])[..|a|] == a && (b + [x])[..|b|] == b;
  }

  lemma StepKeeps(s: State, op: Op)
    requires s.ring.Valid()
    ensures var t := Apply(s, op);
            t.ring.Valid() &&
            Kept(t) == if op.Emit? && !Full(s.ring) then Kept(s) + [op.record] else Kept(s)
  {
    match op
    case Emit(rec) =>
      if !Full(s.ring) {
        PushAppends(s.ring, rec);
        assert s.drained + (Pending(s.ring) + [rec]) == (s.drained + Pending(s.ring)) + [rec];
      }
    case Drain =>
      var t := Apply(s, op);
      assert Pending(t.ring) == [];
  }

  ghost predicate Conserved(s: State, emitted: seq<Record>) {
    s.ring.Valid() && Subsequence(Kept(s), emitted) && |Kept(s)| <= |emitted| &&
    s.drops == Min(|emitted| - |Kept(s)|, DROPS_MAX)
  }

  lemma StepConserves(s: State, op: Op, emitted: seq<Record>)
    requires Conserved(s, emitted)
    ensures Conserved(Apply(s, op), if op.Emit? then emitted + [op.record] else emitted)
  {
    StepKeeps(s, op);
    if op.Emit? { SubsequenceSnoc(Kept(s), emitted, op.record); }
  }

  /** Every emitted record is drained, pending or counted as dropped, until the counter saturates;
      and drained plus pending records keep the order of emission. */
  lemma {:induction false} RecordsConserved(slots: seq<Record>, ops: seq<Op>)
    requires |slots| == RING_SIZE
    ensures Conserved(Run(slots, ops), Emitted(ops))
  {
    if |ops| > 0 {
      var k := |ops| - 1;
      RecordsConserved(slots, ops[..k]);
      StepConserves(Run(slots, ops[..k]), ops[k], Emitted(ops[..k]));
    }
  }

  /** Reports are current: the last one carries the reported count, none is ahead of the drops, and there is
      one exactly when some drop has been reported. */
  ghost predicate ReportsCurrent(s: State) {
    s.reported <= s.drops && (s.reports == [] <==> s.reported == 0) &&
    (s.reports != [] ==> s.reports[|s.reports| - 1].count == DropCount(s.reported))
  }

  /** In any run the drop reports are current, and a drain leaves no drop unreported; a drain with nothing new
      to report writes no report. */
  lemma {:induction false} DropsReported(slots: seq<Record>, ops: seq<Op>)
    requires |slots| == RING_SIZE
    ensures ReportsCurrent(Run(slots, ops))
    ensures |ops| > 0 && ops[|ops| - 1].Drain? ==>
      var (s, t) := (Run(slots, ops[..|ops| - 1]), Run(slots, ops));
      t.reported == t.drops && (|t.reports| == |s.reports| <==> s.reported == s.drops)
  {
    if |ops| > 0 { DropsReported(slots, ops[..|ops| - 1]); }
  }

  /** A drop is stamped with the time of the dropped record, and the report of new drops carries the time of the
      last one. */
  lemma DropTimed(s: State, rec: Record)
    requires s.ring.Valid()
    ensures Full(s.ring) ==> Apply(s, Emit(rec)).lastDropMs == rec.tsMs
    ensures !Full(s.ring) ==> Apply(s, Emit(rec)).lastDropMs == s.lastDropMs
    ensures s.drops != s.reported ==>
      Apply(s, Drain).reports == s.reports + [Report(s.lastDropMs, if s.drops > I32_MAX then I32_MAX else s.drops)]
  {
  }

  lemma MoveOne(done: seq<Record>, rec: Record, left: seq<Record>)
    ensures done + ([rec] + left) == (done + [rec]) + left
  {
  }

  lemma BurstPrefix(ops: seq<Op>, burst: seq<Op>)
    requires |burst| > 0
    ensures var all := ops + [Drain] + burst;
            all[..|all| - 1] == ops + [Drain] + burst[..|burst| - 1] && all[|all| - 1] == burst[|burst| - 1]
  {
  }

  /** A burst of up to 15 records after a drain loses nothing. */
  lemma {:induction false} BurstFits(slots: seq<Record>, ops: seq<Op>, burst: seq<Op>)
    requires |slots| == RING_SIZE
    requires |burst| < RING_SIZE && forall k :: 0 <= k < |burst| ==> burst[k].Emit?
    ensures var s := Run(slots, ops + [Drain] + burst);
            s.drops == Run(slots, ops).drops && |Pending(s.ring)| == |burst| &&
            Emitted(ops + [Drain] + burst) == Emitted(ops) + Emitted(burst)
  {
    var all := ops + [Drain] + burst;
    if |burst| == 0 {
      assert all[..|all| - 1] == ops && all[|all| - 1] == Drain;
    } else {
      var k := |burst| - 1;
      BurstPrefix(ops, burst);
      BurstFits(slots, ops, burst[..k]);
      var s := Run(slots, ops + [Drain] + burst[..k]);
      FullMeansAllButOne(s.ring);
      PushAppends(s.ring, burst[k].record);
    }
  }

  class Telemetry {
    const slots: array<Record>
    var head: nat
    var tail: nat
    var drops: u32
    var lastDropMs: u32
    var reported: u32
    ghost var drained: seq<Record>
    ghost var reports: seq<Report>

    ghost predicate Valid() reads this, slots {
      slots.Length == RING_SIZE && head < RING_SIZE && tail < RING_SIZE
    }

    ghost function View(): State
      reads this, slots
    {
      State(Ring(slots[..], head, tail), drops, lastDropMs, drained, reported, reports)
    }

    constructor ()
      ensures Valid() && Pending(View().ring) == [] && drops == reported == 0 && drained == [] && reports == [] &&
        fresh(slots)
    {
      slots := new Record[RING_SIZE](_ => Record(0, 0, false, 0, 0, 0, 0));
      head, tail, drops, lastDropMs, drained := 0, 0, 0, 0, [];
      reported, reports := 0, [];
    }

    /** ring_push: drop and count when full. */
    method Push(rec: Record)
      requires Valid()
      modifies this`head, this`drops, this`lastDropMs, slots
      ensures Valid() && View() == Apply(old(View()), Emit(rec))
    {
      var next := Next(head, RING_SIZE);
      if next == tail {
        if drops < DROPS_MAX { drops := drops + 1; }
        lastDropMs := rec.tsMs;
        return;
      }
      slots[head] := rec;
      head := next;
    }

    /** Takes the oldest record out. */
    method TakeOldest() returns (rec: Record)
      requires Valid() && tail != head
      modifies this`tail
      ensures Valid() && Pending(old(View().ring)) == [rec] + Pending(View().ring)
    {
      PopTakesOldest(View().ring);
      rec := slots[tail];
      tail := Next(tail, RING_SIZE);
    }

    /** The drain loop: write out each pending record, oldest first, until the ring is empty. */
    method WriteAll() returns (out: seq<Record>)
      requires Valid()
      modifies this`tail, this`drained
      ensures Valid() && out == Pending(old(View()).ring) && tail == head
      ensures drained == old(drained) + out
    {
      out := [];
      ghost var start := Pending(View().ring);
      while tail != head
        invariant Valid()
        invariant drained == old(drained)
        invariant out + Pending(View().ring) == start
        decreases |Pending(View().ring)|
      {
        var rec := TakeOldest();
        MoveOne(out, rec, Pending(View().ring));
        out := out + [rec];
      }
      assert Pending(View().ring) == [] && out == start;
      drained := drained + out;
    }

    /** The whole drain: the records, then a report of the drop count when it has changed since the last one. */
    method DrainAll() returns (out: seq<Record>, report: seq<Report>)
      requires Valid()
      modifies this`tail, this`drained, this`reported, this`reports
      ensures Valid() && View() == Apply(old(View()), Drain)
      ensures out == Pending(old(View()).ring)
      ensures report == if old(drops) != old(reported) then [DropReport(old(View()))] else []
    {
      out := WriteAll();
      report := [];
      if drops != reported {
        report := [Report(lastDropMs, if drops > I32_MAX then I32_MAX else drops)];
        reports := reports + report;
        reported := drops;
      }
    }
  }
}
