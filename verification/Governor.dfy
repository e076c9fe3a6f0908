/** The step-wise governor and the trip tables it trusts (core/thermal_governor.c,
    core/thermal_core.c:488-535, 943-956). */
module Governor {
  import opened CInt

  const TRIP_WARN: u8 := 1
  const TRIP_CRITICAL: u8 := 2
  const TRIP_SHUTDOWN: u8 := 3

  datatype Trip = Trip(tempMc: i32, hystMc: i32, severity: u8, cooling: u8)

  /** Sorted, and no hysteresis band reaches below the previous trip. */
  predicate Ordered(trips: seq<Trip>) {
    forall i :: 1 <= i < |trips| ==>
      trips[i - 1].tempMc < trips[i].tempMc && trips[i - 1].tempMc <= trips[i].tempMc - trips[i].hystMc
  }

  /** The same table moved by an offset: every temperature still fits an int32, and the table is ordered. */
  predicate ValidAt(trips: seq<Trip>, offset: int) {
    forall i :: 0 <= i < |trips| ==>
      FitsI32(trips[i].tempMc + offset) &&
      (i > 0 ==>
        trips[i - 1].tempMc + offset < trips[i].tempMc + offset &&
        trips[i - 1].tempMc + offset <= trips[i].tempMc + offset - trips[i].hystMc)
  }

  method AdjustedTripsValid(trips: seq<Trip>, offset: i32) returns (ok: bool)
    ensures ok <==> ValidAt(trips, offset)
  {
    var prev := 0;
    for i := 0 to |trips|
      invariant i > 0 ==> prev == trips[i - 1].tempMc + offset
      invariant ValidAt(trips[..i], offset)
    {
      var curr := trips[i].tempMc + offset;
      if curr < I32_MIN || curr > I32_MAX { return false; }
      if i > 0 && (curr <= prev || curr - trips[i].hystMc < prev) { return false; }
      prev := curr;
    }
    assert trips[..|trips|] == trips;
    return true;
  }

  function Shifted(trips: seq<Trip>, offset: int): (r: seq<Trip>)
    requires ValidAt(trips, offset)
    ensures |r| == |trips|
    ensures forall i :: 0 <= i < |r| ==> r[i] == trips[i].(tempMc := trips[i].tempMc + offset)
    ensures Ordered(r)
  {
    seq(|trips|, i requires 0 <= i < |trips| && ValidAt(trips, offset) =>
      trips[i].(tempMc := trips[i].tempMc + offset))
  }

  /** Checking the two ends of an interval of offsets covers every offset between them. */
  lemma ValidBetween(trips: seq<Trip>, lo: int, hi: int, offset: int)
    requires ValidAt(trips, lo) && ValidAt(trips, hi) && lo <= offset <= hi
    ensures ValidAt(trips, offset)
  {
    forall i | 0 <= i < |trips|
      ensures FitsI32(trips[i].tempMc + offset)
      ensures i > 0 ==> trips[i - 1].tempMc + offset < trips[i].tempMc + offset
      ensures i > 0 ==> trips[i - 1].tempMc + offset <= trips[i].tempMc + offset - trips[i].hystMc
    {
      assert FitsI32(trips[i].tempMc + lo) && FitsI32(trips[i].tempMc + hi);
      if i > 0 { assert trips[i - 1].tempMc + lo < trips[i].tempMc + lo; }
    }
  }

  lemma OrderedPair(trips: seq<Trip>, i: nat, j: nat)
    requires Ordered(trips) && i < j < |trips|
    ensures trips[i].tempMc < trips[j].tempMc
    ensures trips[i].tempMc <= trips[j].tempMc - trips[j].hystMc
  {
    if i + 1 < j { OrderedPair(trips, i, j - 1); }
  }

  // ----- Schmitt-trigger evaluation

  /** One trip: on at its temperature, off below its cold edge, held in the dead band. */
  predicate TripActive(t: Trip, tempMc: int, prev: bool) {
    tempMc >= t.tempMc || (!(tempMc < t.tempMc - t.hystMc) && prev)
  }

  /** The active-trip mask, as the set of its bit positions. */
  function ActiveMask(trips: seq<Trip>, tempMc: int, prev: set<nat>): set<nat> {
    set i: nat | i < |trips| && TripActive(trips[i], tempMc, i in prev)
  }

  /** Highest cooling state over a selection of the first n trips; 0 when none is selected. */
  function MaxCooling(trips: seq<Trip>, selection: set<nat>, n: nat): (r: u8)
    requires n <= |trips|
    ensures forall i :: 0 <= i < n && i in selection ==> trips[i].cooling <= r
    ensures r == 0 || exists i :: 0 <= i < n && i in selection && trips[i].cooling == r
  {
    if n == 0 then 0
    else
      var r := MaxCooling(trips, selection, n - 1);
      if n - 1 in selection && trips[n - 1].cooling > r then trips[n - 1].cooling else r
  }

  method StepWise(tempMc: i32, trips: seq<Trip>, prev: set<nat>) returns (mask: set<nat>, cooling: u8)
    ensures mask == ActiveMask(trips, tempMc, prev)
    ensures cooling == MaxCooling(trips, mask, |trips|)
  {
    mask, cooling := {}, 0;
    for i := 0 to |trips|
      invariant mask == ActiveMask(trips[..i], tempMc, prev)
      invariant cooling == MaxCooling(trips, mask, i)
    {
      var t := trips[i];
      var active;
      if tempMc >= t.tempMc {
        active := true;
      } else if tempMc < t.tempMc - t.hystMc {
        active := false;
      } else {
        active := i in prev;
      }
      CoolingNext(trips, tempMc, prev, i);
      if active {
        mask := mask + {i};
        if t.cooling > cooling { cooling := t.cooling; }
      }
    }
    assert trips[..|trips|] == trips;
  }

  lemma MaskNext(trips: seq<Trip>, tempMc: int, prev: set<nat>, i: nat)
    requires i < |trips|
    ensures ActiveMask(trips[..i + 1], tempMc, prev) ==
      ActiveMask(trips[..i], tempMc, prev) + if TripActive(trips[i], tempMc, i in prev) then {i} else {}
  {
  }

  lemma CoolingNext(trips: seq<Trip>, tempMc: int, prev: set<nat>, i: nat)
    requires i < |trips|
    ensures var (t, mask, next) := (trips[i], ActiveMask(trips[..i], tempMc, prev),
                                    ActiveMask(trips[..i + 1], tempMc, prev));
            next == (if TripActive(t, tempMc, i in prev) then mask + {i} else mask) &&
            MaxCooling(trips, next, i + 1) ==
              if TripActive(t, tempMc, i in prev) then Max(MaxCooling(trips, mask, i), t.cooling)
              else MaxCooling(trips, mask, i)
  {
    var mask := ActiveMask(trips[..i], tempMc, prev);
    MaskNext(trips, tempMc, prev, i);
    MaxCoolingLocal(trips, mask, mask + {i}, i);
  }

  lemma MaxCoolingLocal(trips: seq<Trip>, a: set<nat>, b: set<nat>, n: nat)
    requires n <= |trips|
    requires forall i :: 0 <= i < n ==> (i in a <==> i in b)
    ensures MaxCooling(trips, a, n) == MaxCooling(trips, b, n)
  {
  }

  /** Highest severity among the active trips; 0 when none is active. */
  function MaxSeverity(trips: seq<Trip>, mask: set<nat>, n: nat): (r: u8)
    requires n <= |trips|
    ensures forall i :: 0 <= i < n && i in mask ==> trips[i].severity <= r
    ensures r == 0 || exists i :: 0 <= i < n && i in mask && trips[i].severity == r
  {
    if n == 0 then 0
    else
      var r := MaxSeverity(trips, mask, n - 1);
      if n - 1 in mask && trips[n - 1].severity > r then trips[n - 1].severity else r
  }

  // ----- Structure of the mask

  ghost predicate IsPrefix(mask: set<nat>) {
    forall i: nat, j: nat :: i <= j && j in mask ==> i in mask
  }

  /** On an ordered table the active trips form a contiguous prefix, whatever was active before. */
  lemma MaskIsPrefix(trips: seq<Trip>, tempMc: int, prev: set<nat>)
    requires Ordered(trips)
    ensures IsPrefix(ActiveMask(trips, tempMc, prev))
  {
    var mask := ActiveMask(trips, tempMc, prev);
    forall i: nat, j: nat | i <= j && j in mask ensures i in mask {
      if i < j { OrderedPair(trips, i, j); }
    }
  }

  /** History decides trip i: it is on under some previous mask and off under another. */
  ghost predicate HistoryDecides(trips: seq<Trip>, tempMc: int, i: nat) {
    i < |trips| && TripActive(trips[i], tempMc, true) && !TripActive(trips[i], tempMc, false)
  }

  lemma OneTripDependsOnHistory(trips: seq<Trip>, tempMc: int, i: nat, j: nat)
    requires Ordered(trips) && HistoryDecides(trips, tempMc, i) && HistoryDecides(trips, tempMc, j)
    ensures i == j
  {
    if i < j { OrderedPair(trips, i, j); }
    if j < i { OrderedPair(trips, j, i); }
  }

  /** Hotter input and a larger previous mask give a larger mask and no lower cooling state. */
  lemma StepMonotone(trips: seq<Trip>, cool: int, hot: int, small: set<nat>, large: set<nat>)
    requires cool <= hot && small <= large
    ensures ActiveMask(trips, cool, small) <= ActiveMask(trips, hot, large)
    ensures MaxCooling(trips, ActiveMask(trips, cool, small), |trips|)
         <= MaxCooling(trips, ActiveMask(trips, hot, large), |trips|)
  {
    var a, b := ActiveMask(trips, cool, small), ActiveMask(trips, hot, large);
    assert a <= b;
  }

  /** The mask after a run: one (trip table, temperature) pair per tick. */
  ghost function MaskRun(run: seq<(seq<Trip>, int)>): set<nat> {
    if |run| == 0 then {}
    else
      var k := |run| - 1;
      ActiveMask(run[k].0, run[k].1, MaskRun(run[..k]))
  }

  /** Tick k of a run is at or above trip i of that tick's table. */
  ghost predicate Fires(run: seq<(seq<Trip>, int)>, i: nat, k: nat)
    requires k < |run| && i < |run[k].0|
  {
    run[k].1 >= run[k].0[i].tempMc
  }

  /** Tick k is below trip i and below its cold edge. */
  ghost predicate Releases(run: seq<(seq<Trip>, int)>, i: nat, k: nat)
    requires k < |run| && i < |run[k].0|
  {
    run[k].1 < run[k].0[i].tempMc && run[k].1 < run[k].0[i].tempMc - run[k].0[i].hystMc
  }

  ghost predicate FiredSince(run: seq<(seq<Trip>, int)>, i: nat, k: nat)
    requires k < |run| && forall j :: 0 <= j < |run| ==> i < |run[j].0|
  {
    Fires(run, i, k) && forall j :: k < j < |run| ==> !Releases(run, i, j)
  }

  /** The Schmitt law over whole runs: a trip is active exactly when some tick reached its temperature and no
      later tick was below both its temperature and its cold edge. */
  lemma {:induction false} SchmittLaw(run: seq<(seq<Trip>, int)>, i: nat)
    requires forall k :: 0 <= k < |run| ==> i < |run[k].0|
    ensures i in MaskRun(run) <==> exists k :: 0 <= k < |run| && FiredSince(run, i, k)
  {
    if |run| > 0 {
      var last := |run| - 1;
      var before := run[..last];
      SchmittLaw(before, i);
      forall k | 0 <= k < last ensures FiredSince(run, i, k) <==> FiredSince(before, i, k) && !Releases(run, i, last) {
        assert Fires(run, i, k) == Fires(before, i, k);
        assert forall j :: k < j < last ==> Releases(run, i, j) == Releases(before, i, j);
      }
      assert FiredSince(run, i, last) == Fires(run, i, last);
    }
  }

  /** Whole runs: with the same trip tables tick by tick, a pointwise hotter trace dominates. */
  lemma {:induction false} HotterRunDominates(a: seq<(seq<Trip>, int)>, b: seq<(seq<Trip>, int)>)
    requires |a| == |b|
    requires forall k :: 0 <= k < |a| ==> a[k].0 == b[k].0 && a[k].1 <= b[k].1
    ensures MaskRun(a) <= MaskRun(b)
    ensures |a| > 0 ==>
      var trips := a[|a| - 1].0;
      MaxCooling(trips, MaskRun(a), |trips|) <= MaxCooling(trips, MaskRun(b), |trips|)
  {
    if |a| > 0 {
      var k := |a| - 1;
      HotterRunDominates(a[..k], b[..k]);
      StepMonotone(a[k].0, a[k].1, b[k].1, MaskRun(a[..k]), MaskRun(b[..k]));
    }
  }

  // ----- Fallback floor

  /** The temperatures the fallback has to reach: CRITICAL trips if there are any, else all trips. */
  predicate MustReach(trips: seq<Trip>, i: nat)
    requires i < |trips|
  {
    trips[i].severity == TRIP_CRITICAL ||
    forall j :: 0 <= j < |trips| ==> trips[j].severity != TRIP_CRITICAL
  }

  predicate FallbackReaches(fallbackMc: int, trips: seq<Trip>) {
    forall i :: 0 <= i < |trips| && MustReach(trips, i) ==> trips[i].tempMc <= fallbackMc
  }

  method FallbackReachesSafetyFloor(fallbackMc: i32, trips: seq<Trip>) returns (ok: bool)
    ensures ok <==> FallbackReaches(fallbackMc, trips)
  {
    var haveCritical, haveAny, highestCritical, highestTrip := false, false, 0, 0;
    for i := 0 to |trips|
      invariant haveAny <==> i > 0
      invariant haveAny ==> exists j :: 0 <= j < i && trips[j].tempMc == highestTrip
      invariant forall j :: 0 <= j < i ==> trips[j].tempMc <= highestTrip
      invariant haveCritical <==> exists j :: 0 <= j < i && trips[j].severity == TRIP_CRITICAL
      invariant haveCritical ==>
        exists j :: 0 <= j < i && trips[j].severity == TRIP_CRITICAL && trips[j].tempMc == highestCritical
      invariant forall j :: 0 <= j < i && trips[j].severity == TRIP_CRITICAL ==> trips[j].tempMc <= highestCritical
    {
      var t := trips[i];
      if !haveAny || t.tempMc > highestTrip {
        highestTrip, haveAny := t.tempMc, true;
      }
      if t.severity == TRIP_CRITICAL {
        if !haveCritical || t.tempMc > highestCritical { highestCritical := t.tempMc; }
        haveCritical := true;
      }
    }
    if haveCritical { return fallbackMc >= highestCritical; }
    return !haveAny || fallbackMc >= highestTrip;
  }

  /** The fallback temperature reaches some CRITICAL or SHUTDOWN trip moved by the offset. */
  predicate ReachesSafety(fallbackMc: int, trips: seq<Trip>, offset: int) {
    exists k :: 0 <= k < |trips| && trips[k].severity >= TRIP_CRITICAL && trips[k].tempMc + offset <= fallbackMc
  }

  /** Whatever was active before, a zone sitting at its fallback temperature is at least CRITICAL. */
  ghost predicate AlwaysCritical(fallbackMc: int, trips: seq<Trip>, offset: int)
    requires ValidAt(trips, offset)
  {
    forall prev: set<nat> ::
      MaxSeverity(trips, ActiveMask(Shifted(trips, offset), fallbackMc, prev), |trips|) >= TRIP_CRITICAL
  }

  /** One mask under which no safety trip was active decides it. */
  lemma FirstTickDecides(fallbackMc: int, trips: seq<Trip>, offset: int, prev: set<nat>)
    requires ValidAt(trips, offset)
    requires forall k :: k in prev && k < |trips| ==> trips[k].severity < TRIP_CRITICAL
    ensures MaxSeverity(trips, ActiveMask(Shifted(trips, offset), fallbackMc, prev), |trips|) >= TRIP_CRITICAL
      <==> ReachesSafety(fallbackMc, trips, offset)
  {
    if ReachesSafety(fallbackMc, trips, offset) { ReachedIsCritical(fallbackMc, trips, offset, prev); }
  }

  lemma ReachedIsCritical(fallbackMc: int, trips: seq<Trip>, offset: int, prev: set<nat>)
    requires ValidAt(trips, offset) && ReachesSafety(fallbackMc, trips, offset)
    ensures MaxSeverity(trips, ActiveMask(Shifted(trips, offset), fallbackMc, prev), |trips|) >= TRIP_CRITICAL
  {
    var k :| 0 <= k < |trips| && trips[k].severity >= TRIP_CRITICAL && trips[k].tempMc + offset <= fallbackMc;
    assert k in ActiveMask(Shifted(trips, offset), fallbackMc, prev);
  }

  /** The fallback floor holds at an offset exactly when the fallback reaches a shifted safety trip. */
  lemma FallbackCriticalIff(fallbackMc: int, trips: seq<Trip>, offset: int)
    requires ValidAt(trips, offset)
    ensures AlwaysCritical(fallbackMc, trips, offset) <==> ReachesSafety(fallbackMc, trips, offset)
  {
    FirstTickDecides(fallbackMc, trips, offset, {});
    if ReachesSafety(fallbackMc, trips, offset) {
      forall prev: set<nat>
        ensures MaxSeverity(trips, ActiveMask(Shifted(trips, offset), fallbackMc, prev), |trips|) >= TRIP_CRITICAL
      {
        ReachedIsCritical(fallbackMc, trips, offset, prev);
      }
    }
  }

  /** Validation looks at the unshifted table only: that is enough for every offset <= 0. */
  lemma UnraisedReaches(fallbackMc: int, trips: seq<Trip>, offset: int, k: nat)
    requires FallbackReaches(fallbackMc, trips) && offset <= 0
    requires k < |trips| && trips[k].severity >= TRIP_CRITICAL
    ensures ReachesSafety(fallbackMc, trips, offset)
  {
    var i := k;
    if !MustReach(trips, k) {
      i :| 0 <= i < |trips| && trips[i].severity == TRIP_CRITICAL;
    }
    assert MustReach(trips, i);
  }

  /** So at an offset <= 0 a zone sitting at its fallback temperature is at least CRITICAL, if it has any
      CRITICAL or SHUTDOWN trip at all. */
  lemma FallbackIsCritical(fallbackMc: int, trips: seq<Trip>, offset: int, prev: set<nat>, k: nat)
    requires FallbackReaches(fallbackMc, trips)
    requires k < |trips| && trips[k].severity >= TRIP_CRITICAL
    requires offset <= 0 && ValidAt(trips, offset)
    ensures MaxSeverity(trips, ActiveMask(Shifted(trips, offset), fallbackMc, prev), |trips|) >= TRIP_CRITICAL
  {
    UnraisedReaches(fallbackMc, trips, offset, k);
    ReachedIsCritical(fallbackMc, trips, offset, prev);
  }
}
