/** What the stall and stuck-sensor detectors sense, as tests on their histories (core/thermal_fault.c:101-144,
    164-245). */
module DetectorLaws {
  import opened CInt
  import opened Fault
  import opened Detectors

  // ----- Stall: the duties of the ticks so far

  ghost function StallRun(duties: seq<u8>, spin: u16): Stall {
    if |duties| == 0 then STALL_RESET
    else StallStep(StallRun(duties[..|duties| - 1], spin), duties[|duties| - 1], spin)
  }

  /** Tick k drives the fan from a standstill. */
  ghost predicate Rises(duties: seq<u8>, k: nat)
    requires k < |duties|
  {
    duties[k] != 0 && (k == 0 || duties[k - 1] == 0)
  }

  /** Tick n (the last one, or one still to come) lies within the spin-up grace of an earlier rise. */
  ghost predicate GraceAt(duties: seq<u8>, spin: nat, n: nat) {
    exists k :: 0 <= k < |duties| && Rises(duties, k) && n - k < spin
  }

  lemma GraceGrows(duties: seq<u8>, duty: u8, spin: nat, n: nat)
    requires n >= |duties|
    ensures var all := duties + [duty];
            GraceAt(all, spin, n) <==> GraceAt(duties, spin, n) || (Rises(all, |duties|) && n - |duties| < spin)
  {
    var all := duties + [duty];
    forall k | 0 <= k < |duties| ensures Rises(all, k) == Rises(duties, k) { }
  }

  /** The countdown left after the ticks so far reaches m ticks ahead exactly when the grace does. */
  lemma {:induction false} CountdownIsGrace(duties: seq<u8>, spin: u16, m: nat)
    ensures var s := StallRun(duties, spin);
            (s.prevPwmZero <==> |duties| == 0 || duties[|duties| - 1] == 0) &&
            (m < s.spinupRemaining <==> GraceAt(duties, spin, |duties| + m))
  {
    if |duties| > 0 {
      var k := |duties| - 1;
      var before := duties[..k];
      CountdownIsGrace(before, spin, m + 1);
      CountdownIsGrace(before, spin, 0);
      GraceGrows(before, duties[k], spin, |duties| + m);
      assert before + [duties[k]] == duties;
      EarlierGrace(before, spin, |duties| + m);
    }
  }

  /** After a rise the grace of earlier ones ends no later. */
  lemma EarlierGrace(duties: seq<u8>, spin: nat, n: nat)
    ensures GraceAt(duties, spin, n) ==> n - |duties| + 1 <= spin
  {
  }

  /** The condition: a valid tach below the stall speed while driven at or above the threshold, and no rise from a
      standstill within the last spin-up ticks, this one included. */
  lemma StallLaw(fc: DetectorCfg, duties: seq<u8>, duty: u8, rpm: u16, tachValid: bool, spin: u16)
    ensures StallCondition(StallRun(duties, spin), fc, duty, rpm, tachValid, spin) <==>
      tachValid && duty >= fc.threshold1 % 0x100 && rpm < fc.threshold0 % 0x1_0000 &&
      !GraceAt(duties + [duty], spin, |duties|)
  {
    CountdownIsGrace(duties, spin, 0);
    GraceGrows(duties, duty, spin, |duties|);
    EarlierGrace(duties, spin, |duties|);
  }

  // ----- Stuck sensor: the readings of the open window

  /** The valid readings since the window opened; a window of w readings closes and leaves only the newest. */
  ghost function Open(readings: seq<Reading>, w: nat): seq<Reading> {
    if |readings| == 0 then []
    else
      var r := readings[|readings| - 1];
      var all := Taken(Open(readings[..|readings| - 1], w), r);
      if |all| >= w then Taken([], r) else all
  }

  ghost function Taken(open: seq<Reading>, r: Reading): seq<Reading> { if r.valid then open + [r] else open }

  /** The extremes of the values of a window. */
  ghost predicate ValuesSpan(open: seq<Reading>, lo: int, hi: int) {
    (forall i :: 0 <= i < |open| ==> lo <= open[i].value <= hi) &&
    (exists i :: 0 <= i < |open| && open[i].value == lo) && (exists i :: 0 <= i < |open| && open[i].value == hi)
  }

  ghost predicate ContextsSpan(open: seq<Reading>, lo: int, hi: int) {
    (forall i :: 0 <= i < |open| && open[i].contextValid ==> lo <= open[i].contextValue <= hi) &&
    (exists i :: 0 <= i < |open| && open[i].contextValid && open[i].contextValue == lo) &&
    (exists i :: 0 <= i < |open| && open[i].contextValid && open[i].contextValue == hi)
  }

  ghost predicate SomeContext(open: seq<Reading>) { exists i :: 0 <= i < |open| && open[i].contextValid }

  /** The tracker of the detector holds the window. */
  ghost predicate Tracks(v: Stuck, fc: DetectorCfg, open: seq<Reading>) {
    v.ticks == |open| && (|open| > 0 ==> ValuesSpan(open, v.valueMin, v.valueMax)) &&
    (Correlated(fc) && |open| > 0 ==>
      (v.contextTicks > 0 <==> SomeContext(open)) &&
      (v.contextTicks > 0 ==> ContextsSpan(open, v.contextMin, v.contextMax)))
  }

  lemma ValuesGrow(open: seq<Reading>, lo: int, hi: int, r: Reading)
    requires |open| > 0 && ValuesSpan(open, lo, hi)
    ensures ValuesSpan(open + [r], Min(lo, r.value), Max(hi, r.value))
  {
    var all := open + [r];
    var i :| 0 <= i < |open| && open[i].value == lo;
    var j :| 0 <= j < |open| && open[j].value == hi;
    assert all[i].value == lo && all[j].value == hi && all[|open|].value == r.value;
  }

  lemma ContextsGrow(open: seq<Reading>, lo: int, hi: int, r: Reading)
    requires ContextsSpan(open, lo, hi) && r.contextValid
    ensures ContextsSpan(open + [r], Min(lo, r.contextValue), Max(hi, r.contextValue))
  {
    var all := open + [r];
    var i :| 0 <= i < |open| && open[i].contextValid && open[i].contextValue == lo;
    var j :| 0 <= j < |open| && open[j].contextValid && open[j].contextValue == hi;
    assert all[i] == open[i] && all[j] == open[j] && all[|open|] == r;
  }

  lemma ContextsStay(open: seq<Reading>, lo: int, hi: int, r: Reading)
    requires ContextsSpan(open, lo, hi) && !r.contextValid
    ensures ContextsSpan(open + [r], lo, hi)
  {
    var all := open + [r];
    var i :| 0 <= i < |open| && open[i].contextValid && open[i].contextValue == lo;
    var j :| 0 <= j < |open| && open[j].contextValid && open[j].contextValue == hi;
    assert all[i] == open[i] && all[j] == open[j];
  }

  lemma SomeGrows(open: seq<Reading>, r: Reading)
    ensures SomeContext(open + [r]) <==> SomeContext(open) || r.contextValid
  {
    var all := open + [r];
    if i :| 0 <= i < |open| && open[i].contextValid { assert all[i].contextValid; }
    if r.contextValid { assert all[|open|].contextValid; }
  }

  lemma AccumulateTracks(v: Stuck, fc: DetectorCfg, open: seq<Reading>, r: Reading)
    requires Tracks(v, fc, open) && |open| < 0xFFFF
    ensures Tracks(StuckAccumulate(v, fc, r), fc, Taken(open, r))
  {
    if r.valid {
      SomeGrows(open, r);
      if |open| > 0 {
        ValuesGrow(open, v.valueMin, v.valueMax, r);
        if Correlated(fc) && SomeContext(open) {
          if r.contextValid {
            ContextsGrow(open, v.contextMin, v.contextMax, r);
          } else {
            ContextsStay(open, v.contextMin, v.contextMax, r);
          }
        } else if r.contextValid {
          Alone(open, r);
        }
      } else {
        Alone(open, r);
      }
    }
  }

  /** The only context of a window spans it. */
  lemma Alone(open: seq<Reading>, r: Reading)
    ensures |open| == 0 ==> ValuesSpan(open + [r], r.value, r.value)
    ensures !SomeContext(open) && r.contextValid ==> ContextsSpan(open + [r], r.contextValue, r.contextValue)
  {
    assert (open + [r])[|open|] == r;
  }

  lemma StepTracks(v: Stuck, fc: DetectorCfg, open: seq<Reading>, r: Reading)
    requires Tracks(v, fc, open) && |open| <= Max(WindowTicks(fc) - 1, 1) && WindowTicks(fc) > 0
    ensures var all := Taken(open, r);
            var next := if |all| >= WindowTicks(fc) then Taken([], r) else all;
            Tracks(StuckStep(v, fc, r), fc, next) && |next| <= Max(WindowTicks(fc) - 1, 1)
  {
    AccumulateTracks(v, fc, open, r);
    Alone([], r);
    assert [] + [r] == [r];
    SomeGrows([], r);
  }

  lemma {:induction false} WindowIsOpen(fc: DetectorCfg, readings: seq<Reading>, now: u32)
    requires WindowTicks(fc) > 0
    ensures var open := Open(readings, WindowTicks(fc));
            Tracks(StuckRun(fc, readings, now).1, fc, open) && |open| <= Max(WindowTicks(fc) - 1, 1)
  {
    if |readings| > 0 {
      var k := |readings| - 1;
      WindowIsOpen(fc, readings[..k], now);
      StepTracks(StuckRun(fc, readings[..k], now).1, fc, Open(readings[..k], WindowTicks(fc)), readings[k]);
    }
  }

  /** All values of the window lie within less than the flatness threshold of each other. */
  ghost predicate IsFlat(all: seq<Reading>, threshold: int) {
    forall i, j :: 0 <= i < |all| && 0 <= j < |all| ==> all[i].value - all[j].value < threshold
  }

  /** Two valid contexts of the window lie at least the threshold apart. */
  ghost predicate ContextMoved(all: seq<Reading>, threshold: int) {
    exists i, j :: 0 <= i < |all| && 0 <= j < |all| && all[i].contextValid && all[j].contextValid &&
      all[i].contextValue - all[j].contextValue >= threshold
  }

  /** This reading closes the window, and over the window the sensor was flat while the correlated context, if there
      is one, moved. */
  ghost predicate StuckSense(fc: DetectorCfg, readings: seq<Reading>, r: Reading) {
    var w := fc.threshold1 % 0x1_0000;
    var all := Taken(Open(readings, w), r);
    w > 0 && |all| >= w && IsFlat(all, fc.threshold0) &&
    (fc.contextId != 0xFFFF ==> ContextMoved(all, fc.threshold2 % 0x1_0000_0000))
  }

  lemma StuckLaw(fc: DetectorCfg, readings: seq<Reading>, r: Reading, now: u32)
    ensures StuckCondition(StuckRun(fc, readings, now).1, fc, r) <==> StuckSense(fc, readings, r)
  {
    if WindowTicks(fc) > 0 {
      var v, open := StuckRun(fc, readings, now).1, Open(readings, WindowTicks(fc));
      WindowIsOpen(fc, readings, now);
      AccumulateTracks(v, fc, open, r);
      if |Taken(open, r)| > 0 { TestsAgree(StuckAccumulate(v, fc, r), fc, Taken(open, r)); }
    }
  }

  lemma TestsAgree(v: Stuck, fc: DetectorCfg, all: seq<Reading>)
    requires Tracks(v, fc, all) && |all| > 0
    ensures v.valueMax - v.valueMin < fc.threshold0 <==> IsFlat(all, fc.threshold0)
    ensures Moved(v, fc) <==> (fc.contextId != 0xFFFF ==> ContextMoved(all, fc.threshold2 % 0x1_0000_0000))
  {
    var i :| 0 <= i < |all| && all[i].value == v.valueMin;
    var j :| 0 <= j < |all| && all[j].value == v.valueMax;
    if Correlated(fc) && v.contextTicks > 0 {
      var k :| 0 <= k < |all| && all[k].contextValid && all[k].contextValue == v.contextMin;
      var l :| 0 <= l < |all| && all[l].contextValid && all[l].contextValue == v.contextMax;
      DivModIs(v.contextMax - v.contextMin, 0x1_0000_0000, 0, v.contextMax - v.contextMin);
    }
  }
}
