/** Runaway detector: a ring of the last `persist` (temperature, PWM) samples feeding the shared
    state machine (core/thermal_fault.c:258-321). */
module Runaway {
  import opened CInt
  import opened Fault

  const WINDOW_MAX: nat := 64

  datatype Sample = Sample(temp: i32, pwm: u8)

  datatype State = State(fsm: Fsm, window: seq<Sample>, head: nat, filled: bool)

  function Empty(): State { State(FSM_RESET, seq(WINDOW_MAX, _ => Sample(0, 0)), 0, false) }

  /** Window length in use: persistTicks, clamped to the array. */
  function Width(fc: DetectorCfg): nat { Min(fc.persistTicks, WINDOW_MAX) }

  predicate Valid(s: State) { |s.window| == WINDOW_MAX && s.head < WINDOW_MAX }

  function Push(s: State, width: nat, x: Sample): State
    requires Valid(s) && 0 < width <= WINDOW_MAX
  {
    var head := (s.head + 1) % width;
    s.(window := s.window[s.head := x], head := head, filled := s.filled || head == 0)
  }

  /** The trigger on a window just pushed to: risen by threshold0 with cooling at threshold1 throughout. */
  predicate Triggered(s: State, width: nat, fc: DetectorCfg)
    requires Valid(s) && s.head < width <= WINDOW_MAX
  {
    s.filled &&
    s.window[(s.head + width - 1) % width].temp - s.window[s.head].temp >= fc.threshold0 &&
    forall i :: 0 <= i < width ==> s.window[i].pwm >= fc.threshold1 % 0x100
  }

  function Step(s: State, fc: DetectorCfg, x: Sample, now: u32): State
    requires Valid(s)
  {
    if !fc.enabled || fc.persistTicks == 0 then s
    else
      var t := Push(s, Width(fc), x);
      t.(fsm := Tick(s.fsm, Triggered(t, Width(fc), fc), fc, 1, now))
  }

  // ----- The ring refines the sample history

  /** Ring position of the i-th oldest sample of a full window. */
  function Slot(head: nat, width: nat, i: nat): nat { if head + i < width then head + i else head + i - width }

  ghost predicate Refines(s: State, width: nat, h: seq<Sample>) {
    Valid(s) && 0 < width <= WINDOW_MAX && s.head < width &&
    (s.filled <==> |h| >= width) &&
    (!s.filled ==> s.head == |h| && forall i :: 0 <= i < |h| ==> s.window[i] == h[i]) &&
    (s.filled ==> forall i :: 0 <= i < width ==> s.window[Slot(s.head, width, i)] == h[|h| - width + i])
  }

  lemma NextSlot(head: nat, width: nat)
    requires head < width
    ensures (head + 1) % width == if head + 1 == width then 0 else head + 1
    ensures (head + width - 1) % width == if head == 0 then width - 1 else head - 1
  {
    if head + 1 == width { DivModIs(head + 1, width, 1, 0); } else { DivModIs(head + 1, width, 0, head + 1); }
    if head == 0 { DivModIs(width - 1, width, 0, width - 1); } else { DivModIs(head + width - 1, width, 1, head - 1); }
  }

  lemma PushRefines(s: State, width: nat, h: seq<Sample>, x: Sample)
    requires Refines(s, width, h)
    ensures Refines(Push(s, width, x), width, h + [x])
  {
    var t := Push(s, width, x);
    NextSlot(s.head, width);
    if s.filled {
      forall i | 0 <= i < width
        ensures t.window[Slot(t.head, width, i)] == (h + [x])[|h| + 1 - width + i]
      {
        if i < width - 1 { assert Slot(t.head, width, i) == Slot(s.head, width, i + 1); }
      }
    }
  }

  /** Since reset: the window triggers exactly when the last `width` samples exist, rise enough from
      first to last, and were all driven at the cooling threshold. */
  ghost predicate HistoryTriggers(h: seq<Sample>, width: nat, fc: DetectorCfg) {
    0 < width <= |h| &&
    h[|h| - 1].temp - h[|h| - width].temp >= fc.threshold0 &&
    forall k :: |h| - width <= k < |h| ==> h[k].pwm >= fc.threshold1 % 0x100
  }

  /** The slots either side of the head hold the newest and the oldest sample. */
  lemma EndsOfWindow(s: State, width: nat, h: seq<Sample>)
    requires Refines(s, width, h) && s.filled
    ensures s.window[(s.head + width - 1) % width] == h[|h| - 1]
    ensures s.window[s.head] == h[|h| - width]
  {
    NextSlot(s.head, width);
    assert Slot(s.head, width, width - 1) == (s.head + width - 1) % width;
    assert Slot(s.head, width, 0) == s.head;
  }

  /** A full window holds exactly the last `width` samples. */
  lemma WindowHolds(s: State, width: nat, h: seq<Sample>, pwm: int)
    requires Refines(s, width, h) && s.filled
    ensures (forall i :: 0 <= i < width ==> s.window[i].pwm >= pwm) <==>
            (forall k :: |h| - width <= k < |h| ==> h[k].pwm >= pwm)
  {
    forall j | 0 <= j < width
      ensures s.window[j] == h[|h| - width + if j >= s.head then j - s.head else j + width - s.head]
    {
      var i := if j >= s.head then j - s.head else j + width - s.head;
      assert Slot(s.head, width, i) == j;
    }
    forall k | |h| - width <= k < |h| ensures s.window[Slot(s.head, width, k - (|h| - width))] == h[k] {
    }
  }

  lemma TriggerMeansHistory(s: State, width: nat, fc: DetectorCfg, h: seq<Sample>)
    requires Refines(s, width, h)
    ensures Triggered(s, width, fc) <==> HistoryTriggers(h, width, fc)
  {
    if s.filled {
      EndsOfWindow(s, width, h);
      WindowHolds(s, width, h, fc.threshold1 % 0x100);
    }
  }

  ghost function RunRing(fc: DetectorCfg, h: seq<Sample>): (s: State)
    requires fc.enabled && fc.persistTicks > 0
    ensures Refines(s, Width(fc), h)
  {
    if |h| == 0 then Empty()
    else
      var k := |h| - 1;
      PushRefines(RunRing(fc, h[..k]), Width(fc), h[..k], h[k]);
      assert h[..k] + [h[k]] == h;
      Step(RunRing(fc, h[..k]), fc, h[k], 0)
  }

  /** After any history since reset the detector's window test is the test on that history. */
  lemma RingTestsHistory(fc: DetectorCfg, h: seq<Sample>)
    requires fc.enabled && fc.persistTicks > 0
    ensures Triggered(RunRing(fc, h), Width(fc), fc) <==> HistoryTriggers(h, Width(fc), fc)
    ensures RunRing(fc, h).filled <==> |h| >= Width(fc)
  {
    TriggerMeansHistory(RunRing(fc, h), Width(fc), fc, h);
  }

  /** The detector over its two arrays. */
  class RunawayDetector {
    const temps: array<i32>
    const pwms: array<u8>
    var head: nat
    var filled: bool
    var fsm: Fsm
    ghost var window: seq<Sample>  // the two arrays, paired

    ghost predicate Valid() reads this, temps, pwms {
      temps.Length == pwms.Length == |window| == WINDOW_MAX && head < WINDOW_MAX &&
      forall i :: 0 <= i < WINDOW_MAX ==> window[i] == Sample(temps[i], pwms[i])
    }

    ghost function View(): State reads this { State(fsm, window, head, filled) }

    constructor ()
      ensures Valid() && View() == Empty() && fresh(temps) && fresh(pwms)
    {
      temps := new i32[WINDOW_MAX](_ => 0);
      pwms := new u8[WINDOW_MAX](_ => 0);
      head, filled, fsm := 0, false, FSM_RESET;
      window := Empty().window;
    }

    method PushSample(width: nat, x: Sample)
      requires Valid() && 0 < width <= WINDOW_MAX
      modifies this, temps, pwms
      ensures Valid() && View() == Push(old(View()), width, x)
    {
      temps[head] := x.temp;
      pwms[head] := x.pwm;
      window := window[head := x];
      head := (head + 1) % width;
      if head == 0 { filled := true; }
    }

    method WindowTest(width: nat, fc: DetectorCfg) returns (condition: bool)
      requires Valid() && head < width <= WINDOW_MAX
      ensures condition == Triggered(View(), width, fc)
    {
      if !filled { return false; }
      var newest, oldest := (head + width - 1) % width, head;
      var pwmMin: u8 := 255;
      for i := 0 to width
        invariant forall j :: 0 <= j < i ==> pwmMin <= pwms[j]
        invariant pwmMin == 255 || exists j :: 0 <= j < i && pwms[j] == pwmMin
      {
        if pwms[i] < pwmMin { pwmMin := pwms[i]; }
      }
      assert forall i :: 0 <= i < width ==> window[i].pwm == pwms[i];
      condition := temps[newest] - temps[oldest] >= fc.threshold0 && pwmMin >= fc.threshold1 % 0x100;
    }

    method StepDetector(fc: DetectorCfg, x: Sample, now: u32)
      requires Valid()
      modifies this, temps, pwms
      ensures Valid() && View() == Step(old(View()), fc, x, now)
    {
      if !fc.enabled { return; }
      var persist: nat := fc.persistTicks;
      if persist == 0 { return; }
      if persist > WINDOW_MAX { persist := WINDOW_MAX; }
      PushSample(persist, x);
      var condition := WindowTest(persist, fc);
      fsm := Tick(fsm, condition, fc, 1, now);
    }
  }
}
