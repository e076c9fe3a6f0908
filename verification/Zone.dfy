/** Sensor aggregation of one zone (core/thermal_zone.c). */
module Zone {
  import opened CInt

  const AGG_MAX: u8 := 1
  const AGG_AVG: u8 := 2
  const AGG_WEIGHTED: u8 := 3

  /** One sensor slot as the zone sees it: filtered value, usable flag, weight. */
  datatype Slot = Slot(value: i32, valid: bool, weight: i32)

  datatype Reading = Reading(tempMc: i32, valid: bool)

  predicate NoneValid(slots: seq<Slot>) { forall i :: 0 <= i < |slots| ==> !slots[i].valid }

  function Count(slots: seq<Slot>): nat {
    if |slots| == 0 then 0
    else Count(slots[..|slots| - 1]) + if slots[|slots| - 1].valid then 1 else 0
  }

  function Sum(slots: seq<Slot>): int {
    if |slots| == 0 then 0
    else Sum(slots[..|slots| - 1]) + if slots[|slots| - 1].valid then slots[|slots| - 1].value else 0
  }

  function WeightTotal(slots: seq<Slot>): int {
    if |slots| == 0 then 0
    else WeightTotal(slots[..|slots| - 1]) + if slots[|slots| - 1].valid then slots[|slots| - 1].weight else 0
  }

  function WeightedSum(slots: seq<Slot>): int {
    if |slots| == 0 then 0
    else
      var s := slots[|slots| - 1];
      WeightedSum(slots[..|slots| - 1]) + if s.valid then s.value * s.weight else 0
  }

  function Hottest(slots: seq<Slot>): (r: i32)
    requires !NoneValid(slots)
    ensures forall i :: 0 <= i < |slots| && slots[i].valid ==> slots[i].value <= r
    ensures exists i :: 0 <= i < |slots| && slots[i].valid && slots[i].value == r
  {
    var k := |slots| - 1;
    if NoneValid(slots[..k]) then slots[k].value
    else
      assert forall i :: 0 <= i < k ==> slots[..k][i] == slots[i];
      var r := Hottest(slots[..k]);
      if slots[k].valid && slots[k].value > r then slots[k].value else r
  }

  /** C99 division of the weighted sum; the quotient is cast to int32, so it wraps when it does not fit. */
  function Quotient(n: int, d: int): i32
    requires d != 0
  {
    WrapI32(if d > 0 then TruncDiv(n, d) else -TruncDiv(n, -d))
  }

  function Aggregate(mode: u8, slots: seq<Slot>, fallbackMc: i32): Reading {
    if mode == AGG_MAX && !NoneValid(slots) then Reading(Hottest(slots), true)
    else if mode == AGG_AVG && Count(slots) > 0 then Reading(Quotient(Sum(slots), Count(slots)), true)
    else if mode == AGG_WEIGHTED && WeightTotal(slots) != 0 then
      Reading(Quotient(WeightedSum(slots), WeightTotal(slots)), true)
    else Reading(fallbackMc, false)
  }

  method AggregateSlots(mode: u8, slots: seq<Slot>, fallbackMc: i32) returns (r: Reading)
    ensures r == Aggregate(mode, slots, fallbackMc)
  {
    if |slots| == 0 { return Reading(fallbackMc, false); }
    if mode == AGG_MAX {
      var best: i32, any := 0, false;
      for i := 0 to |slots|
        invariant any <==> !NoneValid(slots[..i])
        invariant any ==> best == Hottest(slots[..i])
      {
        assert slots[..i + 1][..i] == slots[..i];
        if slots[i].valid {
          assert slots[..i + 1][i].valid;
          if !any || slots[i].value > best { best := slots[i].value; }
          any := true;
        }
      }
      assert slots[..|slots|] == slots;
      return if any then Reading(best, true) else Reading(fallbackMc, false);
    } else if mode == AGG_AVG {
      var sum, n := 0, 0;
      for i := 0 to |slots|
        invariant sum == Sum(slots[..i]) && n == Count(slots[..i])
      {
        assert slots[..i + 1][..i] == slots[..i];
        if slots[i].valid { sum, n := sum + slots[i].value, n + 1; }
      }
      assert slots[..|slots|] == slots;
      return if n == 0 then Reading(fallbackMc, false) else Reading(Quotient(sum, n), true);
    } else if mode == AGG_WEIGHTED {
      var wsum, wtot := 0, 0;
      for i := 0 to |slots|
        invariant wsum == WeightedSum(slots[..i]) && wtot == WeightTotal(slots[..i])
      {
        assert slots[..i + 1][..i] == slots[..i];
        if slots[i].valid {
          wsum, wtot := wsum + slots[i].value * slots[i].weight, wtot + slots[i].weight;
        }
      }
      assert slots[..|slots|] == slots;
      return if wtot == 0 then Reading(fallbackMc, false) else Reading(Quotient(wsum, wtot), true);
    } else {
      return Reading(fallbackMc, false);
    }
  }

  /** With no usable sensor every mode reports the fallback temperature, marked invalid. */
  lemma {:induction false} NoSensorMeansFallback(mode: u8, slots: seq<Slot>, fallbackMc: i32)
    requires NoneValid(slots)
    ensures Aggregate(mode, slots, fallbackMc) == Reading(fallbackMc, false)
  {
    NoneValidSums(slots);
  }

  /** A reading is invalid exactly when no sensor is usable, or the usable weights of a weighted zone cancel,
      and it is then the fallback. */
  lemma InvalidMeansFallback(mode: u8, slots: seq<Slot>, fallbackMc: i32)
    ensures var r := Aggregate(mode, slots, fallbackMc);
            (r.valid || r == Reading(fallbackMc, false)) &&
            (mode in {AGG_MAX, AGG_AVG, AGG_WEIGHTED} ==>
              (!r.valid <==> NoneValid(slots) || (mode == AGG_WEIGHTED && WeightTotal(slots) == 0)))
  {
    CountIsZero(slots);
    if NoneValid(slots) { NoneValidSums(slots); }
  }

  lemma {:induction false} CountIsZero(slots: seq<Slot>)
    ensures Count(slots) == 0 <==> NoneValid(slots)
  {
    if |slots| > 0 {
      var k := |slots| - 1;
      CountIsZero(slots[..k]);
      assert forall i :: 0 <= i < k ==> slots[..k][i] == slots[i];
    }
  }

  lemma {:induction false} NoneValidSums(slots: seq<Slot>)
    requires NoneValid(slots)
    ensures Count(slots) == 0 && WeightTotal(slots) == 0
  {
    if |slots| > 0 { NoneValidSums(slots[..|slots| - 1]); }
  }

  ghost predicate Within(slots: seq<Slot>, lo: int, hi: int) {
    forall i :: 0 <= i < |slots| && slots[i].valid ==> lo <= slots[i].value <= hi
  }

  ghost predicate WeightsNonNegative(slots: seq<Slot>) {
    forall i :: 0 <= i < |slots| && slots[i].valid ==> 0 <= slots[i].weight
  }

  ghost predicate WeightsNonPositive(slots: seq<Slot>) {
    forall i :: 0 <= i < |slots| && slots[i].valid ==> slots[i].weight <= 0
  }

  /** No two usable weights pull in opposite directions. */
  ghost predicate SameSign(slots: seq<Slot>) { WeightsNonNegative(slots) || WeightsNonPositive(slots) }

  lemma {:induction false} SumWithin(slots: seq<Slot>, lo: int, hi: int)
    requires Within(slots, lo, hi)
    ensures lo * Count(slots) <= Sum(slots) <= hi * Count(slots)
  {
    if |slots| > 0 {
      var k := |slots| - 1;
      SumWithin(slots[..k], lo, hi);
      var n := Count(slots[..k]);
      assert lo * (n + 1) == lo * n + lo && hi * (n + 1) == hi * n + hi;
    }
  }

  lemma {:induction false} WeightedSumWithin(slots: seq<Slot>, lo: int, hi: int)
    requires Within(slots, lo, hi) && WeightsNonNegative(slots)
    ensures 0 <= WeightTotal(slots)
    ensures lo * WeightTotal(slots) <= WeightedSum(slots) <= hi * WeightTotal(slots)
  {
    if |slots| > 0 {
      var k := |slots| - 1;
      WeightedSumWithin(slots[..k], lo, hi);
      var s, w := slots[k], WeightTotal(slots[..k]);
      if s.valid {
        MulMono(lo, s.value, s.weight);
        MulMono(s.value, hi, s.weight);
        assert lo * (w + s.weight) == lo * w + lo * s.weight;
        assert hi * (w + s.weight) == hi * w + hi * s.weight;
      }
    }
  }

  lemma {:induction false} NonPositiveSumWithin(slots: seq<Slot>, lo: int, hi: int)
    requires Within(slots, lo, hi) && WeightsNonPositive(slots)
    ensures WeightTotal(slots) <= 0
    ensures hi * WeightTotal(slots) <= WeightedSum(slots) <= lo * WeightTotal(slots)
  {
    if |slots| > 0 {
      var k := |slots| - 1;
      NonPositiveSumWithin(slots[..k], lo, hi);
      var s, w := slots[k], WeightTotal(slots[..k]);
      if s.valid { NonPositiveTerm(s.value, s.weight, w, lo, hi); }
    }
  }

  lemma NonPositiveTerm(value: int, weight: int, total: int, lo: int, hi: int)
    requires lo <= value <= hi && weight <= 0
    ensures hi * (total + weight) <= hi * total + value * weight
    ensures lo * total + value * weight <= lo * (total + weight)
  {
    MulMono(lo, value, -weight);
    MulMono(value, hi, -weight);
    assert value * -weight == -(value * weight) && lo * -weight == -(lo * weight) && hi * -weight == -(hi * weight);
    assert hi * (total + weight) == hi * total + hi * weight && lo * (total + weight) == lo * total + lo * weight;
  }

  /** Any zone reading counted as valid lies within the hull of the usable sensor values, provided the
      usable weights of a weighted zone share a sign. */
  lemma AggregateWithin(mode: u8, slots: seq<Slot>, fallbackMc: i32, lo: i32, hi: i32)
    requires Within(slots, lo, hi)
    requires mode == AGG_WEIGHTED ==> SameSign(slots)
    requires Aggregate(mode, slots, fallbackMc).valid
    ensures lo <= Aggregate(mode, slots, fallbackMc).tempMc <= hi
  {
    if mode == AGG_AVG {
      SumWithin(slots, lo, hi);
      TruncDivBetween(Sum(slots), Count(slots), lo, hi);
    } else if mode == AGG_WEIGHTED {
      WeightedWithin(slots, lo, hi);
    }
  }

  lemma WeightedWithin(slots: seq<Slot>, lo: i32, hi: i32)
    requires Within(slots, lo, hi) && SameSign(slots) && WeightTotal(slots) != 0
    ensures lo <= Quotient(WeightedSum(slots), WeightTotal(slots)) <= hi
  {
    if WeightsNonNegative(slots) { WeightedSumWithin(slots, lo, hi); } else { NonPositiveSumWithin(slots, lo, hi); }
    QuotientBetween(WeightedSum(slots), WeightTotal(slots), lo, hi);
  }

  lemma QuotientBetween(n: int, d: int, lo: i32, hi: i32)
    requires d != 0
    requires if d > 0 then lo * d <= n <= hi * d else hi * d <= n <= lo * d
    ensures lo <= Quotient(n, d) <= hi
  {
    if d > 0 {
      TruncDivBetween(n, d, lo, hi);
    } else {
      NegatedProduct(lo, d);
      NegatedProduct(hi, d);
      TruncDivBetween(-n, -d, lo, hi);
      TruncDivOdd(n, -d);
    }
  }

  lemma NegatedProduct(a: int, d: int)
    ensures a * -d == -(a * d)
  {
  }

  lemma TruncDivOdd(n: int, d: int)
    requires d > 0
    ensures TruncDiv(-n, d) == -TruncDiv(n, d)
  {
  }

  // ----- Exactly when a weighted zone stays within its sensors

  /** The same sensors with other readings. */
  function WithValues(slots: seq<Slot>, v: seq<i32>): (r: seq<Slot>)
    requires |v| == |slots|
    ensures |r| == |slots|
  {
    seq(|slots|, i requires 0 <= i < |slots| && |v| == |slots| => slots[i].(value := v[i]))
  }

  /** Whatever the usable sensors read, the weighted mean lies in every interval that holds them all. */
  ghost predicate StaysInHull(slots: seq<Slot>, fallbackMc: i32) {
    forall v: seq<i32>, lo: i32, hi: i32 :: |v| == |slots| && Within(WithValues(slots, v), lo, hi) ==>
      lo <= Aggregate(AGG_WEIGHTED, WithValues(slots, v), fallbackMc).tempMc <= hi
  }

  lemma {:induction false} SameTotal(slots: seq<Slot>, v: seq<i32>)
    requires |v| == |slots|
    ensures WeightTotal(WithValues(slots, v)) == WeightTotal(slots)
  {
    if |slots| > 0 {
      var k := |slots| - 1;
      assert WithValues(slots, v)[..k] == WithValues(slots[..k], v[..k]);
      SameTotal(slots[..k], v[..k]);
    }
  }

  /** Readings of -1 everywhere except -2 at sensor j. */
  function OneLower(n: nat, j: nat): (v: seq<i32>)
    ensures |v| == n
  {
    seq(n, i => if i == j then -2 else -1)
  }

  lemma {:induction false} OneLowerSum(slots: seq<Slot>, j: nat)
    ensures WeightedSum(WithValues(slots, OneLower(|slots|, j))) ==
      -WeightTotal(slots) - if j < |slots| && slots[j].valid then slots[j].weight else 0
  {
    if |slots| > 0 {
      var k := |slots| - 1;
      var v := OneLower(|slots|, j);
      assert WithValues(slots, v)[..k] == WithValues(slots[..k], OneLower(k, j));
      OneLowerSum(slots[..k], j);
    }
  }

  /** A usable weight against the sign of the total pulls the mean of -1s and one -2 up to 0 or more. */
  lemma OpposedWeightLeaves(slots: seq<Slot>, fallbackMc: i32, j: nat)
    requires j < |slots| && slots[j].valid && WeightTotal(slots) != 0
    requires if WeightTotal(slots) > 0 then slots[j].weight < 0 else slots[j].weight > 0
    ensures !StaysInHull(slots, fallbackMc)
  {
    var v := OneLower(|slots|, j);
    var low := WithValues(slots, v);
    SameTotal(slots, v);
    OneLowerSum(slots, j);
    OpposedQuotient(WeightTotal(slots), slots[j].weight);
    assert Within(low, -2, -1);
    assert Aggregate(AGG_WEIGHTED, low, fallbackMc).tempMc >= 0;
  }

  lemma OpposedQuotient(total: int, weight: i32)
    requires total != 0 && if total > 0 then weight < 0 else weight > 0
    ensures Quotient(-total - weight, total) >= 0
  {
    var n := -total - weight;
    if total > 0 {
      SmallQuotient(n, total);
    } else {
      TruncDivOdd(n, -total);
      SmallQuotient(-n, -total);
    }
  }

  lemma SmallQuotient(n: int, d: int)
    requires d > 0 && -d < n <= I32_MAX
    ensures 0 <= TruncDiv(n, d) <= I32_MAX
  {
    if n >= 0 {
      TruncParts(n, d);
      MulMono(1, d, TruncDiv(n, d));
    } else {
      DivModIs(-n, d, 0, -n);
    }
  }

  /** A weighted zone whose usable weights do not cancel stays within its usable sensors, for all
      readings, exactly when those weights share a sign. Validation asks only for a positive sum. */
  lemma HullIffSameSign(slots: seq<Slot>, fallbackMc: i32)
    requires WeightTotal(slots) != 0
    ensures StaysInHull(slots, fallbackMc) <==> SameSign(slots)
  {
    if SameSign(slots) {
      forall v: seq<i32>, lo: i32, hi: i32 | |v| == |slots| && Within(WithValues(slots, v), lo, hi)
        ensures lo <= Aggregate(AGG_WEIGHTED, WithValues(slots, v), fallbackMc).tempMc <= hi
      {
        SameTotal(slots, v);
        WeightedWithin(WithValues(slots, v), lo, hi);
      }
    } else {
      var i :| 0 <= i < |slots| && slots[i].valid && slots[i].weight < 0;
      var j :| 0 <= j < |slots| && slots[j].valid && slots[j].weight > 0;
      OpposedWeightLeaves(slots, fallbackMc, if WeightTotal(slots) > 0 then i else j);
    }
  }

  /** The same sensors with other usable flags. */
  function WithFlags(slots: seq<Slot>, usable: seq<bool>): (r: seq<Slot>)
    requires |usable| == |slots|
    ensures |r| == |slots|
  {
    seq(|slots|, i requires 0 <= i < |slots| && |usable| == |slots| => slots[i].(valid := usable[i]))
  }

  /** Whichever sensors are usable, and whatever they read, a weighted mean of them stays within them. */
  ghost predicate AlwaysInHull(slots: seq<Slot>, fallbackMc: i32) {
    forall usable: seq<bool> :: |usable| == |slots| && WeightTotal(WithFlags(slots, usable)) != 0 ==>
      StaysInHull(WithFlags(slots, usable), fallbackMc)
  }

  /** For weights that validation accepts (a positive sum), a weighted zone always stays within its usable
      sensors exactly when none of its weights is negative. */
  lemma AlwaysInHullIff(slots: seq<Slot>, fallbackMc: i32)
    requires (forall i :: 0 <= i < |slots| ==> slots[i].valid) && WeightTotal(slots) > 0
    ensures AlwaysInHull(slots, fallbackMc) <==> forall i :: 0 <= i < |slots| ==> 0 <= slots[i].weight
  {
    if forall i :: 0 <= i < |slots| ==> 0 <= slots[i].weight {
      forall usable: seq<bool> | |usable| == |slots| && WeightTotal(WithFlags(slots, usable)) != 0
        ensures StaysInHull(WithFlags(slots, usable), fallbackMc)
      {
        HullIffSameSign(WithFlags(slots, usable), fallbackMc);
      }
    } else {
      var all := seq(|slots|, _ => true);
      assert WithFlags(slots, all) == slots;
      if WeightsNonPositive(slots) { NonPositiveSumWithin(slots, I32_MIN, I32_MAX); }
      HullIffSameSign(slots, fallbackMc);
      assert !StaysInHull(WithFlags(slots, all), fallbackMc);
    }
  }

  lemma SumsNext(slots: seq<Slot>, s: Slot)
    requires s.valid
    ensures WeightedSum(slots + [s]) == WeightedSum(slots) + s.value * s.weight
    ensures WeightTotal(slots + [s]) == WeightTotal(slots) + s.weight
  {
    assert (slots + [s])[..|slots|] == slots;
  }

  /** A positive weight sum is not enough: a weighted zone can read far above its hottest
      sensor: weights 2 and -1 over 0 and -60 degrees give +60 degrees. */
  lemma NegativeWeightLeavesHull()
    ensures var slots := [Slot(0, true, 2 * 65536), Slot(-60000, true, -65536)];
            WeightTotal(slots) > 0 && Within(slots, -60000, 0) &&
            Aggregate(AGG_WEIGHTED, slots, 0) == Reading(60000, true)
  {
    var a, b: Slot := Slot(0, true, 2 * 65536), Slot(-60000, true, -65536);
    SumsNext([], a);
    SumsNext([a], b);
    assert [] + [a] == [a] && [a] + [b] == [a, b];
    TruncDivBetween(60000 * 65536, 65536, 60000, 60000);
  }
}
