/** What each aggregation mode computes, over the usable sensors taken one by one from the front
    (core/thermal_zone.c:17-84). */
module ZoneLaws {
  import opened CInt
  import opened Quotients
  import opened Zone

  /** The usable slots, in order. */
  ghost function Usable(slots: seq<Slot>): (u: seq<Slot>)
    ensures |u| <= |slots|
  {
    if |slots| == 0 then [] else (if slots[0].valid then [slots[0]] else []) + Usable(slots[1..])
  }

  ghost function Values(u: seq<Slot>): int { if |u| == 0 then 0 else u[0].value + Values(u[1..]) }

  ghost function Weights(u: seq<Slot>): int { if |u| == 0 then 0 else u[0].weight + Weights(u[1..]) }

  ghost function Products(u: seq<Slot>): int { if |u| == 0 then 0 else u[0].value * u[0].weight + Products(u[1..]) }

  lemma {:induction false} UsableSnoc(slots: seq<Slot>, s: Slot)
    ensures Usable(slots + [s]) == Usable(slots) + if s.valid then [s] else []
  {
    if |slots| > 0 {
      assert (slots + [s])[1..] == slots[1..] + [s];
      UsableSnoc(slots[1..], s);
    }
  }

  lemma {:induction false} SumsSnoc(u: seq<Slot>, s: Slot)
    ensures Values(u + [s]) == Values(u) + s.value && Weights(u + [s]) == Weights(u) + s.weight
    ensures Products(u + [s]) == Products(u) + s.value * s.weight
  {
    if |u| > 0 {
      assert (u + [s])[1..] == u[1..] + [s];
      SumsSnoc(u[1..], s);
    }
  }

  lemma {:induction false} SumsAgree(slots: seq<Slot>)
    ensures Count(slots) == |Usable(slots)| && Sum(slots) == Values(Usable(slots))
    ensures WeightTotal(slots) == Weights(Usable(slots)) && WeightedSum(slots) == Products(Usable(slots))
  {
    if |slots| > 0 {
      var k := |slots| - 1;
      assert slots == slots[..k] + [slots[k]];
      SumsAgree(slots[..k]);
      UsableSnoc(slots[..k], slots[k]);
      var u := Usable(slots[..k]);
      if slots[k].valid { SumsSnoc(u, slots[k]); } else { assert u + [] == u; }
    }
  }

  lemma QuotientIs(n: int, d: int, q: int)
    requires d != 0 && IsTruncated(n, d, q) && FitsI32(q)
    ensures Quotient(n, d) == q
  {
    if d > 0 {
      TruncatedIs(n, d, q);
    } else {
      Mirrored(q, d);
      TruncatedIs(n, -d, -q);
    }
  }

  /** MAX: an upper bound of the usable values, and one of them. */
  lemma MaxLaw(slots: seq<Slot>, fallbackMc: i32)
    requires !NoneValid(slots)
    ensures var r := Aggregate(AGG_MAX, slots, fallbackMc);
            r.valid && (forall i :: 0 <= i < |slots| && slots[i].valid ==> slots[i].value <= r.tempMc) &&
            exists i :: 0 <= i < |slots| && slots[i].valid && slots[i].value == r.tempMc
  {
  }

  /** AVG: the sum of the usable values over their number, truncated toward zero. */
  lemma AverageLaw(slots: seq<Slot>, fallbackMc: i32, q: i32)
    requires |Usable(slots)| > 0 && IsTruncated(Values(Usable(slots)), |Usable(slots)|, q)
    ensures Aggregate(AGG_AVG, slots, fallbackMc) == Reading(q, true)
  {
    SumsAgree(slots);
    QuotientIs(Sum(slots), Count(slots), q);
  }

  /** WEIGHTED: the weighted sum of the usable values over their total weight, truncated toward zero. */
  lemma WeightedLaw(slots: seq<Slot>, fallbackMc: i32, q: i32)
    requires Weights(Usable(slots)) != 0 && IsTruncated(Products(Usable(slots)), Weights(Usable(slots)), q)
    ensures Aggregate(AGG_WEIGHTED, slots, fallbackMc) == Reading(q, true)
  {
    SumsAgree(slots);
    QuotientIs(WeightedSum(slots), WeightTotal(slots), q);
  }
}
