/** Integer linear interpolation over a piecewise-linear curve (core/thermal_curve.c). */
module Curve {
  import opened CInt

  datatype Point = Point(x: i32, value0: i32, value1: i32)

  /** The two value columns a curve carries. */
  datatype Axis = Axis0 | Axis1

  function Y(p: Point, axis: Axis): i32 { if axis == Axis0 then p.value0 else p.value1 }

  predicate Ascending(c: seq<Point>) {
    forall i :: 1 <= i < |c| ==> c[i - 1].x < c[i].x
  }

  /** One interpolated value; the 64-bit product is truncated toward zero by the division. */
  function Interp(x0: int, y0: int, x1: int, y1: int, x: int): int
    requires x0 < x1
  {
    y0 + TruncDiv((x - x0) * (y1 - y0), x1 - x0)
  }

  /** The value of the curve at x, defined by dropping leading points until x is bracketed. */
  function Eval(c: seq<Point>, axis: Axis, x: int): int
    requires Ascending(c)
  {
    if |c| == 0 then 0
    else if x <= c[0].x || |c| == 1 then Y(c[0], axis)
    else if x <= c[1].x then Interp(c[0].x, Y(c[0], axis), c[1].x, Y(c[1], axis), x)
    else Eval(c[1..], axis, x)
  }

  /** The linear scan for the bracketing pair of points. */
  method FindSegment(c: seq<Point>, x: i32) returns (i: nat)
    requires |c| > 0 && c[0].x < x < c[|c| - 1].x
    ensures i + 1 < |c| && c[i].x < x <= c[i + 1].x
  {
    i := 0;
    while i + 1 < |c| && x > c[i + 1].x
      invariant 0 <= i < |c| - 1
      invariant c[i].x < x
    {
      i := i + 1;
    }
  }

  /** thermal_curve_eval_y0 / _y1: endpoint clamps, then interpolation in the bracketing segment. */
  method EvalAxis(c: seq<Point>, axis: Axis, x: i32) returns (r: i32)
    requires Ascending(c)
    ensures r == Eval(c, axis, x)
  {
    if |c| == 0 { return 0; }
    if x <= c[0].x { return Y(c[0], axis); }
    if x >= c[|c| - 1].x {
      EvalAboveLast(c, axis, x);
      return Y(c[|c| - 1], axis);
    }
    var i := FindSegment(c, x);
    EvalInSegment(c, axis, x, i);
    EvalHull(c, axis, x, I32_MIN, I32_MAX);
    r := Interp(c[i].x, Y(c[i], axis), c[i + 1].x, Y(c[i + 1], axis), x);
  }

  lemma {:induction false} EvalInSegment(c: seq<Point>, axis: Axis, x: int, i: nat)
    requires Ascending(c) && i + 1 < |c| && c[i].x < x <= c[i + 1].x
    ensures Eval(c, axis, x) == Interp(c[i].x, Y(c[i], axis), c[i + 1].x, Y(c[i + 1], axis), x)
  {
    if i > 0 {
      AscendingPair(c, 0, i);
      if i > 1 { AscendingPair(c, 1, i); }
      EvalInSegment(c[1..], axis, x, i - 1);
    }
  }

  /** Inside a segment the curve is the line through its two points, truncated toward the first one: the rise
      r above that point satisfies r * d = n short of one unit of d, on the side of 0. These fix r. */
  lemma EvalOnLine(c: seq<Point>, axis: Axis, x: int, i: nat)
    requires Ascending(c) && i + 1 < |c| && c[i].x < x <= c[i + 1].x
    ensures var (d, n) := (c[i + 1].x - c[i].x, (x - c[i].x) * (Y(c[i + 1], axis) - Y(c[i], axis)));
            var r := Eval(c, axis, x) - Y(c[i], axis);
            Abs(n - r * d) < d && Abs(r * d) <= Abs(n) && (n >= 0 ==> r >= 0) && (n <= 0 ==> r <= 0)
  {
    EvalInSegment(c, axis, x, i);
    TruncParts((x - c[i].x) * (Y(c[i + 1], axis) - Y(c[i], axis)), c[i + 1].x - c[i].x);
  }

  /** At or below the first point the curve is constant. */
  lemma EvalBelowFirst(c: seq<Point>, axis: Axis, x: int)
    requires Ascending(c) && |c| > 0 && x <= c[0].x
    ensures Eval(c, axis, x) == Y(c[0], axis)
  {
  }

  lemma AscendingPair(c: seq<Point>, i: nat, j: nat)
    requires Ascending(c) && i < j < |c|
    ensures c[i].x < c[j].x
  {
    if i + 1 < j { AscendingPair(c, i, j - 1); }
  }

  /** At or beyond the last point the curve is constant. */
  lemma {:induction false} EvalAboveLast(c: seq<Point>, axis: Axis, x: int)
    requires Ascending(c) && |c| > 0 && x >= c[|c| - 1].x
    ensures Eval(c, axis, x) == Y(c[|c| - 1], axis)
  {
    if |c| > 1 {
      AscendingPair(c, 0, |c| - 1);
      if x <= c[1].x {
        if |c| > 2 { AscendingPair(c, 1, |c| - 1); }
        InterpAtEnd(c[0].x, Y(c[0], axis), c[1].x, Y(c[1], axis));
      } else {
        EvalAboveLast(c[1..], axis, x);
      }
    }
  }

  lemma InterpAtEnd(x0: int, y0: int, x1: int, y1: int)
    requires x0 < x1
    ensures Interp(x0, y0, x1, y1, x1) == y1
  {
    TruncDivBetween((x1 - x0) * (y1 - y0), x1 - x0, y1 - y0, y1 - y0);
  }

  /** An interpolated value lies between the two values it interpolates. */
  lemma InterpBetween(x0: int, y0: int, x1: int, y1: int, x: int)
    requires x0 <= x <= x1 && x0 < x1
    ensures Min(y0, y1) <= Interp(x0, y0, x1, y1, x) <= Max(y0, y1)
  {
    var k, d := x - x0, x1 - x0;
    if y0 <= y1 {
      MulMono(k, d, y1 - y0);
      TruncDivBetween(k * (y1 - y0), d, 0, y1 - y0);
    } else {
      MulMono(k, d, y0 - y1);
      TruncDivBetween(k * (y1 - y0), d, y1 - y0, 0);
    }
  }

  /** Whatever bounds hold at every knot hold at every abscissa. */
  lemma {:induction false} EvalHull(c: seq<Point>, axis: Axis, x: int, lo: int, hi: int)
    requires Ascending(c) && |c| > 0
    requires forall i :: 0 <= i < |c| ==> lo <= Y(c[i], axis) <= hi
    ensures lo <= Eval(c, axis, x) <= hi
  {
    if x <= c[0].x || |c| == 1 {
    } else if x <= c[1].x {
      InterpBetween(c[0].x, Y(c[0], axis), c[1].x, Y(c[1], axis), x);
    } else {
      EvalHull(c[1..], axis, x, lo, hi);
    }
  }

  /** The curve passes exactly through its knots. */
  lemma {:induction false} EvalAtKnot(c: seq<Point>, axis: Axis, k: nat)
    requires Ascending(c) && k < |c|
    ensures Eval(c, axis, c[k].x) == Y(c[k], axis)
  {
    if k == 1 {
      InterpAtEnd(c[0].x, Y(c[0], axis), c[1].x, Y(c[1], axis));
    } else if k > 1 {
      AscendingPair(c, 1, k);
      EvalAtKnot(c[1..], axis, k - 1);
    }
  }

  lemma InterpMono(x0: int, y0: int, x1: int, y1: int, x: int, z: int)
    requires x0 < x1 && x <= z && y0 <= y1
    ensures Interp(x0, y0, x1, y1, x) <= Interp(x0, y0, x1, y1, z)
  {
    MulMono(x - x0, z - x0, y1 - y0);
    TruncDivMono((x - x0) * (y1 - y0), (z - x0) * (y1 - y0), x1 - x0);
  }

  predicate Rising(c: seq<Point>, axis: Axis) {
    forall i :: 1 <= i < |c| ==> Y(c[i - 1], axis) <= Y(c[i], axis)
  }

  lemma RisingFromFirst(c: seq<Point>, axis: Axis, j: nat)
    requires Rising(c, axis) && j < |c|
    ensures Y(c[0], axis) <= Y(c[j], axis)
  {
    if j > 0 { RisingFromFirst(c, axis, j - 1); }
  }

  lemma EvalAboveFirst(c: seq<Point>, axis: Axis, x: int)
    requires Ascending(c) && |c| > 0 && Rising(c, axis)
    ensures Y(c[0], axis) <= Eval(c, axis, x)
  {
    forall i | 0 <= i < |c| ensures Y(c[0], axis) <= Y(c[i], axis) { RisingFromFirst(c, axis, i); }
    EvalHull(c, axis, x, Y(c[0], axis), I32_MAX);
  }

  /** Rising knots make the whole curve monotone, truncation included. */
  lemma {:induction false} EvalMonotone(c: seq<Point>, axis: Axis, x: int, z: int)
    requires Ascending(c) && Rising(c, axis) && x <= z
    ensures Eval(c, axis, x) <= Eval(c, axis, z)
  {
    if |c| <= 1 {
    } else if x <= c[0].x {
      EvalAboveFirst(c, axis, z);
    } else if z <= c[1].x {
      InterpMono(c[0].x, Y(c[0], axis), c[1].x, Y(c[1], axis), x, z);
    } else if x <= c[1].x {
      InterpBetween(c[0].x, Y(c[0], axis), c[1].x, Y(c[1], axis), x);
      EvalAboveFirst(c[1..], axis, z);
    } else {
      EvalMonotone(c[1..], axis, x, z);
    }
  }
}
