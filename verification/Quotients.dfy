/** Quotients given by the inequalities that fix them. */
module Quotients {
  import opened CInt

  /** q is n / d truncated toward zero, for a divisor of either sign. */
  predicate IsTruncated(n: int, d: int, q: int) { Abs(n - q * d) < Abs(d) && Abs(q * d) <= Abs(n) }

  lemma TruncatedIs(n: int, d: int, q: int)
    requires d > 0 && IsTruncated(n, d, q)
    ensures q == TruncDiv(n, d)
  {
    TruncParts(n, d);
    var t := TruncDiv(n, d);
    if n >= 0 {
      NotBelow(q, d);
      FactorOrder(q, t, d);
      FactorOrder(t, q, d);
    } else {
      Mirrored(q, d);
      Mirrored(t, d);
      NotBelow(-q, d);
      FactorOrder(-q, -t, d);
      FactorOrder(-t, -q, d);
    }
  }

  lemma Mirrored(q: int, d: int)
    ensures -q * d == -(q * d) && -q * -d == q * d && q * -d == -(q * d)
  {
  }

  /** A negative multiple of d is at least d below 0. */
  lemma NotBelow(q: int, d: int)
    requires d > 0
    ensures q < 0 ==> q * d <= -d
    ensures q >= 0 ==> q * d >= 0
  {
    if q < 0 { MulMono(q, -1, d); } else { MulMono(0, q, d); }
  }

  /** q is a nearest integer to n / d, the one farther from 0 on a tie. */
  predicate IsNearest(n: int, d: int, q: int) {
    2 * Abs(n - d * q) <= d && (2 * Abs(n - d * q) == d ==> Abs(d * q) > Abs(n))
  }
}
