/** The C integer types and operators of the regulator, over unbounded integers. */
module CInt {
  const I32_MIN: int := -0x8000_0000
  const I32_MAX: int := 0x7FFF_FFFF
  const Q16_ONE: int := 0x1_0000

  type u8 = x: int | 0 <= x < 0x100
  type u16 = x: int | 0 <= x < 0x1_0000
  type u32 = x: int | 0 <= x < 0x1_0000_0000
  type i32 = x: int | I32_MIN <= x <= I32_MAX

  predicate FitsI32(v: int) { I32_MIN <= v <= I32_MAX }

  function Min(a: int, b: int): int { if a <= b then a else b }

  function Max(a: int, b: int): int { if a >= b then a else b }

  function Abs(a: int): int { if a < 0 then -a else a }

  /** C99 division by a positive divisor: truncation toward zero. */
  function TruncDiv(n: int, d: int): (q: int)
    requires d > 0
    ensures Abs(d * q) <= Abs(n) < Abs(d * q) + d
    ensures n >= 0 ==> q >= 0
    ensures n <= 0 ==> q <= 0
  {
    if n >= 0 then n / d else -(-n / d)
  }

  /** Saturating conversion to int32. */
  function ClampI32(v: int): (r: i32)
    ensures FitsI32(v) ==> r == v
    ensures v > I32_MAX ==> r == I32_MAX
    ensures v < I32_MIN ==> r == I32_MIN
  {
    if v > I32_MAX then I32_MAX else if v < I32_MIN then I32_MIN else v
  }

  /** Two's-complement narrowing conversion to int32. */
  function WrapI32(v: int): (r: i32)
    ensures FitsI32(v) ==> r == v
    ensures r % 0x1_0000_0000 == v % 0x1_0000_0000
  {
    var m := v % 0x1_0000_0000;
    if m <= I32_MAX then m else m - 0x1_0000_0000
  }

  /** Fixed-point product reduced by 2^16, halves rounded away from zero. */
  function RoundQ16(p: int): (r: int)
    ensures 2 * Abs(p - Q16_ONE * r) <= Q16_ONE
    ensures p >= 0 ==> r >= 0
    ensures p <= 0 ==> r <= 0
    ensures Abs(p) < 32768 <==> r == 0
  {
    if p >= 0 then (p + 32768) / Q16_ONE else -((-p + 32768) / Q16_ONE)
  }

  /** A product order that fixes the order of the factors. */
  lemma FactorOrder(a: int, b: int, d: int)
    requires d > 0
    requires a * d < b * d + d
    ensures a <= b
  {
    if a > b { MulMono(b + 1, a, d); }
  }

  lemma MulMono(a: int, b: int, k: int)
    requires a <= b && 0 <= k
    ensures a * k <= b * k
  {
  }

  /** Truncating division keeps a quotient between the bounds it divides. */
  lemma TruncDivBetween(n: int, d: int, lo: int, hi: int)
    requires d > 0
    requires lo * d <= n <= hi * d
    ensures lo <= TruncDiv(n, d) <= hi
  {
    TruncParts(n, d);
    var q := TruncDiv(n, d);
    FactorOrder(q, hi, d);
    FactorOrder(lo, q, d);
  }

  lemma TruncParts(n: int, d: int)
    requires d > 0
    ensures n >= 0 ==> TruncDiv(n, d) * d <= n < TruncDiv(n, d) * d + d
    ensures n <= 0 ==> TruncDiv(n, d) * d - d < n <= TruncDiv(n, d) * d
  {
  }

  lemma TruncDivMono(m: int, n: int, d: int)
    requires d > 0 && m <= n
    ensures TruncDiv(m, d) <= TruncDiv(n, d)
  {
    TruncParts(m, d);
    TruncParts(n, d);
    var p, q := TruncDiv(m, d), TruncDiv(n, d);
    if (m >= 0) == (n >= 0) { FactorOrder(p, q, d); }
  }

  /** Quotient and remainder are determined by n == q * d + r with 0 <= r < d. */
  lemma DivModIs(n: int, d: int, q: int, r: int)
    requires 0 <= r < d && n == q * d + r
    ensures n / d == q && n % d == r
  {
    FactorOrder(n / d, q, d);
    FactorOrder(q, n / d, d);
  }
}
