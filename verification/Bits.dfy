/** C bitwise operators on unsigned integers, defined bit by bit over the naturals. */
module Bits {
  function Xor(a: nat, b: nat): nat
    decreases a + b
  {
    if a == 0 && b == 0 then 0
    else 2 * Xor(a / 2, b / 2) + if a % 2 != b % 2 then 1 else 0
  }

  function And(a: nat, b: nat): nat {
    if a == 0 || b == 0 then 0
    else 2 * And(a / 2, b / 2) + if a % 2 == 1 && b % 2 == 1 then 1 else 0
  }

  function Or(a: nat, b: nat): nat
    decreases a + b
  {
    if a == 0 && b == 0 then 0
    else 2 * Or(a / 2, b / 2) + if a % 2 == 1 || b % 2 == 1 then 1 else 0
  }

  /** a << n, without truncation. */
  function Shl(a: nat, n: nat): nat { if n == 0 then a else 2 * Shl(a, n - 1) }

  /** a >> n. */
  function Shr(a: nat, n: nat): nat { if n == 0 then a else Shr(a, n - 1) / 2 }

  lemma {:induction false} XorZero(a: nat)
    ensures Xor(a, 0) == a && Xor(0, a) == a
  {
    if a > 0 { XorZero(a / 2); }
  }

  lemma {:induction false} XorSelf(a: nat)
    ensures Xor(a, a) == 0
  {
    if a > 0 { XorSelf(a / 2); }
  }

  lemma {:induction false} XorComm(a: nat, b: nat)
    ensures Xor(a, b) == Xor(b, a)
    decreases a + b
  {
    if a != 0 || b != 0 { XorComm(a / 2, b / 2); }
  }

  /** The number with upper bits a and lowest bit p. */
  function Join(a: nat, p: bool): nat { 2 * a + if p then 1 else 0 }

  lemma Halves(a: nat)
    ensures a == Join(a / 2, a % 2 == 1)
  {
  }

  lemma XorJoin(a: nat, p: bool, b: nat, q: bool)
    ensures Xor(Join(a, p), Join(b, q)) == Join(Xor(a, b), p != q)
  {
    var x, y := Join(a, p), Join(b, q);
    assert x / 2 == a && y / 2 == b;
  }

  lemma {:induction false} XorAssoc(a: nat, b: nat, c: nat)
    ensures Xor(Xor(a, b), c) == Xor(a, Xor(b, c))
    decreases a + b + c
  {
    if a + b + c > 0 {
      XorAssoc(a / 2, b / 2, c / 2);
      XorAssocJoin(a / 2, a % 2 == 1, b / 2, b % 2 == 1, c / 2, c % 2 == 1);
      Halves(a);
      Halves(b);
      Halves(c);
    }
  }

  lemma XorAssocJoin(a: nat, p: bool, b: nat, q: bool, c: nat, r: bool)
    requires Xor(Xor(a, b), c) == Xor(a, Xor(b, c))
    ensures Xor(Xor(Join(a, p), Join(b, q)), Join(c, r)) == Xor(Join(a, p), Xor(Join(b, q), Join(c, r)))
  {
    XorJoin(a, p, b, q);
    XorJoin(Xor(a, b), p != q, c, r);
    XorJoin(b, q, c, r);
    XorJoin(a, p, Xor(b, c), q != r);
  }

  /** Two different words never cancel. */
  lemma {:induction false} XorIsZero(a: nat, b: nat)
    requires Xor(a, b) == 0
    ensures a == b
    decreases a + b
  {
    if a != 0 || b != 0 { XorIsZero(a / 2, b / 2); }
  }

  lemma XorCancel(w: nat, a: nat, b: nat)
    requires Xor(w, a) == Xor(w, b)
    ensures a == b
  {
    XorAssoc(w, w, a);
    XorAssoc(w, w, b);
    XorSelf(w);
    XorZero(a);
    XorZero(b);
  }

  /** (a ^ b) ^ (c ^ d) regrouped. */
  lemma XorSwap(a: nat, b: nat, c: nat, d: nat)
    ensures Xor(Xor(a, b), Xor(c, d)) == Xor(Xor(a, c), Xor(b, d))
  {
    XorAssoc(a, b, Xor(c, d));
    XorAssoc(b, c, d);
    XorComm(b, c);
    XorAssoc(c, b, d);
    XorAssoc(a, c, Xor(b, d));
  }

  lemma {:induction false} ShlProduct(a: nat, n: nat)
    ensures Shl(a, n) == a * Shl(1, n)
  {
    if n > 0 { ShlProduct(a, n - 1); }
  }

  /** XOR acts separately on the part above bit n and the part below it. */
  lemma {:induction false} XorSplit(a: nat, b: nat, c: nat, d: nat, n: nat)
    requires b < Shl(1, n) && d < Shl(1, n)
    ensures Xor(Shl(a, n) + b, Shl(c, n) + d) == Shl(Xor(a, c), n) + Xor(b, d)
    ensures Xor(b, d) < Shl(1, n)
  {
    if n > 0 {
      ShlNext(n);
      XorSplit(a, b / 2, c, d / 2, n - 1);
      XorSplitNext(a, b, c, d, n);
    }
  }

  lemma ShlNext(n: nat)
    requires n > 0
    ensures Shl(1, n) == 2 * Shl(1, n - 1)
  {
  }

  lemma XorSplitNext(a: nat, b: nat, c: nat, d: nat, n: nat)
    requires n > 0 && b / 2 < Shl(1, n - 1) && d / 2 < Shl(1, n - 1)
    requires Xor(Shl(a, n - 1) + b / 2, Shl(c, n - 1) + d / 2) == Shl(Xor(a, c), n - 1) + Xor(b / 2, d / 2)
    requires Xor(b / 2, d / 2) < Shl(1, n - 1)
    ensures Xor(Shl(a, n) + b, Shl(c, n) + d) == Shl(Xor(a, c), n) + Xor(b, d)
    ensures Xor(b, d) < Shl(1, n)
  {
    Halves(b);
    Halves(d);
    XorSplitJoin(a, b / 2, b % 2 == 1, b, c, d / 2, d % 2 == 1, d, n - 1);
  }

  lemma XorSplitJoin(a: nat, b: nat, p: bool, x: nat, c: nat, d: nat, q: bool, y: nat, n: nat)
    requires b < Shl(1, n) && d < Shl(1, n) && x == Join(b, p) && y == Join(d, q)
    requires Xor(Shl(a, n) + b, Shl(c, n) + d) == Shl(Xor(a, c), n) + Xor(b, d)
    requires Xor(b, d) < Shl(1, n)
    ensures Xor(Shl(a, n + 1) + x, Shl(c, n + 1) + y) == Shl(Xor(a, c), n + 1) + Xor(x, y)
    ensures Xor(x, y) < Shl(1, n + 1)
  {
    XorJoin(Shl(a, n) + b, p, Shl(c, n) + d, q);
    XorJoin(b, p, d, q);
    assert Shl(a, n + 1) + Join(b, p) == Join(Shl(a, n) + b, p);
    assert Shl(c, n + 1) + Join(d, q) == Join(Shl(c, n) + d, q);
  }
}
