/** The bitwise operators of Bits, position by position. */
module BitLaws {
  import opened CInt
  import opened Bits

  /** Bit i of a number, counted from the lowest. */
  predicate Bit(x: nat, i: nat)
    decreases i
  {
    if i == 0 then x % 2 == 1 else Bit(x / 2, i - 1)
  }

  lemma {:induction false} BitXor(a: nat, b: nat, i: nat)
    ensures Bit(Xor(a, b), i) == (Bit(a, i) != Bit(b, i))
    decreases i
  {
    XorHalves(a, b);
    if i > 0 { BitXor(a / 2, b / 2, i - 1); }
  }

  lemma XorHalves(a: nat, b: nat)
    ensures Xor(a, b) / 2 == Xor(a / 2, b / 2) && Xor(a, b) % 2 == if a % 2 != b % 2 then 1 else 0
  {
    if a == 0 && b == 0 {
    } else {
      DivModIs(Xor(a, b), 2, Xor(a / 2, b / 2), if a % 2 != b % 2 then 1 else 0);
    }
  }

  lemma {:induction false} BitAnd(a: nat, b: nat, i: nat)
    ensures Bit(And(a, b), i) == (Bit(a, i) && Bit(b, i))
    decreases i
  {
    AndHalves(a, b);
    if i > 0 { BitAnd(a / 2, b / 2, i - 1); }
  }

  lemma AndHalves(a: nat, b: nat)
    ensures And(a, b) / 2 == And(a / 2, b / 2) && And(a, b) % 2 == if a % 2 == 1 && b % 2 == 1 then 1 else 0
  {
    if a != 0 && b != 0 {
      DivModIs(And(a, b), 2, And(a / 2, b / 2), if a % 2 == 1 && b % 2 == 1 then 1 else 0);
    }
  }

  lemma {:induction false} BitOr(a: nat, b: nat, i: nat)
    ensures Bit(Or(a, b), i) == (Bit(a, i) || Bit(b, i))
    decreases i
  {
    OrHalves(a, b);
    if i > 0 { BitOr(a / 2, b / 2, i - 1); }
  }

  lemma OrHalves(a: nat, b: nat)
    ensures Or(a, b) / 2 == Or(a / 2, b / 2) && Or(a, b) % 2 == if a % 2 == 1 || b % 2 == 1 then 1 else 0
  {
    if a != 0 || b != 0 {
      DivModIs(Or(a, b), 2, Or(a / 2, b / 2), if a % 2 == 1 || b % 2 == 1 then 1 else 0);
    }
  }

  lemma {:induction false} BitShr(x: nat, n: nat, i: nat)
    ensures Bit(Shr(x, n), i) == Bit(x, i + n)
  {
    if n > 0 { BitShr(x, n - 1, i + 1); }
  }

  lemma {:induction false} BitShl(x: nat, n: nat, i: nat)
    ensures Bit(Shl(x, n), i) == (i >= n && Bit(x, i - n))
  {
    if n > 0 && i > 0 { BitShl(x, n - 1, i - 1); }
  }

  /** A number below 2^n has no bit from n on. */
  lemma {:induction false} NoBitAbove(x: nat, n: nat, i: nat)
    requires x < Shl(1, n) && i >= n
    ensures !Bit(x, i)
    decreases i
  {
    if n > 0 { NoBitAbove(x / 2, n - 1, i - 1); } else if i > 0 { NoBitAbove(0, 0, i - 1); }
  }

  /** Truncation to n bits keeps the bits below n. */
  lemma {:induction false} BitMod(x: nat, n: nat, i: nat)
    requires i < n
    ensures Shl(1, n) > 0 && Bit(x % Shl(1, n), i) == Bit(x, i)
    decreases i
  {
    ShlPositive(n);
    ModHalves(x, n);
    if i > 0 { BitMod(x / 2, n - 1, i - 1); }
  }

  lemma {:induction false} ShlPositive(n: nat)
    ensures Shl(1, n) > 0
  {
    if n > 0 { ShlPositive(n - 1); }
  }

  lemma ModHalves(x: nat, n: nat)
    requires n > 0 && Shl(1, n - 1) > 0
    ensures (x % Shl(1, n)) / 2 == (x / 2) % Shl(1, n - 1) && (x % Shl(1, n)) % 2 == x % 2
  {
    var p := Shl(1, n - 1);
    var q, r := x / (2 * p), x % (2 * p);
    assert x == q * (2 * p) + r;
    Regrouped(q, p);
    DivModIs(x / 2, p, q, r / 2);
  }

  lemma Regrouped(q: int, p: int)
    ensures q * (2 * p) == 2 * (q * p)
  {
  }

  lemma NotHalves(x: nat, n: nat)
    requires n > 0 && x < Shl(1, n)
    ensures x / 2 < Shl(1, n - 1) && (Shl(1, n) - 1 - x) / 2 == Shl(1, n - 1) - 1 - x / 2
    ensures (Shl(1, n) - 1 - x) % 2 == 1 - x % 2
  {
    DivModIs(Shl(1, n) - 1 - x, 2, Shl(1, n - 1) - 1 - x / 2, 1 - x % 2);
  }

  /** The complement within n bits. */
  lemma {:induction false} BitNot(x: nat, n: nat, i: nat)
    requires x < Shl(1, n) && i < n
    ensures Bit(Shl(1, n) - 1 - x, i) == !Bit(x, i)
    decreases i
  {
    NotHalves(x, n);
    if i > 0 { BitNot(x / 2, n - 1, i - 1); }
  }

  lemma {:induction false} XorBelow(a: nat, b: nat, n: nat)
    requires a < Shl(1, n) && b < Shl(1, n)
    ensures Xor(a, b) < Shl(1, n)
  {
    if n > 0 { XorBelow(a / 2, b / 2, n - 1); }
  }

  lemma {:induction false} OrBelow(a: nat, b: nat, n: nat)
    requires a < Shl(1, n) && b < Shl(1, n)
    ensures Or(a, b) < Shl(1, n)
  {
    if n > 0 { OrBelow(a / 2, b / 2, n - 1); }
  }

  lemma {:induction false} AndBelow(a: nat, b: nat, n: nat)
    requires a < Shl(1, n)
    ensures And(a, b) < Shl(1, n)
  {
    if n > 0 { AndBelow(a / 2, b / 2, n - 1); }
  }

  lemma {:induction false} ShrBelow(x: nat, n: nat)
    ensures Shr(x, n) <= x
  {
    if n > 0 { ShrBelow(x, n - 1); }
  }

  // ----- Numbers given bit by bit

  /** The number whose bits are f(from), f(from + 1), ..., n of them. */
  ghost function FromBits(f: nat -> bool, from: nat, n: nat): (x: nat)
    ensures x < Shl(1, n)
    decreases n
  {
    if n == 0 then 0 else (if f(from) then 1 else 0) + 2 * FromBits(f, from + 1, n - 1)
  }

  lemma {:induction false} BitFromBits(f: nat -> bool, from: nat, n: nat, i: nat)
    requires i < n
    ensures Bit(FromBits(f, from, n), i) == f(from + i)
    decreases n
  {
    if i > 0 { BitFromBits(f, from + 1, n - 1, i - 1); }
  }

  lemma {:induction false} SameBits(a: nat, b: nat, n: nat)
    requires a < Shl(1, n) && b < Shl(1, n) && forall i: nat :: i < n ==> Bit(a, i) == Bit(b, i)
    ensures a == b
  {
    if n > 0 {
      assert Bit(a, 0) == Bit(b, 0);
      forall i: nat | i < n - 1 ensures Bit(a / 2, i) == Bit(b / 2, i) {
        var j := i + 1;
        assert Bit(a, j) == Bit(b, j);
      }
      SameBits(a / 2, b / 2, n - 1);
    }
  }
}
