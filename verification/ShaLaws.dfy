/** What one block of SHA-256 computes, bit by bit and from the first primes (sections 4.1.2, 4.2.2, 5.3.3 and
    6.2.2 of FIPS 180-4; support/sha256.c:14-73). */
module ShaLaws {
  import opened CInt
  import opened Bits
  import opened BitLaws
  import opened Sha256

  // ----- The six functions, by bit position

  ghost predicate HasBits(x: nat, f: nat -> bool) { forall i: nat :: i < 32 ==> Bit(x, i) == f(i) }

  /** The 32-bit word with the given bits. */
  ghost function Word(f: nat -> bool): (x: u32)
    ensures HasBits(x, f)
  {
    WordExists(f, 32);
    var x: u32 :| HasBits(x, f);
    x
  }

  lemma WordExists(f: nat -> bool, n: nat)
    requires n == 32
    ensures exists x: u32 :: HasBits(x, f)
  {
    Widths();
    var x: u32 := FromBits(f, 0, n);
    forall i: nat | i < 32 ensures Bit(x, i) == f(i) { BitFromBits(f, 0, n, i); }
    assert HasBits(x, f);
  }

  lemma Widths()
    ensures Shl(1, 32) == WORD
  {
    assert Shl(1, 8) == 0x100;
    assert Shl(1, 16) == 0x1_0000;
    assert Shl(1, 24) == 0x100_0000;
  }

  lemma IsWord(x: nat, f: nat -> bool)
    requires x < WORD && HasBits(x, f)
    ensures x == Word(f)
  {
    Widths();
    SameBits(x, Word(f), 32);
  }

  /** Bit i of a rotation to the right by n. */
  predicate Rot(x: nat, n: nat, i: nat) { Bit(x, (i + n) % 32) }

  /** Bit i of a shift to the right by n: zeros come in from the left. */
  predicate Moved(x: nat, n: nat, i: nat) { i + n < 32 && Bit(x, i + n) }

  predicate Odd(a: bool, b: bool, c: bool) { (a != b) != c }

  lemma RotrBit(x: u32, n: nat, i: nat)
    requires 0 < n < 32 && i < 32
    ensures Rotr(x, n) < WORD && Bit(Rotr(x, n), i) == Rot(x, n, i)
  {
    Widths();
    ShrBelow(x, n);
    OrBelow(Shr(x, n), Shl(x, 32 - n) % WORD, 32);
    BitOr(Shr(x, n), Shl(x, 32 - n) % WORD, i);
    BitShr(x, n, i);
    BitMod(Shl(x, 32 - n), 32, i);
    BitShl(x, 32 - n, i);
    if i + n >= 32 {
      NoBitAbove(x, 32, i + n);
      DivModIs(i + n, 32, 1, i + n - 32);
    } else {
      DivModIs(i + n, 32, 0, i + n);
    }
  }

  lemma ShrBit(x: u32, n: nat, i: nat)
    ensures Shr(x, n) < WORD && Bit(Shr(x, n), i) == Moved(x, n, i)
  {
    Widths();
    ShrBelow(x, n);
    BitShr(x, n, i);
    if i + n >= 32 { NoBitAbove(x, 32, i + n); }
  }

  /** XOR of three words, bit by bit. */
  lemma Xor3(a: u32, b: u32, c: u32, i: nat)
    ensures Xor(Xor(a, b), c) < WORD && Bit(Xor(Xor(a, b), c), i) == Odd(Bit(a, i), Bit(b, i), Bit(c, i))
  {
    Widths();
    XorBelow(a, b, 32);
    XorBelow(Xor(a, b), c, 32);
    BitXor(a, b, i);
    BitXor(Xor(a, b), c, i);
  }

  ghost function RotBits(x: nat, n: nat): nat -> bool { (i: nat) => Rot(x, n, i) }

  /** The rotation, for every distance. */
  lemma RotationLaw(x: u32, n: nat)
    requires 0 < n < 32
    ensures Rotr(x, n) == Word(RotBits(x, n))
  {
    forall i: nat | i < 32 ensures Bit(Rotr(x, n), i) == RotBits(x, n)(i) { RotrBit(x, n, i); }
    RotrBit(x, n, 0);
    IsWord(Rotr(x, n), RotBits(x, n));
  }

  ghost function Rot3Bits(x: nat, a: nat, b: nat, c: nat): nat -> bool {
    (i: nat) => Odd(Rot(x, a, i), Rot(x, b, i), Rot(x, c, i))
  }

  ghost function Rot2ShiftBits(x: nat, a: nat, b: nat, c: nat): nat -> bool {
    (i: nat) => Odd(Rot(x, a, i), Rot(x, b, i), Moved(x, c, i))
  }

  lemma Rot3Law(x: u32, a: nat, b: nat, c: nat)
    requires 0 < a < 32 && 0 < b < 32 && 0 < c < 32
    ensures Xor(Xor(Rotr(x, a), Rotr(x, b)), Rotr(x, c)) == Word(Rot3Bits(x, a, b, c))
  {
    var r := Xor(Xor(Rotr(x, a), Rotr(x, b)), Rotr(x, c));
    forall i: nat | i < 32 ensures r < WORD && Bit(r, i) == Rot3Bits(x, a, b, c)(i) { Rot3Bit(x, a, b, c, i); }
    Rot3Bit(x, a, b, c, 0);
    IsWord(r, Rot3Bits(x, a, b, c));
  }

  lemma Rot3Bit(x: u32, a: nat, b: nat, c: nat, i: nat)
    requires 0 < a < 32 && 0 < b < 32 && 0 < c < 32 && i < 32
    ensures var r := Xor(Xor(Rotr(x, a), Rotr(x, b)), Rotr(x, c));
            r < WORD && Bit(r, i) == Odd(Rot(x, a, i), Rot(x, b, i), Rot(x, c, i))
  {
    RotrBit(x, a, i);
    RotrBit(x, b, i);
    RotrBit(x, c, i);
    Xor3(Rotr(x, a), Rotr(x, b), Rotr(x, c), i);
  }

  lemma Rot2ShiftLaw(x: u32, a: nat, b: nat, c: nat)
    requires 0 < a < 32 && 0 < b < 32
    ensures Xor(Xor(Rotr(x, a), Rotr(x, b)), Shr(x, c)) == Word(Rot2ShiftBits(x, a, b, c))
  {
    var r := Xor(Xor(Rotr(x, a), Rotr(x, b)), Shr(x, c));
    forall i: nat | i < 32 ensures r < WORD && Bit(r, i) == Rot2ShiftBits(x, a, b, c)(i) {
      Rot2ShiftBit(x, a, b, c, i);
    }
    Rot2ShiftBit(x, a, b, c, 0);
    IsWord(r, Rot2ShiftBits(x, a, b, c));
  }

  lemma Rot2ShiftBit(x: u32, a: nat, b: nat, c: nat, i: nat)
    requires 0 < a < 32 && 0 < b < 32 && i < 32
    ensures var r := Xor(Xor(Rotr(x, a), Rotr(x, b)), Shr(x, c));
            r < WORD && Bit(r, i) == Odd(Rot(x, a, i), Rot(x, b, i), Moved(x, c, i))
  {
    RotrBit(x, a, i);
    RotrBit(x, b, i);
    ShrBit(x, c, i);
    Xor3(Rotr(x, a), Rotr(x, b), Shr(x, c), i);
  }

  ghost function RefBigSigma0(x: u32): u32 { Word(Rot3Bits(x, 2, 13, 22)) }

  ghost function RefBigSigma1(x: u32): u32 { Word(Rot3Bits(x, 6, 11, 25)) }

  ghost function RefLilSigma0(x: u32): u32 { Word(Rot2ShiftBits(x, 7, 18, 3)) }

  ghost function RefLilSigma1(x: u32): u32 { Word(Rot2ShiftBits(x, 17, 19, 10)) }

  /** The four sigmas are the XORs of three bits of x that section 4.1.2 names. */
  lemma SigmaLaw(x: u32)
    ensures BigSigma0(x) == RefBigSigma0(x) && BigSigma1(x) == RefBigSigma1(x)
    ensures LilSigma0(x) == RefLilSigma0(x) && LilSigma1(x) == RefLilSigma1(x)
  {
    Rot3Law(x, 2, 13, 22);
    Rot3Law(x, 6, 11, 25);
    Rot2ShiftLaw(x, 7, 18, 3);
    Rot2ShiftLaw(x, 17, 19, 10);
  }

  /** Each bit of x chooses between those of y and z. */
  ghost function ChBits(x: nat, y: nat, z: nat): nat -> bool { (i: nat) => if Bit(x, i) then Bit(y, i) else Bit(z, i) }

  ghost function RefCh(x: u32, y: u32, z: u32): u32 { Word(ChBits(x, y, z)) }

  lemma ChoiceLaw(x: u32, y: u32, z: u32)
    ensures Ch(x, y, z) == RefCh(x, y, z)
  {
    forall i: nat | i < 32 ensures Ch(x, y, z) < WORD && Bit(Ch(x, y, z), i) == ChBits(x, y, z)(i) {
      ChBit(x, y, z, i);
    }
    ChBit(x, y, z, 0);
    IsWord(Ch(x, y, z), ChBits(x, y, z));
  }

  lemma ChBit(x: u32, y: u32, z: u32, i: nat)
    requires i < 32
    ensures Ch(x, y, z) < WORD && Bit(Ch(x, y, z), i) == if Bit(x, i) then Bit(y, i) else Bit(z, i)
  {
    Widths();
    var w: u32 := 0xFFFF_FFFF - x;
    AndBelow(x, y, 32);
    AndBelow(w, z, 32);
    XorBelow(And(x, y), And(w, z), 32);
    BitNot(x, 32, i);
    BitAnd(x, y, i);
    BitAnd(w, z, i);
    BitXor(And(x, y), And(w, z), i);
  }

  /** Each bit is the majority of the three. */
  ghost function MajBits(x: nat, y: nat, z: nat): nat -> bool {
    (i: nat) => (Bit(x, i) && Bit(y, i)) || (Bit(x, i) && Bit(z, i)) || (Bit(y, i) && Bit(z, i))
  }

  ghost function RefMaj(x: u32, y: u32, z: u32): u32 { Word(MajBits(x, y, z)) }

  lemma MajorityLaw(x: u32, y: u32, z: u32)
    ensures Maj(x, y, z) == RefMaj(x, y, z)
  {
    forall i: nat | i < 32 ensures Maj(x, y, z) < WORD && Bit(Maj(x, y, z), i) == MajBits(x, y, z)(i) {
      MajBit(x, y, z, i);
    }
    MajBit(x, y, z, 0);
    IsWord(Maj(x, y, z), MajBits(x, y, z));
  }

  lemma MajBit(x: u32, y: u32, z: u32, i: nat)
    ensures Maj(x, y, z) < WORD && Bit(Maj(x, y, z), i) == MajBits(x, y, z)(i)
  {
    Widths();
    AndBelow(x, y, 32);
    AndBelow(x, z, 32);
    AndBelow(y, z, 32);
    Xor3(And(x, y), And(x, z), And(y, z), i);
    BitAnd(x, y, i);
    BitAnd(x, z, i);
    BitAnd(y, z, i);
  }

  // ----- The constants

  /** k is the first 32 bits of the fraction of the cube root of p, root its integer part:
      root.k <= cbrt(p) < root.k + 2^-32. */
  predicate CubeRootBits(p: nat, root: nat, k: u32) {
    var n := root * 0x1_0000_0000 + k;
    n * n * n <= p * 0x1_0000_0000_0000_0000_0000_0000 < (n + 1) * (n + 1) * (n + 1)
  }

  predicate SquareRootBits(p: nat, root: nat, k: u32) {
    var n := root * 0x1_0000_0000 + k;
    n * n <= p * 0x1_0000_0000_0000_0000 < (n + 1) * (n + 1)
  }

  // The first 64 primes and the integer parts of their cube roots, eight to a row.
  const P0: seq<nat> := [2, 3, 5, 7, 11, 13, 17, 19]
  const P1: seq<nat> := [23, 29, 31, 37, 41, 43, 47, 53]
  const P2: seq<nat> := [59, 61, 67, 71, 73, 79, 83, 89]
  const P3: seq<nat> := [97, 101, 103, 107, 109, 113, 127, 131]
  const P4: seq<nat> := [137, 139, 149, 151, 157, 163, 167, 173]
  const P5: seq<nat> := [179, 181, 191, 193, 197, 199, 211, 223]
  const P6: seq<nat> := [227, 229, 233, 239, 241, 251, 257, 263]
  const P7: seq<nat> := [269, 271, 277, 281, 283, 293, 307, 311]
  const PRIMES: seq<nat> := ((P0 + P1) + (P2 + P3)) + ((P4 + P5) + (P6 + P7))
  const R0: seq<nat> := [1, 1, 1, 1, 2, 2, 2, 2]
  const R1: seq<nat> := [2, 3, 3, 3, 3, 3, 3, 3]
  const R2: seq<nat> := [3, 3, 4, 4, 4, 4, 4, 4]
  const R3: seq<nat> := [4, 4, 4, 4, 4, 4, 5, 5]
  const R4: seq<nat> := [5, 5, 5, 5, 5, 5, 5, 5]
  const R5: seq<nat> := [5, 5, 5, 5, 5, 5, 5, 6]
  const R6: seq<nat> := [6, 6, 6, 6, 6, 6, 6, 6]
  const R7: seq<nat> := [6, 6, 6, 6, 6, 6, 6, 6]
  const ROOTS: seq<nat> := ((R0 + R1) + (R2 + R3)) + ((R4 + R5) + (R6 + R7))

  /** Eight round constants belong to eight primes, whose cube roots have these integer parts. */
  predicate RootsOf(primes: seq<nat>, roots: seq<nat>, k: seq<u32>) {
    |primes| == |roots| == |k| == 8 &&
    CubeRootBits(primes[0], roots[0], k[0]) && CubeRootBits(primes[1], roots[1], k[1]) &&
    CubeRootBits(primes[2], roots[2], k[2]) && CubeRootBits(primes[3], roots[3], k[3]) &&
    CubeRootBits(primes[4], roots[4], k[4]) && CubeRootBits(primes[5], roots[5], k[5]) &&
    CubeRootBits(primes[6], roots[6], k[6]) && CubeRootBits(primes[7], roots[7], k[7])
  }

  lemma Row0()
    ensures RootsOf(P0, R0, K0)
  {
  }

  lemma Row1()
    ensures RootsOf(P1, R1, K1)
  {
  }

  lemma Row2()
    ensures RootsOf(P2, R2, K2)
  {
  }

  lemma Row3()
    ensures RootsOf(P3, R3, K3)
  {
  }

  lemma Row4()
    ensures RootsOf(P4, R4, K4)
  {
  }

  lemma Row5()
    ensures RootsOf(P5, R5, K5)
  {
  }

  lemma Row6()
    ensures RootsOf(P6, R6, K6)
  {
  }

  lemma Row7()
    ensures RootsOf(P7, R7, K7)
  {
  }

  lemma KeyRows()
    ensures |K| == 64
    ensures K[..8] == K0 && K[8..16] == K1 && K[16..24] == K2 && K[24..32] == K3
    ensures K[32..40] == K4 && K[40..48] == K5 && K[48..56] == K6 && K[56..64] == K7
  {
  }

  lemma PrimeRows()
    ensures |PRIMES| == 64
    ensures PRIMES[..8] == P0 && PRIMES[8..16] == P1 && PRIMES[16..24] == P2 && PRIMES[24..32] == P3
    ensures PRIMES[32..40] == P4 && PRIMES[40..48] == P5 && PRIMES[48..56] == P6 && PRIMES[56..64] == P7
  {
  }

  lemma RootRows()
    ensures |ROOTS| == 64
    ensures ROOTS[..8] == R0 && ROOTS[8..16] == R1 && ROOTS[16..24] == R2 && ROOTS[24..32] == R3
    ensures ROOTS[32..40] == R4 && ROOTS[40..48] == R5 && ROOTS[48..56] == R6 && ROOTS[56..64] == R7
  {
  }

  /** Row r of the round constants belongs to row r of the primes. */
  predicate RowIs(r: nat) {
    8 * r + 8 <= |K| == |PRIMES| == |ROOTS| &&
    RootsOf(PRIMES[8 * r..8 * r + 8], ROOTS[8 * r..8 * r + 8], K[8 * r..8 * r + 8])
  }

  /** The round constants are the first 32 fractional bits of the cube roots of the first 64 primes. */
  lemma RoundConstants(r: nat)
    requires r < 8
    ensures |K| == 64 && RowIs(r)
  {
    KeyRows();
    PrimeRows();
    RootRows();
    if r < 4 {
      Row0();
      Row1();
      Row2();
      Row3();
    } else {
      Row4();
      Row5();
      Row6();
      Row7();
    }
    Cases(r);
  }

  lemma Cases(r: nat)
    requires r < 8
    ensures r == 0 || r == 1 || r == 2 || r == 3 || r == 4 || r == 5 || r == 6 || r == 7
  {
  }

  /** The initial hash value is the first 32 fractional bits of the square roots of the first 8 primes. */
  lemma InitialValue()
    ensures SquareRootBits(2, 1, H0.a) && SquareRootBits(3, 1, H0.b) && SquareRootBits(5, 2, H0.c)
    ensures SquareRootBits(7, 2, H0.d) && SquareRootBits(11, 3, H0.e) && SquareRootBits(13, 3, H0.f)
    ensures SquareRootBits(17, 4, H0.g) && SquareRootBits(19, 4, H0.h)
  {
  }

  // ----- One block, as two delayed recurrences over words pinned above

  lemma ModSum(x: int, y: int)
    ensures (x % WORD + y) % WORD == (x + y) % WORD && (x + y % WORD) % WORD == (x + y) % WORD
  {
    ModShifts(x % WORD + y, x / WORD);
    ModShifts(x + y % WORD, y / WORD);
  }

  lemma ModShifts(x: int, q: int)
    ensures x % WORD == (x + q * WORD) % WORD
  {
    DivModIs(x + q * WORD, WORD, x / WORD + q, x % WORD);
  }

  /** The number a string of bytes spells, most significant first. */
  ghost function Value(s: seq<u8>): nat { if |s| == 0 then 0 else 0x100 * Value(s[..|s| - 1]) + s[|s| - 1] }

  /** Section 6.2.2: sixteen words of the block, then each from four earlier ones. */
  ghost function RefW(b: Block, t: nat): u32 {
    if t < 16 then RefWord(b, t)
    else (RefLilSigma1(RefW(b, t - 2)) + RefW(b, t - 7) + RefLilSigma0(RefW(b, t - 15)) + RefW(b, t - 16)) % WORD
  }

  ghost function RefWord(b: Block, t: nat): u32
    requires t < 16
  {
    FourBytes(b[4 * t..4 * t + 4]);
    Value(b[4 * t..4 * t + 4])
  }

  lemma FourBytes(s: seq<u8>)
    requires |s| == 4
    ensures Value(s) == 0x100_0000 * s[0] as int + 0x1_0000 * s[1] as int + 0x100 * s[2] as int + s[3] as int
  {
    assert s[..3][..2] == s[..2] && s[..2][..1] == s[..1] && s[..1][..0] == [];
    assert Value(s[..1]) == s[0];
    assert Value(s[..2]) == 0x100 * s[0] as int + s[1] as int;
  }

  lemma MixLaw(w2: u32, w7: u32, w15: u32, w16: u32)
    ensures Mix(w2, w7, w15, w16) == (RefLilSigma1(w2) + w7 + RefLilSigma0(w15) + w16) % WORD
  {
    SigmaLaw(w2);
    SigmaLaw(w15);
  }

  lemma {:induction false} ScheduleLaw(b: Block, t: nat)
    ensures W(b, t) == RefW(b, t)
  {
    if t < 16 {
      FirstWords(b, t);
    } else {
      ScheduleLaw(b, t - 2);
      ScheduleLaw(b, t - 7);
      ScheduleLaw(b, t - 15);
      ScheduleLaw(b, t - 16);
      LaterWords(b, t);
    }
  }

  lemma FirstWords(b: Block, t: nat)
    requires t < 16
    ensures W(b, t) == RefW(b, t)
  {
    FourBytes(b[4 * t..4 * t + 4]);
  }

  lemma LaterWords(b: Block, t: nat)
    requires t >= 16 && W(b, t - 2) == RefW(b, t - 2) && W(b, t - 7) == RefW(b, t - 7)
    requires W(b, t - 15) == RefW(b, t - 15) && W(b, t - 16) == RefW(b, t - 16)
    ensures W(b, t) == RefW(b, t)
  {
    MixLaw(W(b, t - 2), W(b, t - 7), W(b, t - 15), W(b, t - 16));
  }

  /** The values register a has held, starting with d, c, b and a of the incoming hash. */
  ghost function A(v: Vars, b: Block, n: nat): u32
    requires n < 68
    decreases n, 1
  {
    if n == 0 then v.d else if n == 1 then v.c else if n == 2 then v.b else if n == 3 then v.a
    else
      (T1(v, b, n) + RefBigSigma0(A(v, b, n - 1)) + RefMaj(A(v, b, n - 1), A(v, b, n - 2), A(v, b, n - 3))) % WORD
  }

  /** The values register e has held, starting with h, g, f and e. */
  ghost function E(v: Vars, b: Block, n: nat): u32
    requires n < 68
    decreases n, 1
  {
    if n == 0 then v.h else if n == 1 then v.g else if n == 2 then v.f else if n == 3 then v.e
    else (A(v, b, n - 4) + T1(v, b, n)) % WORD
  }

  ghost function T1(v: Vars, b: Block, n: nat): nat
    requires 4 <= n < 68
    decreases n, 0
  {
    var e := E(v, b, n - 1);
    E(v, b, n - 4) + RefBigSigma1(e) + RefCh(e, E(v, b, n - 2), E(v, b, n - 3)) + K[n - 4] + RefW(b, n - 4)
  }

  /** Register b is a one round ago, c two, d three; f, g and h likewise of e. */
  ghost function Registers(v: Vars, b: Block, n: nat): Vars
    requires 3 <= n < 68
  {
    Vars(A(v, b, n), A(v, b, n - 1), A(v, b, n - 2), A(v, b, n - 3),
         E(v, b, n), E(v, b, n - 1), E(v, b, n - 2), E(v, b, n - 3))
  }

  lemma NextRound(v: Vars, w: seq<u32>, t: nat)
    requires t < |w| == 64
    ensures Rounds(v, w[..t + 1]) == Round(Rounds(v, w[..t]), K[t], w[t])
  {
    assert w[..t + 1][..t] == w[..t];
  }

  lemma {:induction false} RoundsLaw(v: Vars, b: Block, t: nat)
    requires t <= 64
    ensures Rounds(v, Schedule(b)[..t]) == Registers(v, b, t + 3)
  {
    if t > 0 {
      RoundsLaw(v, b, t - 1);
      NextRound(v, Schedule(b), t - 1);
      ScheduleLaw(b, t - 1);
      RoundLaw(v, b, t + 2);
    }
  }

  /** The two words a round makes of the registers. */
  ghost function NewT1(r: Vars, k: u32, w: u32): nat { r.h + RefBigSigma1(r.e) + RefCh(r.e, r.f, r.g) + k + w }

  ghost function NewT2(r: Vars): nat { RefBigSigma0(r.a) + RefMaj(r.a, r.b, r.c) }

  lemma RoundIs(r: Vars, k: u32, w: u32)
    ensures Round(r, k, w) == Vars((NewT1(r, k, w) + NewT2(r)) % WORD, r.a, r.b, r.c,
                                   (r.d + NewT1(r, k, w)) % WORD, r.e, r.f, r.g)
  {
    SigmaLaw(r.a);
    SigmaLaw(r.e);
    ChoiceLaw(r.e, r.f, r.g);
    MajorityLaw(r.a, r.b, r.c);
    RoundSums(NewT1(r, k, w), NewT2(r), r.d);
  }

  lemma RoundSums(t1: nat, t2: nat, d: nat)
    ensures (t1 % WORD + t2 % WORD) % WORD == (t1 + t2) % WORD && (d + t1 % WORD) % WORD == (d + t1) % WORD
  {
    ModSum(t1, t2 % WORD);
    ModSum(t1, t2);
    ModSum(d, t1);
  }

  lemma NextRegisters(v: Vars, b: Block, n: nat)
    requires 3 <= n < 67
    ensures var r := Registers(v, b, n);
            var t1 := NewT1(r, K[n - 3], RefW(b, n - 3));
            Registers(v, b, n + 1) == Vars((t1 + NewT2(r)) % WORD, r.a, r.b, r.c, (r.d + t1) % WORD, r.e, r.f, r.g)
  {
    var r, next := Registers(v, b, n), Registers(v, b, n + 1);
    OneLater(v, b, n);
    T1Is(v, b, n + 1);
    AIs(v, b, n + 1);
    EIs(v, b, n + 1);
    assert next == Vars(next.a, r.a, r.b, r.c, next.e, r.e, r.f, r.g);
  }

  lemma OneLater(v: Vars, b: Block, n: nat)
    requires 3 <= n < 67
    ensures var (r, next) := (Registers(v, b, n), Registers(v, b, n + 1));
            next.a == A(v, b, n + 1) && next.b == r.a && next.c == r.b && next.d == r.c &&
            next.e == E(v, b, n + 1) && next.f == r.e && next.g == r.f && next.h == r.g && r.d == A(v, b, n - 3)
  {
  }

  lemma T1Is(v: Vars, b: Block, n: nat)
    requires 4 <= n < 68
    ensures T1(v, b, n) == NewT1(Registers(v, b, n - 1), K[n - 4], RefW(b, n - 4))
  {
  }

  lemma AIs(v: Vars, b: Block, n: nat)
    requires 4 <= n < 68
    ensures A(v, b, n) == (T1(v, b, n) + NewT2(Registers(v, b, n - 1))) % WORD
  {
  }

  lemma EIs(v: Vars, b: Block, n: nat)
    requires 4 <= n < 68
    ensures E(v, b, n) == (A(v, b, n - 4) + T1(v, b, n)) % WORD
  {
  }

  lemma RoundLaw(v: Vars, b: Block, n: nat)
    requires 3 <= n < 67
    ensures Round(Registers(v, b, n), K[n - 3], RefW(b, n - 3)) == Registers(v, b, n + 1)
  {
    RoundIs(Registers(v, b, n), K[n - 3], RefW(b, n - 3));
    NextRegisters(v, b, n);
  }

  /** The hash after a block is the incoming hash plus the last four values of each register. */
  lemma BlockLaw(v: Vars, b: Block, n: nat)
    requires n == 67
    ensures Compress(v, b) == Add(v, Registers(v, b, n))
  {
    var t := n - 3;
    RoundsLaw(v, b, t);
    assert Schedule(b)[..t] == Schedule(b);
  }

  lemma AddLaw(x: Vars, y: Vars)
    ensures var h := Add(x, y);
            h.a == (x.a + y.a) % WORD && h.b == (x.b + y.b) % WORD && h.c == (x.c + y.c) % WORD &&
            h.d == (x.d + y.d) % WORD && h.e == (x.e + y.e) % WORD && h.f == (x.f + y.f) % WORD &&
            h.g == (x.g + y.g) % WORD && h.h == (x.h + y.h) % WORD
  {
  }

  // ----- Bytes in and out

  lemma {:induction false} BigEndianLaw(v: nat, n: nat)
    ensures Shl(1, 8 * n) > 0 && Value(Be(v, n)) == v % Shl(1, 8 * n)
    decreases n
  {
    ShlPositive(8 * n);
    if n > 0 {
      BigEndianLaw(Shr(v, 8), n - 1);
      BytesShift(v, n);
      EightMore(v, n);
    } else {
      assert v % Shl(1, 8 * n) == 0;
    }
  }

  lemma BytesShift(v: nat, n: nat)
    requires n > 0
    ensures Be(v, n)[..n - 1] == Be(Shr(v, 8), n - 1) && Be(v, n)[n - 1] == v % 0x100
  {
    var m := n - 1;
    forall i | 0 <= i < m ensures Be(v, n)[i] == Be(Shr(v, 8), m)[i] {
      var k := 8 * (m - 1 - i);
      ShrSum(v, 8, k);
      assert Be(v, n)[i] == Shr(v, 8 + k) % 0x100;
    }
    var last := 8 * (n - 1 - m);
    assert last == 0 && Shr(v, last) == v;
  }

  lemma {:induction false} ShrSum(v: nat, m: nat, n: nat)
    ensures Shr(Shr(v, m), n) == Shr(v, m + n)
  {
    if n > 0 { ShrSum(v, m, n - 1); }
  }

  lemma ShrEight(v: nat)
    ensures Shr(v, 8) == v / 0x100
  {
    assert Shr(v, 1) == v / 2;
    assert Shr(v, 2) == v / 4;
    assert Shr(v, 3) == v / 8;
    assert Shr(v, 4) == v / 0x10;
    assert Shr(v, 5) == v / 0x20;
    assert Shr(v, 6) == v / 0x40;
    assert Shr(v, 7) == v / 0x80;
  }

  lemma EightMore(v: nat, n: nat)
    requires n > 0 && Shl(1, 8 * (n - 1)) > 0
    ensures Shl(1, 8 * n) > 0 && v % Shl(1, 8 * n) == 0x100 * (Shr(v, 8) % Shl(1, 8 * (n - 1))) + v % 0x100
  {
    var p := Shl(1, 8 * (n - 1));
    EightShifts(8 * (n - 1));
    ShrEight(v);
    SplitMod(v, p);
  }

  lemma SplitMod(v: nat, p: nat)
    requires p > 0
    ensures v % (0x100 * p) == 0x100 * (v / 0x100 % p) + v % 0x100
  {
    var q, r := v / 0x100 / p, v / 0x100 % p;
    Grouped(q, p);
    DivModIs(v, 0x100 * p, q, 0x100 * r + v % 0x100);
  }

  lemma Grouped(q: int, p: int)
    ensures q * (0x100 * p) == 0x100 * (q * p)
  {
  }

  lemma EightShifts(m: nat)
    ensures Shl(1, m + 8) == 0x100 * Shl(1, m)
  {
    assert Shl(1, m + 2) == 4 * Shl(1, m);
    assert Shl(1, m + 4) == 0x10 * Shl(1, m);
    assert Shl(1, m + 6) == 0x40 * Shl(1, m);
  }

  /** A digest spells the eight words of the hash, four bytes each. */
  lemma DigestWords(h: Vars)
    ensures var d := HashBytes(h);
            |d| == 32 && Value(d[..4]) == h.a && Value(d[4..8]) == h.b && Value(d[8..12]) == h.c &&
            Value(d[12..16]) == h.d && Value(d[16..20]) == h.e && Value(d[20..24]) == h.f &&
            Value(d[24..28]) == h.g && Value(d[28..]) == h.h
  {
    var d := HashBytes(h);
    assert d[..4] == Be(h.a, 4) && d[4..8] == Be(h.b, 4) && d[8..12] == Be(h.c, 4) && d[12..16] == Be(h.d, 4);
    assert d[16..20] == Be(h.e, 4) && d[20..24] == Be(h.f, 4) && d[24..28] == Be(h.g, 4) && d[28..] == Be(h.h, 4);
    WordBytes(h.a);
    WordBytes(h.b);
    WordBytes(h.c);
    WordBytes(h.d);
    WordBytes(h.e);
    WordBytes(h.f);
    WordBytes(h.g);
    WordBytes(h.h);
  }

  lemma WordBytes(x: u32)
    ensures Value(Be(x, 4)) == x
  {
    var n := 4;
    BigEndianLaw(x, n);
    Widths();
  }

  /** Section 6.2.2: hs holds the hash before each block of m and the one after the last. */
  ghost predicate IsChain(hs: seq<Vars>, m: seq<u8>)
    decreases |m|
  {
    if |m| < 64 then |m| == 0 && |hs| == 1
    else |hs| > 1 && Follows(hs[0], m[..64], hs[1]) && IsChain(hs[1..], m[64..])
  }

  ghost predicate Follows(v: Vars, b: Block, next: Vars) { next == Compress(v, b) }

  lemma {:induction false} AbsorbIsChain(hs: seq<Vars>, m: seq<u8>)
    requires IsChain(hs, m)
    ensures |hs| > 0 && Absorb(hs[0], m) == Absorbed(hs[|hs| - 1], [])
    decreases |m|
  {
    if |m| >= 64 {
      AbsorbIsChain(hs[1..], m[64..]);
    }
  }

  /** The digest of a message is the end of the chain from the initial value over its padded blocks. */
  lemma DigestLaw(m: seq<u8>, hs: seq<Vars>)
    requires IsChain(hs, m + Padding(|m|)) && hs[0] == H0
    ensures Digest(m) == HashBytes(hs[|hs| - 1])
  {
    AbsorbIsChain(hs, m + Padding(|m|));
  }

  /** Section 5.1.1: one bit, zeros, and the bit length in the last eight bytes. */
  lemma PaddingLaw(len: nat)
    ensures var (p, n) := (Padding(len), |Padding(len)|);
            n >= 9 && p[0] == 0x80 && (forall i :: 1 <= i < n - 8 ==> p[i] == 0) &&
            Value(p[n - 8..]) == (8 * len) % 0x1_0000_0000_0000_0000
  {
    var p, n := Padding(len), |Padding(len)|;
    assert p[n - 8..] == LengthField(len);
    LengthValue(len);
  }

  lemma LengthValue(len: nat)
    ensures Value(LengthField(len)) == (8 * len) % 0x1_0000_0000_0000_0000
  {
    BigEndianLaw(BitLength(len), 8);
    Widths();
    EightShifts(32);
    EightShifts(40);
    EightShifts(48);
    EightShifts(56);
  }
}
