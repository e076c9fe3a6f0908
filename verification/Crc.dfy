/** CRC-16/CCITT-FALSE, bit by bit (protocol/thermal_wire.c:46-66). */
module Crc {
  import opened CInt
  import opened Bits

  const POLY: u16 := 0x1021

  /** One shift of the register: most significant bit first, truncated to 16 bits. */
  function BitStep(crc: u16): (r: u16) {
    var shifted := (2 * crc) % 0x1_0000;
    Xor16(shifted, POLY);
    if crc >= 0x8000 then Xor(shifted, POLY) else shifted
  }

  lemma Shl16()
    ensures Shl(1, 8) == 0x100 && Shl(1, 15) == 0x8000 && Shl(1, 16) == 0x1_0000
  {
    assert Shl(1, 4) == 16;
    assert Shl(1, 8) == 256;
    assert Shl(1, 12) == 4096;
  }

  lemma Xor16(a: u16, b: u16)
    ensures Xor(a, b) < 0x1_0000
  {
    Shl16();
    XorSplit(0, a, 0, b, 16);
  }

  function Shift(crc: u16, n: nat): u16 { if n == 0 then crc else BitStep(Shift(crc, n - 1)) }

  /** A byte moved to the upper half of the register. */
  function High(b: u8): u16 { 0x100 * b }

  function ByteStep(crc: u16, b: u8): u16 {
    Xor16(crc, High(b));
    Shift(Xor(crc, High(b)), 8)
  }

  /** The register after a sequence of bytes. */
  function Register(init: u16, s: seq<u8>): u16 {
    if |s| == 0 then init else ByteStep(Register(init, s[..|s| - 1]), s[|s| - 1])
  }

  function Crc16(s: seq<u8>): u16 { Register(0xFFFF, s) }

  method ComputeCrc16(buf: array<u8>, len: nat) returns (crc: u16)
    requires len <= buf.Length
    ensures crc == Crc16(buf[..len])
  {
    crc := 0xFFFF;
    for i := 0 to len
      invariant crc == Register(0xFFFF, buf[..i])
    {
      Xor16(crc, High(buf[i]));
      crc := Xor(crc, High(buf[i]));
      ghost var start := crc;
      for bit := 0 to 8
        invariant crc == Shift(start, bit)
      {
        crc := BitStep(crc);
      }
      assert buf[..i + 1][..i] == buf[..i];
    }
  }

  // ----- The update is linear and injective

  /** The top bit of the register and the rest. */
  predicate Top(x: u16) { x >= 0x8000 }

  function Rest(x: u16): (r: u16)
    ensures r < 0x8000 && x == r + if Top(x) then 0x8000 else 0
  {
    if Top(x) then x - 0x8000 else x
  }

  lemma ShlBit(h: nat)
    ensures Shl(h, 15) == 0x8000 * h && Shl(h, 8) == 0x100 * h
  {
    Shl16();
    ShlProduct(h, 15);
    ShlProduct(h, 8);
  }

  lemma TopBit(x: u16, y: u16)
    ensures Xor(x, y) < 0x1_0000 && Xor(Rest(x), Rest(y)) < 0x8000
    ensures Top(Xor(x, y)) <==> Top(x) != Top(y)
    ensures Rest(Xor(x, y)) == Xor(Rest(x), Rest(y))
  {
    var hx: nat, hy: nat := if Top(x) then 1 else 0, if Top(y) then 1 else 0;
    assert Xor(hx, hy) == if Top(x) != Top(y) then 1 else 0;
    Shl16();
    ShlBit(hx);
    ShlBit(hy);
    ShlBit(Xor(hx, hy));
    XorSplit(hx, Rest(x), hy, Rest(y), 15);
  }

  /** What the shifted-out bit feeds back. */
  function Feedback(top: bool): u16 { if top then POLY else 0 }

  lemma BitStepParts(x: u16)
    ensures BitStep(x) == Xor(2 * Rest(x), Feedback(Top(x)))
  {
    XorZero(2 * Rest(x));
    DivModIs(2 * x, 0x1_0000, if Top(x) then 1 else 0, 2 * Rest(x));
  }

  lemma FeedbackLinear(p: bool, q: bool)
    ensures Xor(Feedback(p), Feedback(q)) == Feedback(p != q)
  {
    XorSelf(POLY);
    XorZero(POLY);
  }

  lemma PartsLinear(a: nat, b: nat, p: bool, q: bool)
    ensures Xor(Xor(2 * a, Feedback(p)), Xor(2 * b, Feedback(q))) == Xor(2 * Xor(a, b), Feedback(p != q))
  {
    XorSwap(2 * a, Feedback(p), 2 * b, Feedback(q));
    XorJoin(a, false, b, false);
    FeedbackLinear(p, q);
  }

  lemma BitStepLinear(x: u16, y: u16)
    ensures Xor(x, y) < 0x1_0000 && BitStep(Xor(x, y)) == Xor(BitStep(x), BitStep(y))
  {
    TopBit(x, y);
    PartsLinear(Rest(x), Rest(y), Top(x), Top(y));
    BitStepParts(x);
    BitStepParts(y);
    BitStepParts(Xor(x, y));
  }

  lemma BitStepKernel(x: u16)
    requires BitStep(x) == 0
    ensures x == 0
  {
    BitStepParts(x);
    XorIsZero(2 * Rest(x), Feedback(Top(x)));
  }

  /** The per-bit update loses no information. */
  lemma BitStepInjective(x: u16, y: u16)
    requires BitStep(x) == BitStep(y)
    ensures x == y
  {
    BitStepLinear(x, y);
    XorSelf(BitStep(x));
    BitStepKernel(Xor(x, y));
    XorIsZero(x, y);
  }

  lemma {:induction false} ShiftInjective(x: u16, y: u16, n: nat)
    requires Shift(x, n) == Shift(y, n)
    ensures x == y
  {
    if n > 0 {
      BitStepInjective(Shift(x, n - 1), Shift(y, n - 1));
      ShiftInjective(x, y, n - 1);
    }
  }

  lemma {:induction false} ShiftLinear(x: u16, y: u16, n: nat)
    ensures Xor(x, y) < 0x1_0000 && Shift(Xor(x, y), n) == Xor(Shift(x, n), Shift(y, n))
  {
    Xor16(x, y);
    if n > 0 {
      ShiftLinear(x, y, n - 1);
      BitStepLinear(Shift(x, n - 1), Shift(y, n - 1));
    }
  }

  lemma {:induction false} ShiftCompose(x: u16, m: nat, n: nat)
    ensures Shift(Shift(x, m), n) == Shift(x, m + n)
  {
    if n > 0 { ShiftCompose(x, m, n - 1); }
  }

  /** Eight shifts move a low byte into the high byte without feedback. */
  lemma LowByteShifts(b: u8)
    ensures Shift(b, 8) == 0x100 * b
  {
    assert Shift(b, 1) == 2 * b;
    assert Shift(b, 2) == 4 * b;
    assert Shift(b, 3) == 8 * b;
    assert Shift(b, 4) == 16 * b;
    assert Shift(b, 5) == 32 * b;
    assert Shift(b, 6) == 64 * b;
    assert Shift(b, 7) == 128 * b;
  }

  lemma ByteStepInjective(x: u16, y: u16, b: u8)
    requires ByteStep(x, b) == ByteStep(y, b)
    ensures x == y
  {
    var w := High(b);
    Xor16(x, w);
    Xor16(y, w);
    ShiftInjective(Xor(x, w), Xor(y, w), 8);
    XorComm(x, w);
    XorComm(y, w);
    XorCancel(w, x, y);
  }

  /** Two consecutive bytes enter the register as one 16-bit word. */
  lemma TwoBytes(crc: u16, a: u8, b: u8)
    ensures Xor(crc, Word(a, b)) < 0x1_0000
    ensures ByteStep(ByteStep(crc, a), b) == Shift(Xor(crc, Word(a, b)), 16)
  {
    Xor16(crc, High(a));
    Xor16(crc, Word(a, b));
    var x := Xor(crc, High(a));
    LowByteShifts(b);
    ShiftLinear(x, b, 8);
    ShiftCompose(Xor(x, b), 8, 8);
    XorAssoc(crc, High(a), b);
    Pack(a, b);
  }

  lemma PairInjective(r: u16, a: u8, b: u8, c: u8, d: u8)
    requires ByteStep(ByteStep(r, a), b) == ByteStep(ByteStep(r, c), d)
    ensures a == c && b == d
  {
    TwoBytes(r, a, b);
    TwoBytes(r, c, d);
    ShiftInjective(Xor(r, Word(a, b)), Xor(r, Word(c, d)), 16);
    XorCancel(r, Word(a, b), Word(c, d));
  }

  function Word(a: u8, b: u8): u16 { 0x100 * a + b }

  lemma Pack(a: u8, b: u8)
    ensures Xor(High(a), b) == Word(a, b)
  {
    Shl16();
    ShlBit(a);
    ShlBit(0);
    XorSplit(a, 0, 0, b, 8);
    XorZero(a);
    XorZero(b);
  }

  lemma {:induction false} RegisterSplit(init: u16, s: seq<u8>, t: seq<u8>)
    ensures Register(init, s + t) == Register(Register(init, s), t)
  {
    if |t| == 0 {
      assert s + t == s;
    } else {
      assert (s + t)[..|s + t| - 1] == s + t[..|t| - 1];
      RegisterSplit(init, s, t[..|t| - 1]);
    }
  }

  lemma {:induction false} RegisterInjective(x: u16, y: u16, s: seq<u8>)
    requires Register(x, s) == Register(y, s)
    ensures x == y
  {
    if |s| > 0 {
      ByteStepInjective(Register(x, s[..|s| - 1]), Register(y, s[..|s| - 1]), s[|s| - 1]);
      RegisterInjective(x, y, s[..|s| - 1]);
    }
  }

  lemma PairRegister(r: u16, a: u8, b: u8)
    ensures Register(r, [a, b]) == ByteStep(ByteStep(r, a), b)
  {
    assert [a, b][..1] == [a] && [a][..0] == [];
    assert Register(r, [a]) == ByteStep(r, a);
  }

  /** The register after a prefix, one pair of bytes and a suffix determines the pair. */
  lemma PairDetermined(pre: seq<u8>, a: u8, b: u8, c: u8, d: u8, post: seq<u8>)
    requires Crc16(pre + [a, b] + post) == Crc16(pre + [c, d] + post)
    ensures ByteStep(ByteStep(Crc16(pre), a), b) == ByteStep(ByteStep(Crc16(pre), c), d)
  {
    RegisterSplit(0xFFFF, pre + [a, b], post);
    RegisterSplit(0xFFFF, pre + [c, d], post);
    RegisterInjective(Crc16(pre + [a, b]), Crc16(pre + [c, d]), post);
    RegisterSplit(0xFFFF, pre, [a, b]);
    RegisterSplit(0xFFFF, pre, [c, d]);
    PairRegister(Crc16(pre), a, b);
    PairRegister(Crc16(pre), c, d);
  }

  /** Messages of equal length that differ only inside two adjacent bytes never share a CRC. */
  lemma AdjacentPairDetected(pre: seq<u8>, a: u8, b: u8, c: u8, d: u8, post: seq<u8>)
    requires a != c || b != d
    ensures Crc16(pre + [a, b] + post) != Crc16(pre + [c, d] + post)
  {
    if Crc16(pre + [a, b] + post) == Crc16(pre + [c, d] + post) {
      PairDetermined(pre, a, b, c, d, post);
      PairInjective(Crc16(pre), a, b, c, d);
    }
  }

  /** Messages of equal length that differ in exactly one byte never share a CRC. */
  lemma SingleByteDetected(pre: seq<u8>, a: u8, c: u8, post: seq<u8>)
    requires a != c
    ensures Crc16(pre + [a] + post) != Crc16(pre + [c] + post)
  {
    if Crc16(pre + [a] + post) == Crc16(pre + [c] + post) {
      var r := Register(0xFFFF, pre);
      RegisterSplit(0xFFFF, pre + [a], post);
      RegisterSplit(0xFFFF, pre + [c], post);
      RegisterInjective(Register(0xFFFF, pre + [a]), Register(0xFFFF, pre + [c]), post);
      assert (pre + [a])[..|pre|] == pre && (pre + [c])[..|pre|] == pre;
      Xor16(r, High(a));
      Xor16(r, High(c));
      ShiftInjective(Xor(r, High(a)), Xor(r, High(c)), 8);
      XorCancel(r, High(a), High(c));
    }
  }

  // ----- The last byte of a message and the low byte of its CRC

  lemma HighLinear(a: u8, b: u8)
    ensures Xor(a, b) < 0x100 && High(Xor(a, b)) == Xor(High(a), High(b))
  {
    Shl16();
    XorSplit(0, a, 0, b, 8);
    ShlBit(a);
    ShlBit(b);
    ShlBit(Xor(a, b));
    XorSplit(a, 0, b, 0, 8);
    XorSelf(0);
  }

  /** Changing the last byte moves the CRC by the shifted difference, whatever came before. */
  lemma LastByteMoves(pre: seq<u8>, a: u8, b: u8)
    ensures Xor(a, b) < 0x100 && Crc16(pre + [b]) == Xor(Crc16(pre + [a]), Shift(High(Xor(a, b)), 8))
  {
    var r := Crc16(pre);
    assert (pre + [a])[..|pre|] == pre && (pre + [b])[..|pre|] == pre;
    HighLinear(a, b);
    Xor16(r, High(a));
    Xor16(r, High(b));
    XorAssoc(r, High(a), Xor(High(a), High(b)));
    XorAssoc(High(a), High(a), High(b));
    XorSelf(High(a));
    XorZero(High(b));
    ShiftLinear(Xor(r, High(a)), High(Xor(a, b)), 8);
  }

  /** Flipping bits of the low byte of a word leaves its high byte alone. */
  lemma LowByteXor(c: u16, y: u8)
    ensures Xor(c % 0x100, y) < 0x100 && Xor(c, y) == 0x100 * (c / 0x100) + Xor(c % 0x100, y)
  {
    Shl16();
    ShlBit(c / 0x100);
    ShlBit(0);
    XorZero(c / 0x100);
    XorComm(c / 0x100, 0);
    XorSplit(c / 0x100, c % 0x100, 0, y, 8);
  }

  /** One step: doubled, or doubled without its top bit and with the polynomial fed back. */
  predicate StepsTo(x: u16, y: u16) { if x < 0x8000 then y == 2 * x else y == Xor(2 * x - 0x1_0000, POLY) }

  lemma StepIs(x: u16, y: u16)
    requires StepsTo(x, y)
    ensures BitStep(x) == y
  {
    if x < 0x8000 { DivModIs(2 * x, 0x1_0000, 0, 2 * x); } else { DivModIs(2 * x, 0x1_0000, 1, 2 * x - 0x1_0000); }
  }

  lemma ShiftNext(x: u16, n: nat, y: u16)
    requires Shift(x, n) == y
    ensures Shift(x, n + 1) == BitStep(y)
  {
  }

  /** XOR of two words, byte by byte. */
  lemma XorBytes(a: u8, b: u8, c: u8, d: u8)
    ensures Xor(0x100 * a + b, 0x100 * c + d) == 0x100 * Xor(a, c) + Xor(b, d)
  {
    Shl16();
    ShlBit(a);
    ShlBit(c);
    ShlBit(Xor(a, c));
    XorSplit(a, b, c, d, 8);
  }

  /** The feedback on a doubled register given byte by byte. */
  lemma FeedbackBytes(x: u16, a: u8, b: u8, y: u16)
    requires x >= 0x8000 && 2 * x - 0x1_0000 == 0x100 * a + b && y == 0x100 * Xor(a, 0x10) + Xor(b, 0x21)
    ensures StepsTo(x, y)
  {
    XorBytes(a, b, 0x10, 0x21);
  }

  lemma SmallXors()
    ensures Xor(0x12, 0x10) == 0x02 && Xor(0x80, 0x21) == 0xA1
  {
    assert Xor(0x8, 0x2) == 0xA && Xor(0x40, 0x10) == 0x50;
  }

  lemma FirstFeedback(x: u16, y: u16)
    requires x == 0x8900 && y == 0x0221
    ensures BitStep(x) == y
  {
    SmallXors();
    XorZero(0x21);
    FeedbackBytes(x, 0x12, 0x00, y);
    StepIs(x, y);
  }

  lemma LastFeedback(x: u16, y: u16)
    requires x == 0x8840 && y == 0x00A1
    ensures BitStep(x) == y
  {
    SmallXors();
    XorSelf(0x10);
    FeedbackBytes(x, 0x10, 0x80, y);
    StepIs(x, y);
  }

  lemma DoubleNext(x: u16, n: nat, y: u16)
    requires Shift(x, n) == y && y < 0x8000
    ensures Shift(x, n + 1) == 2 * y
  {
    StepIs(y, 2 * y);
    ShiftNext(x, n, y);
  }

  lemma DoubleSix(x: u16, n: nat, y: u16)
    requires Shift(x, n) == y && y < 0x400
    ensures Shift(x, n + 6) == 0x40 * y
  {
    DoubleNext(x, n, y);
    DoubleNext(x, n + 1, 2 * y);
    DoubleNext(x, n + 2, 4 * y);
    DoubleNext(x, n + 3, 8 * y);
    DoubleNext(x, n + 4, 16 * y);
    DoubleNext(x, n + 5, 32 * y);
  }

  /** One byte difference whose CRC difference is a single low byte. */
  lemma LowDifference(x: u16, n: nat, y: u16, z: u16)
    requires x == 0x8900 && n == 8 && y == 0x0221 && z == 0x8840
    ensures Shift(x, n) == 0xA1
  {
    FirstFeedback(x, y);
    ShiftNext(x, n - 8, x);
    DoubleSix(x, n - 7, y);
    LastFeedback(z, 0xA1);
    ShiftNext(x, n - 1, z);
  }
}
