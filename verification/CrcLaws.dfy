/** The CRC by bit position: its polynomial, where a byte enters, and where it starts
    (protocol/thermal_wire.c:52-66). */
module CrcLaws {
  import opened CInt
  import opened Bits
  import opened BitLaws
  import opened Crc

  lemma DoubledBit(x: u16, i: nat)
    requires i < 16
    ensures Bit((2 * x) % 0x1_0000, i) == (i > 0 && Bit(x, i - 1))
  {
    Shl16();
    BitMod(2 * x, 16, i);
  }

  lemma {:induction false} TopBitIs(x: nat, n: nat)
    requires x < Shl(1, n + 1)
    ensures Bit(x, n) == (x >= Shl(1, n))
    decreases n
  {
    if n > 0 { TopBitIs(x / 2, n - 1); }
  }

  /** The polynomial, halved again and again. */
  function Halved(n: nat): nat {
    if n == 0 then 0x1021 else if n == 1 then 0x810 else if n == 2 then 0x408 else if n == 3 then 0x204
    else if n == 4 then 0x102 else if n == 5 then 0x81 else if n == 6 then 0x40 else if n == 7 then 0x20
    else if n == 8 then 0x10 else if n == 9 then 0x8 else if n == 10 then 0x4 else if n == 11 then 0x2
    else if n == 12 then 0x1 else 0
  }

  lemma HalvedNext(n: nat)
    ensures Halved(n) / 2 == Halved(n + 1)
  {
  }

  lemma {:induction false} HalvedBit(n: nat, i: nat)
    ensures Bit(Halved(n), i) == (Halved(n + i) % 2 == 1)
    decreases i
  {
    HalvedNext(n);
    if i > 0 { HalvedBit(n + 1, i - 1); }
  }

  lemma PolyBits(i: nat)
    ensures Bit(POLY, i) == (i == 0 || i == 5 || i == 12)
  {
    var zero := 0;
    HalvedBit(zero, i);
  }

  /** One bit step shifts the register up and feeds the bit that leaves it back at positions 0, 5 and 12: the
      polynomial x^16 + x^12 + x^5 + 1. */
  lemma BitStepLaw(x: u16, i: nat)
    requires i < 16
    ensures Bit(BitStep(x), i) == ((i > 0 && Bit(x, i - 1)) != (Bit(x, 15) && (i == 0 || i == 5 || i == 12)))
  {
    Shl16();
    TopBitIs(x, 15);
    DoubledBit(x, i);
    PolyBits(i);
    BitXor((2 * x) % 0x1_0000, POLY, i);
  }

  /** A byte enters at the upper half of the register, which then makes eight bit steps. */
  lemma ByteStepLaw(crc: u16, b: u8, r: u16)
    requires forall i: nat :: i < 16 ==> Bit(r, i) == (Bit(crc, i) != (i >= 8 && Bit(b, i - 8)))
    ensures ByteStep(crc, b) == Shift(r, 8)
  {
    Entered(crc, b, r);
  }

  lemma Entered(crc: u16, b: u8, r: u16)
    requires forall i: nat :: i < 16 ==> Bit(r, i) == (Bit(crc, i) != (i >= 8 && Bit(b, i - 8)))
    ensures r == Xor(crc, High(b))
  {
    Shl16();
    Xor16(crc, High(b));
    ShlByte(b);
    forall i: nat | i < 16 ensures Bit(r, i) == Bit(Xor(crc, High(b)), i) {
      BitXor(crc, High(b), i);
      BitShl(b, 8, i);
    }
    SameBits(r, Xor(crc, High(b)), 16);
  }

  lemma ShlByte(b: u8)
    ensures Shl(b, 8) == High(b)
  {
    ShlProduct(b, 8);
    Shl16();
  }

  /** Shift counts bit steps. */
  lemma ShiftLaw(r: u16, n: nat)
    ensures Shift(r, 0) == r && Shift(r, n + 1) == BitStep(Shift(r, n))
  {
  }

  /** The register starts at 0xFFFF and takes the bytes in order; no final XOR. */
  lemma MessageLaw(s: seq<u8>, b: u8)
    ensures Crc16([]) == 0xFFFF && Crc16(s + [b]) == ByteStep(Crc16(s), b)
  {
    assert (s + [b])[..|s|] == s;
  }
}
