/** The "TC" binary frame and its payloads (protocol/thermal_wire.c). */
module Wire {
  import opened Bits
  import opened CInt
  import opened Crc

  const HEADER_LEN: nat := 12
  const CRC_LEN: nat := 2
  const MAGIC0: u8 := 0x54
  const MAGIC1: u8 := 0x43
  const VERSION: u8 := 1

  const OP_SAMPLE: u8 := 0x01
  const OP_EVENT: u8 := 0x02
  const OP_COMMAND: u8 := 0x10
  const OP_ACK: u8 := 0x11
  const OP_NACK: u8 := 0x12

  predicate KnownOpcode(op: u8) { op in {OP_SAMPLE, OP_EVENT, OP_COMMAND, OP_ACK, OP_NACK} }

  datatype Status = Truncated | BadMagic | BadVersion | BadCrc | BadOpcode | BadPayload | OverCap | BufTooSmall

  datatype Result<+T> = Ok(value: T) | Err(status: Status)

  // ----- Little-endian packing

  function U16Le(v: u16): seq<u8> { [v % 0x100, v / 0x100] }

  function U32Le(v: u32): seq<u8> {
    [v % 0x100, v / 0x100 % 0x100, v / 0x1_0000 % 0x100, v / 0x100_0000]
  }

  /** A signed value is sent as its two's-complement bit pattern. */
  function I32Le(v: i32): seq<u8> { U32Le(if v < 0 then v + 0x1_0000_0000 else v) }

  function GetU16(s: seq<u8>, at: nat): u16
    requires at + 2 <= |s|
  {
    s[at] as int + 0x100 * s[at + 1] as int
  }

  function GetU32(s: seq<u8>, at: nat): u32
    requires at + 4 <= |s|
  {
    s[at] as int + 0x100 * s[at + 1] as int + 0x1_0000 * s[at + 2] as int + 0x100_0000 * s[at + 3] as int
  }

  function GetI32(s: seq<u8>, at: nat): i32
    requires at + 4 <= |s|
  {
    var v := GetU32(s, at);
    if v > I32_MAX then v - 0x1_0000_0000 else v
  }

  lemma U16RoundTrip(v: u16, s: seq<u8>, at: nat)
    requires at + 2 <= |s|
    ensures s[at..at + 2] == U16Le(v) <==> GetU16(s, at) == v
  {
    assert s[at..at + 2] == [s[at], s[at + 1]];
  }

  lemma U32RoundTrip(v: u32, s: seq<u8>, at: nat)
    requires at + 4 <= |s|
    ensures s[at..at + 4] == U32Le(v) <==> GetU32(s, at) == v
  {
    assert s[at..at + 4] == [s[at], s[at + 1], s[at + 2], s[at + 3]];
    U32Digits(s[at], s[at + 1], s[at + 2], s[at + 3]);
    U32Sum(v);
  }

  lemma U32Digits(a: u8, b: u8, c: u8, d: u8)
    ensures U32Le(a + 0x100 * b + 0x1_0000 * c + 0x100_0000 * d) == [a, b, c, d]
  {
    var v: int := a + 0x100 * b + 0x1_0000 * c + 0x100_0000 * d;
    DivModIs(v, 0x100, b + 0x100 * c + 0x1_0000 * d, a);
    DivModIs(b + 0x100 * c + 0x1_0000 * d, 0x100, c + 0x100 * d, b);
    DivModIs(v, 0x1_0000, c + 0x100 * d, a + 0x100 * b);
    DivModIs(c + 0x100 * d, 0x100, d, c);
    DivModIs(v, 0x100_0000, d, a + 0x100 * b + 0x1_0000 * c);
  }

  /** The four bytes of a 32-bit value add up to it. */
  lemma U32Sum(v: u32)
    ensures var d := U32Le(v);
            d[0] as int + 0x100 * d[1] as int + 0x1_0000 * d[2] as int + 0x100_0000 * d[3] as int == v
  {
    assert v / 0x1_0000 == v / 0x100 / 0x100 && v / 0x100_0000 == v / 0x1_0000 / 0x100;
  }

  lemma I32RoundTrip(v: i32, s: seq<u8>, at: nat)
    requires at + 4 <= |s|
    ensures s[at..at + 4] == I32Le(v) <==> GetI32(s, at) == v
  {
    U32RoundTrip(if v < 0 then v + 0x1_0000_0000 else v, s, at);
  }

  // ----- Frames

  datatype Frame = Frame(seqNo: u16, tsMs: u32, opcode: u8, payload: seq<u8>)

  predicate Sendable(f: Frame) { KnownOpcode(f.opcode) && |f.payload| <= 0xFFFF }

  function Header(f: Frame): (h: seq<u8>)
    requires |f.payload| <= 0xFFFF
    ensures |h| == HEADER_LEN
  {
    [MAGIC0, MAGIC1, VERSION, f.opcode] + U16Le(f.seqNo) + U16Le(|f.payload|) + U32Le(f.tsMs)
  }

  function FrameLen(payloadLen: nat): nat { HEADER_LEN + payloadLen + CRC_LEN }

  /** The CRC field is always on the wire; it is zero when the transport disables it. */
  function EncodeFrame(f: Frame, crcEnabled: bool): (e: seq<u8>)
    requires |f.payload| <= 0xFFFF
    ensures |e| == FrameLen(|f.payload|)
  {
    var body := Header(f) + f.payload;
    body + U16Le(if crcEnabled then Crc16(body) else 0)
  }

  /** Decode one frame at the start of a buffer; cap 0 means no cap. */
  function DecodeFrame(s: seq<u8>, cap: nat, crcEnabled: bool): Result<Frame> {
    if |s| < HEADER_LEN then Err(Truncated)
    else if s[0] != MAGIC0 || s[1] != MAGIC1 then Err(BadMagic)
    else if s[2] != VERSION then Err(BadVersion)
    else if !KnownOpcode(s[3]) then Err(BadOpcode)
    else
      var len := GetU16(s, 6);
      if cap > 0 && len > cap then Err(OverCap)
      else if |s| < FrameLen(len) then Err(Truncated)
      else if crcEnabled && GetU16(s, HEADER_LEN + len) != Crc16(s[..HEADER_LEN + len]) then Err(BadCrc)
      else Ok(Frame(GetU16(s, 4), GetU32(s, 8), s[3], s[HEADER_LEN..HEADER_LEN + len]))
  }

  method DecodeBuffer(buf: array<u8>, size: nat, cap: nat, crcEnabled: bool) returns (r: Result<Frame>)
    requires size <= buf.Length
    ensures r == DecodeFrame(buf[..size], cap, crcEnabled)
  {
    if size < HEADER_LEN { return Err(Truncated); }
    if buf[0] != MAGIC0 || buf[1] != MAGIC1 { return Err(BadMagic); }
    if buf[2] != VERSION { return Err(BadVersion); }
    if !KnownOpcode(buf[3]) { return Err(BadOpcode); }
    var s := buf[..size];
    var payloadLen := GetU16(s, 6);
    if cap > 0 && payloadLen > cap { return Err(OverCap); }
    if size < FrameLen(payloadLen) { return Err(Truncated); }
    if crcEnabled {
      var got := GetU16(s, HEADER_LEN + payloadLen);
      var expected := ComputeCrc16(buf, HEADER_LEN + payloadLen);
      assert buf[..HEADER_LEN + payloadLen] == s[..HEADER_LEN + payloadLen];
      if got != expected { return Err(BadCrc); }
    }
    r := Ok(Frame(GetU16(s, 4), GetU32(s, 8), s[3], s[HEADER_LEN..HEADER_LEN + payloadLen]));
  }

  /** The fields of an encoded frame, read back out of any buffer that starts with it. */
  lemma HeaderFields(f: Frame, s: seq<u8>)
    requires |f.payload| <= 0xFFFF && |s| >= FrameLen(|f.payload|)
    ensures s[..HEADER_LEN] == Header(f) <==>
      s[0] == MAGIC0 && s[1] == MAGIC1 && s[2] == VERSION && s[3] == f.opcode &&
      GetU16(s, 4) == f.seqNo && GetU16(s, 6) == |f.payload| && GetU32(s, 8) == f.tsMs
  {
    U16RoundTrip(f.seqNo, s, 4);
    U16RoundTrip(|f.payload|, s, 6);
    U32RoundTrip(f.tsMs, s, 8);
    var h := Header(f);
    assert h[0..4] == [MAGIC0, MAGIC1, VERSION, f.opcode];
    assert h[4..6] == U16Le(f.seqNo) && h[6..8] == U16Le(|f.payload|) && h[8..12] == U32Le(f.tsMs);
    assert s[..12] == s[0..4] + s[4..6] + s[6..8] + s[8..12];
    assert h == h[0..4] + h[4..6] + h[6..8] + h[8..12];
    assert s[0..4] == [s[0], s[1], s[2], s[3]];
    if s[..HEADER_LEN] == h {
      assert s[4..6] == s[..12][4..6] && s[6..8] == s[..12][6..8] && s[8..12] == s[..12][8..12];
      assert s[0..4] == s[..12][0..4];
    }
  }

  /** A buffer starts with the encoding of f exactly when decoding it yields f, for every frame with
      a known opcode that fits the cap. */
  lemma DecodeIffEncoded(f: Frame, s: seq<u8>, cap: nat)
    requires Sendable(f) && (cap == 0 || |f.payload| <= cap)
    ensures DecodeFrame(s, cap, true) == Ok(f) <==> EncodeFrame(f, true) <= s
  {
    var n := HEADER_LEN + |f.payload|;
    if |s| >= n + CRC_LEN {
      HeaderFields(f, s);
      var body := Header(f) + f.payload;
      U16RoundTrip(Crc16(body), s, n);
      assert s[..n + CRC_LEN] == s[..HEADER_LEN] + s[HEADER_LEN..n] + s[n..n + CRC_LEN];
      if EncodeFrame(f, true) <= s {
        assert s[..n] == body;
        assert s[..HEADER_LEN] == body[..HEADER_LEN] && s[HEADER_LEN..n] == body[HEADER_LEN..];
        assert s[n..n + CRC_LEN] == EncodeFrame(f, true)[n..];
      }
      if DecodeFrame(s, cap, true) == Ok(f) {
        assert s[..n] == s[..HEADER_LEN] + s[HEADER_LEN..n] == body;
      }
    }
  }

  /** With validation off the CRC field is ignored, so its zero placeholder round-trips as well. */
  lemma DecodeUnchecked(f: Frame, rest: seq<u8>, cap: nat, crcEnabled: bool)
    requires Sendable(f) && (cap == 0 || |f.payload| <= cap)
    ensures DecodeFrame(EncodeFrame(f, crcEnabled) + rest, cap, false) == Ok(f)
  {
    var s := EncodeFrame(f, crcEnabled) + rest;
    HeaderFields(f, s);
    assert s[..HEADER_LEN] == Header(f);
    assert s[HEADER_LEN..HEADER_LEN + |f.payload|] == f.payload;
  }

  /** Every frame the checking decoder accepts is the encoding of what it reports. */
  lemma AcceptedFrameReencodes(s: seq<u8>, cap: nat)
    requires DecodeFrame(s, cap, true).Ok?
    ensures var f := DecodeFrame(s, cap, true).value;
            Sendable(f) && EncodeFrame(f, true) <= s && (cap == 0 || |f.payload| <= cap)
  {
    DecodeIffEncoded(DecodeFrame(s, cap, true).value, s, cap);
  }

  // ----- Corruption

  /** Length and CRC fields of an encoded frame. */
  lemma TrailerOf(f: Frame)
    requires |f.payload| <= 0xFFFF
    ensures var (e, n) := (EncodeFrame(f, true), HEADER_LEN + |f.payload|);
            GetU16(e, 6) == |f.payload| && GetU16(e, n) == Crc16(e[..n]) && e[..HEADER_LEN] == Header(f)
  {
    var e, n := EncodeFrame(f, true), HEADER_LEN + |f.payload|;
    assert e[..HEADER_LEN] == Header(f);
    HeaderFields(f, e);
    assert e[..n] == Header(f) + f.payload;
    assert e[n..n + 2] == U16Le(Crc16(e[..n]));
    U16RoundTrip(Crc16(e[..n]), e, n);
  }

  /** With the CRC enabled, a frame corrupted in any one byte outside payload_len is never accepted. */
  lemma CorruptionRejected(f: Frame, p: nat, b: u8, rest: seq<u8>, cap: nat)
    requires Sendable(f) && p < FrameLen(|f.payload|) && p != 6 && p != 7
    requires b != EncodeFrame(f, true)[p]
    ensures DecodeFrame(EncodeFrame(f, true)[p := b] + rest, cap, true).Err?
  {
    var e, n := EncodeFrame(f, true), HEADER_LEN + |f.payload|;
    var s := e[p := b] + rest;
    TrailerOf(f);
    assert GetU16(s, 6) == GetU16(e, 6) == |f.payload|;
    if p < n {
      ByteInside(e, p, b, n, rest);
      SingleByteDetected(e[..p], e[p], b, e[p + 1..n]);
      assert GetU16(s, n) == GetU16(e, n);
    } else {
      assert s[..n] == e[..n];
      assert GetU16(s, n) != GetU16(e, n);
    }
  }

  lemma ByteInside(e: seq<u8>, p: nat, b: u8, n: nat, rest: seq<u8>)
    requires p < n <= |e|
    ensures e[..n] == e[..p] + [e[p]] + e[p + 1..n]
    ensures (e[p := b] + rest)[..n] == e[..p] + [b] + e[p + 1..n]
  {
  }

  /** Two adjacent corrupted bytes in the header or payload, outside payload_len, are never accepted either. */
  lemma AdjacentCorruptionRejected(f: Frame, p: nat, b: u8, c: u8, rest: seq<u8>, cap: nat)
    requires Sendable(f) && p + 1 < HEADER_LEN + |f.payload| && (p + 1 < 6 || p > 7)
    requires b != EncodeFrame(f, true)[p] || c != EncodeFrame(f, true)[p + 1]
    ensures DecodeFrame(EncodeFrame(f, true)[p := b][p + 1 := c] + rest, cap, true).Err?
  {
    var e, n := EncodeFrame(f, true), HEADER_LEN + |f.payload|;
    var s := e[p := b][p + 1 := c] + rest;
    TrailerOf(f);
    PairSpares(e, p, b, c, 6, rest);
    PairSpares(e, p, b, c, n, rest);
    PairInside(e, p, b, c, n, rest);
    AdjacentPairDetected(e[..p], e[p], e[p + 1], b, c, e[p + 2..n]);
    BadTrailer(s, cap, n);
  }

  /** A field away from the two bytes is unchanged. */
  lemma PairSpares(e: seq<u8>, p: nat, b: u8, c: u8, at: nat, rest: seq<u8>)
    requires p + 1 < |e| && at + 1 < |e| && (p + 1 < at || at + 1 < p)
    ensures GetU16(e[p := b][p + 1 := c] + rest, at) == GetU16(e, at)
  {
  }

  /** A buffer whose CRC field is not the CRC of what precedes it never decodes. */
  lemma BadTrailer(s: seq<u8>, cap: nat, n: nat)
    requires HEADER_LEN <= n && n + 1 < |s| && GetU16(s, 6) == n - HEADER_LEN && GetU16(s, n) != Crc16(s[..n])
    ensures DecodeFrame(s, cap, true).Err?
  {
  }

  lemma PairInside(e: seq<u8>, p: nat, b: u8, c: u8, n: nat, rest: seq<u8>)
    requires p + 1 < n <= |e|
    ensures e[..n] == e[..p] + [e[p], e[p + 1]] + e[p + 2..n]
    ensures (e[p := b][p + 1 := c] + rest)[..n] == e[..p] + [b, c] + e[p + 2..n]
  {
  }

  /** Two corrupted bytes that are both in the CRC field are never accepted. */
  lemma CrcCorruptionRejected(f: Frame, b: u8, c: u8, rest: seq<u8>, cap: nat)
    requires Sendable(f)
    requires var (e, n) := (EncodeFrame(f, true), HEADER_LEN + |f.payload|); b != e[n] || c != e[n + 1]
    ensures var (e, n) := (EncodeFrame(f, true), HEADER_LEN + |f.payload|);
            DecodeFrame(e[n := b][n + 1 := c] + rest, cap, true).Err?
  {
    var e, n := EncodeFrame(f, true), HEADER_LEN + |f.payload|;
    var s := e[n := b][n + 1 := c] + rest;
    TrailerOf(f);
    PairSpares(e, n, b, c, 6, rest);
    assert s[..n] == e[..n];
    BadTrailer(s, cap, n);
  }

  // The length field is outside all of this: it says where the CRC is.

  /** A frame whose payload is another frame's payload followed by that frame's CRC. */
  function Carrier(g: Frame): (f: Frame)
    requires |g.payload| <= 0xFFFD
    ensures |f.payload| == |g.payload| + 2
  {
    g.(payload := g.payload + U16Le(Crc16(Header(g) + g.payload)))
  }

  lemma ShortHeaders(f: Frame, g: Frame)
    requires |f.payload| <= 0xFF && |g.payload| <= 0xFF && f == g.(payload := f.payload)
    ensures Header(f)[6] == |f.payload| && Header(f)[6 := |g.payload|] == Header(g)
  {
    assert U16Le(|f.payload|) == [|f.payload|, 0] && U16Le(|g.payload|) == [|g.payload|, 0];
  }

  /** One corrupted length byte can pass: the carrier, shortened by two in its length field, decodes as the
      carried frame. */
  lemma LengthCorruptionPasses(g: Frame, rest: seq<u8>, cap: nat)
    requires Sendable(g) && |g.payload| <= 0xFD && (cap == 0 || |g.payload| <= cap)
    ensures var e := EncodeFrame(Carrier(g), true);
            e[6] == |g.payload| + 2 && DecodeFrame(e[6 := |g.payload|] + rest, cap, true) == Ok(g)
  {
    var f := Carrier(g);
    var e, trailer := EncodeFrame(f, true), U16Le(Crc16(Header(f) + f.payload));
    ShortHeaders(f, g);
    assert e[6 := |g.payload|] == Header(g) + f.payload + trailer;
    assert e[6 := |g.payload|] == EncodeFrame(g, true) + trailer;
    DecodeIffEncoded(g, e[6 := |g.payload|] + rest, cap);
  }

  /** The frame with its last body byte and the low byte of its CRC, which is sent first, replaced. */
  function AtBoundary(f: Frame, b: u8, c: u8): (s: seq<u8>)
    requires |f.payload| <= 0xFFFF
    ensures |s| == FrameLen(|f.payload|)
  {
    EncodeFrame(f, true)[HEADER_LEN + |f.payload| - 1 := b][HEADER_LEN + |f.payload| := c]
  }

  /** What the two corrupted bytes leave of the frame. */
  lemma BoundaryFields(f: Frame, b: u8, c: u8, rest: seq<u8>)
    requires Sendable(f)
    ensures var (e, n, s) := (EncodeFrame(f, true), HEADER_LEN + |f.payload|, AtBoundary(f, b, c) + rest);
            s[0] == MAGIC0 && s[1] == MAGIC1 && s[2] == VERSION && s[3] == f.opcode && GetU16(s, 6) == |f.payload| &&
            s[..n] == e[..n - 1] + [b] && e[..n] == e[..n - 1] + [e[n - 1]] &&
              GetU16(s, n) == c as int + 0x100 * e[n + 1] as int
  {
    var e, n := EncodeFrame(f, true), HEADER_LEN + |f.payload|;
    TrailerOf(f);
    HeaderFields(f, e);
    var s := AtBoundary(f, b, c) + rest;
    assert GetU16(s, 6) == GetU16(e, 6);
    assert s[..n] == e[..n - 1] + [b];
  }

  /** Across the boundary between body and CRC two adjacent corrupted bytes can pass: they do exactly when the
      CRC difference of the first is the difference of the second. */
  lemma BoundaryCorruptionIff(f: Frame, b: u8, c: u8, rest: seq<u8>, cap: nat)
    requires Sendable(f) && (cap == 0 || |f.payload| <= cap)
    ensures var (e, n) := (EncodeFrame(f, true), HEADER_LEN + |f.payload|);
            DecodeFrame(AtBoundary(f, b, c) + rest, cap, true).Ok? <==> CrcShift(e[n - 1], b) == Xor(e[n], c)
  {
    BoundaryDecodes(f, b, c, rest, cap);
    BoundaryCrc(f, b, c, rest);
  }

  /** The fields before the CRC field still pass, so the CRC decides. */
  lemma BoundaryDecodes(f: Frame, b: u8, c: u8, rest: seq<u8>, cap: nat)
    requires Sendable(f) && (cap == 0 || |f.payload| <= cap)
    ensures var (n, s) := (HEADER_LEN + |f.payload|, AtBoundary(f, b, c) + rest);
            DecodeFrame(s, cap, true).Ok? <==> GetU16(s, n) == Crc16(s[..n])
  {
    BoundaryFields(f, b, c, rest);
  }

  lemma BoundaryCrc(f: Frame, b: u8, c: u8, rest: seq<u8>)
    requires Sendable(f)
    ensures var (e, n, s) := (EncodeFrame(f, true), HEADER_LEN + |f.payload|, AtBoundary(f, b, c) + rest);
            GetU16(s, n) == Crc16(s[..n]) <==> CrcShift(e[n - 1], b) == Xor(e[n], c)
  {
    var e, n := EncodeFrame(f, true), HEADER_LEN + |f.payload|;
    TrailerOf(f);
    BoundaryFields(f, b, c, rest);
    LastByteMoves(e[..n - 1], e[n - 1], b);
    LowByteMatches(Crc16(e[..n]), e[n], e[n + 1], c, CrcShift(e[n - 1], b));
  }

  /** How changing the last byte from a to b moves the CRC. */
  function CrcShift(a: u8, b: u8): u16 {
    HighLinear(a, b);
    Shift(High(Xor(a, b)), 8)
  }

  lemma LowByteMatches(crc: u16, low: u8, high: u8, c: u8, moved: u16)
    requires crc == low as int + 0x100 * high as int
    ensures Xor(crc, moved) == c as int + 0x100 * high as int <==> moved == Xor(low, c)
  {
    HighLinear(low, c);
    var y: u8 := Xor(low, c);
    DivModIs(crc, 0x100, high, low);
    LowByteXor(crc, y);
    XorAssoc(low, low, c);
    XorSelf(low);
    XorZero(c);
    if Xor(crc, moved) == c as int + 0x100 * high as int { XorCancel(crc, moved, y); }
  }

  /** For instance 0x89 on the last body byte and 0xA1 on the first CRC byte leave every frame acceptable. */
  lemma BoundaryCorruptionPasses(f: Frame, rest: seq<u8>, cap: nat)
    requires Sendable(f) && (cap == 0 || |f.payload| <= cap)
    ensures var (e, n) := (EncodeFrame(f, true), HEADER_LEN + |f.payload|);
            Xor(e[n - 1], 0x89) < 0x100 && Xor(e[n], 0xA1) < 0x100 &&
            DecodeFrame(AtBoundary(f, Xor(e[n - 1], 0x89), Xor(e[n], 0xA1)) + rest, cap, true).Ok?
  {
    var e, n := EncodeFrame(f, true), HEADER_LEN + |f.payload|;
    Flip(e[n - 1], 0x89);
    Flip(e[n], 0xA1);
    LowDifference(High(0x89), 8, 0x0221, 0x8840);
    BoundaryCorruptionIff(f, Xor(e[n - 1], 0x89), Xor(e[n], 0xA1), rest, cap);
  }

  lemma Flip(a: u8, m: u8)
    ensures Xor(a, m) < 0x100 && Xor(a, Xor(a, m)) == m
  {
    HighLinear(a, m);
    XorAssoc(a, a, m);
    XorSelf(a);
    XorZero(m);
  }

  // ----- Payloads

  datatype Command =
    | SetPid(zone: u16, kp: i32, ki: i32, kd: i32)
    | SetSetpoint(zone: u16, setpointMc: i32)
    | SetTrip(zone: u16, trip: u16, tempMc: i32, hystMc: i32)
    | SetCurvePoint(modifier: u16, point: u16, x: i32, value0: i32, value1: i32)
    | ClearFault(faultType: u16, target: u16)
    | Unknown(id: u16)

  function CommandId(c: Command): u16 {
    match c
    case SetPid(_, _, _, _) => 1
    case SetSetpoint(_, _) => 2
    case SetTrip(_, _, _, _) => 3
    case SetCurvePoint(_, _, _, _, _) => 4
    case ClearFault(_, _) => 5
    case Unknown(id) => id
  }

  /** Payload length of a command, 0 for an unknown one. */
  function CommandLen(id: u16): nat {
    if id == 1 then 16 else if id == 2 then 8 else if id == 3 then 14 else if id == 4 then 18
    else if id == 5 then 6 else 0
  }

  datatype Message =
    | Sample(signal: u16, flags: u16, value: i32)
    | Event(code: u16, a1: u32, a2: u32, a3: u32, a4: u32)
    | Request(command: Command)
    | Ack(requestSeq: u16, status: u16, detail: u32)
    | Nack(requestSeq: u16, status: u16, detail: u32)

  predicate Encodable(m: Message) { m.Request? ==> !m.command.Unknown? }

  function OpcodeOf(m: Message): u8 {
    match m
    case Sample(_, _, _) => OP_SAMPLE
    case Event(_, _, _, _, _) => OP_EVENT
    case Request(_) => OP_COMMAND
    case Ack(_, _, _) => OP_ACK
    case Nack(_, _, _) => OP_NACK
  }

  function CommandBytes(c: Command): seq<u8> {
    match c
    case SetPid(z, kp, ki, kd) => U16Le(z) + I32Le(kp) + I32Le(ki) + I32Le(kd)
    case SetSetpoint(z, sp) => U16Le(z) + I32Le(sp)
    case SetTrip(z, t, temp, hyst) => U16Le(z) + U16Le(t) + I32Le(temp) + I32Le(hyst)
    case SetCurvePoint(m, p, x, v0, v1) => U16Le(m) + U16Le(p) + I32Le(x) + I32Le(v0) + I32Le(v1)
    case ClearFault(ft, t) => U16Le(ft) + U16Le(t)
    case Unknown(_) => []
  }

  function PayloadOf(m: Message): seq<u8> {
    match m
    case Sample(signal, flags, value) => U16Le(signal) + U16Le(flags) + I32Le(value)
    case Event(code, a1, a2, a3, a4) => U16Le(code) + U32Le(a1) + U32Le(a2) + U32Le(a3) + U32Le(a4)
    case Request(c) => U16Le(CommandId(c)) + CommandBytes(c)
    case Ack(rs, st, d) => U16Le(rs) + U16Le(st) + U32Le(d)
    case Nack(rs, st, d) => U16Le(rs) + U16Le(st) + U32Le(d)
  }

  function DecodeCommand(p: seq<u8>): Result<Command> {
    if |p| < 2 then Err(BadPayload)
    else
      var id := GetU16(p, 0);
      if CommandLen(id) == 0 || CommandLen(id) != |p| then Err(BadPayload)
      else if id == 1 then Ok(SetPid(GetU16(p, 2), GetI32(p, 4), GetI32(p, 8), GetI32(p, 12)))
      else if id == 2 then Ok(SetSetpoint(GetU16(p, 2), GetI32(p, 4)))
      else if id == 3 then Ok(SetTrip(GetU16(p, 2), GetU16(p, 4), GetI32(p, 6), GetI32(p, 10)))
      else if id == 4 then Ok(SetCurvePoint(GetU16(p, 2), GetU16(p, 4), GetI32(p, 6), GetI32(p, 10), GetI32(p, 14)))
      else Ok(ClearFault(GetU16(p, 2), GetU16(p, 4)))
  }

  /** The payload decoder selected by the opcode. */
  function DecodePayload(opcode: u8, p: seq<u8>): Result<Message> {
    if opcode == OP_SAMPLE && |p| == 8 then Ok(Sample(GetU16(p, 0), GetU16(p, 2), GetI32(p, 4)))
    else if opcode == OP_EVENT && |p| == 18 then
      Ok(Event(GetU16(p, 0), GetU32(p, 2), GetU32(p, 6), GetU32(p, 10), GetU32(p, 14)))
    else if opcode == OP_COMMAND then
      var c := DecodeCommand(p);
      if c.Ok? then Ok(Request(c.value)) else Err(c.status)
    else if opcode == OP_ACK && |p| == 8 then Ok(Ack(GetU16(p, 0), GetU16(p, 2), GetU32(p, 4)))
    else if opcode == OP_NACK && |p| == 8 then Ok(Nack(GetU16(p, 0), GetU16(p, 2), GetU32(p, 4)))
    else Err(BadPayload)
  }

  // Each payload shape: the concatenated fields are the payload exactly when each field reads back.

  lemma Shape224(p: seq<u8>, a: u16, b: u16, c: i32)
    ensures p == U16Le(a) + U16Le(b) + I32Le(c) <==>
      |p| == 8 && GetU16(p, 0) == a && GetU16(p, 2) == b && GetI32(p, 4) == c
  {
    if |p| == 8 {
      U16RoundTrip(a, p, 0);
      U16RoundTrip(b, p, 2);
      I32RoundTrip(c, p, 4);
      assert p == p[0..2] + p[2..4] + p[4..8];
    }
  }

  lemma Shape224u(p: seq<u8>, a: u16, b: u16, c: u32)
    ensures p == U16Le(a) + U16Le(b) + U32Le(c) <==>
      |p| == 8 && GetU16(p, 0) == a && GetU16(p, 2) == b && GetU32(p, 4) == c
  {
    if |p| == 8 {
      U16RoundTrip(a, p, 0);
      U16RoundTrip(b, p, 2);
      U32RoundTrip(c, p, 4);
      assert p == p[0..2] + p[2..4] + p[4..8];
    }
  }

  lemma ShapeEvent(p: seq<u8>, a: u16, b: u32, c: u32, d: u32, e: u32)
    ensures p == U16Le(a) + U32Le(b) + U32Le(c) + U32Le(d) + U32Le(e) <==>
      |p| == 18 && GetU16(p, 0) == a && GetU32(p, 2) == b && GetU32(p, 6) == c && GetU32(p, 10) == d &&
        GetU32(p, 14) == e
  {
    if |p| == 18 {
      U16RoundTrip(a, p, 0);
      U32RoundTrip(b, p, 2);
      U32RoundTrip(c, p, 6);
      U32RoundTrip(d, p, 10);
      U32RoundTrip(e, p, 14);
      assert p == p[0..2] + p[2..6] + p[6..10] + p[10..14] + p[14..18];
    }
  }

  lemma ShapePid(p: seq<u8>, a: u16, b: u16, c: i32, d: i32, e: i32)
    ensures p == U16Le(a) + U16Le(b) + I32Le(c) + I32Le(d) + I32Le(e) <==>
      |p| == 16 && GetU16(p, 0) == a && GetU16(p, 2) == b && GetI32(p, 4) == c && GetI32(p, 8) == d &&
        GetI32(p, 12) == e
  {
    if |p| == 16 {
      U16RoundTrip(a, p, 0);
      U16RoundTrip(b, p, 2);
      I32RoundTrip(c, p, 4);
      I32RoundTrip(d, p, 8);
      I32RoundTrip(e, p, 12);
      assert p == p[0..2] + p[2..4] + p[4..8] + p[8..12] + p[12..16];
    }
  }

  lemma ShapeTrip(p: seq<u8>, a: u16, b: u16, c: u16, d: i32, e: i32)
    ensures p == U16Le(a) + U16Le(b) + U16Le(c) + I32Le(d) + I32Le(e) <==>
      |p| == 14 && GetU16(p, 0) == a && GetU16(p, 2) == b && GetU16(p, 4) == c && GetI32(p, 6) == d &&
        GetI32(p, 10) == e
  {
    if |p| == 14 {
      U16RoundTrip(a, p, 0);
      U16RoundTrip(b, p, 2);
      U16RoundTrip(c, p, 4);
      I32RoundTrip(d, p, 6);
      I32RoundTrip(e, p, 10);
      assert p == p[0..2] + p[2..4] + p[4..6] + p[6..10] + p[10..14];
    }
  }

  lemma ShapeCurve(p: seq<u8>, a: u16, b: u16, c: u16, d: i32, e: i32, f: i32)
    ensures p == U16Le(a) + U16Le(b) + U16Le(c) + I32Le(d) + I32Le(e) + I32Le(f) <==>
      |p| == 18 && GetU16(p, 0) == a && GetU16(p, 2) == b && GetU16(p, 4) == c &&
      GetI32(p, 6) == d && GetI32(p, 10) == e && GetI32(p, 14) == f
  {
    if |p| == 18 {
      U16RoundTrip(a, p, 0);
      U16RoundTrip(b, p, 2);
      U16RoundTrip(c, p, 4);
      I32RoundTrip(d, p, 6);
      I32RoundTrip(e, p, 10);
      I32RoundTrip(f, p, 14);
      assert p == p[0..2] + p[2..4] + p[4..6] + p[6..10] + p[10..14] + p[14..18];
    }
  }

  lemma ShapeClear(p: seq<u8>, a: u16, b: u16, c: u16)
    ensures p == U16Le(a) + U16Le(b) + U16Le(c) <==>
      |p| == 6 && GetU16(p, 0) == a && GetU16(p, 2) == b && GetU16(p, 4) == c
  {
    if |p| == 6 {
      U16RoundTrip(a, p, 0);
      U16RoundTrip(b, p, 2);
      U16RoundTrip(c, p, 4);
      assert p == p[0..2] + p[2..4] + p[4..6];
    }
  }

  /** Decoding an encoded payload returns the original message, negative values included. */
  lemma PayloadRoundTrip(m: Message)
    requires Encodable(m)
    ensures DecodePayload(OpcodeOf(m), PayloadOf(m)) == Ok(m)
  {
    var p := PayloadOf(m);
    match m
    case Sample(signal, flags, value) => Shape224(p, signal, flags, value);
    case Event(code, a1, a2, a3, a4) => ShapeEvent(p, code, a1, a2, a3, a4);
    case Ack(rs, st, d) => Shape224u(p, rs, st, d);
    case Nack(rs, st, d) => Shape224u(p, rs, st, d);
    case Request(c) => CommandShape(c, p);
  }

  /** A byte string is the encoding of a command exactly when the command decoder returns it. */
  lemma CommandShape(c: Command, p: seq<u8>)
    ensures !c.Unknown? && p == U16Le(CommandId(c)) + CommandBytes(c) <==> DecodeCommand(p) == Ok(c)
  {
    var id := CommandId(c);
    match c
    case SetPid(z, kp, ki, kd) =>
      assert U16Le(id) + CommandBytes(c) == U16Le(id) + U16Le(z) + I32Le(kp) + I32Le(ki) + I32Le(kd);
      ShapePid(p, id, z, kp, ki, kd);
    case SetSetpoint(z, sp) =>
      assert U16Le(id) + CommandBytes(c) == U16Le(id) + U16Le(z) + I32Le(sp);
      Shape224(p, id, z, sp);
    case SetTrip(z, t, temp, hyst) =>
      assert U16Le(id) + CommandBytes(c) == U16Le(id) + U16Le(z) + U16Le(t) + I32Le(temp) + I32Le(hyst);
      ShapeTrip(p, id, z, t, temp, hyst);
    case SetCurvePoint(mo, pt, x, v0, v1) =>
      assert U16Le(id) + CommandBytes(c) == U16Le(id) + U16Le(mo) + U16Le(pt) + I32Le(x) + I32Le(v0) + I32Le(v1);
      ShapeCurve(p, id, mo, pt, x, v0, v1);
    case ClearFault(ft, t) =>
      assert U16Le(id) + CommandBytes(c) == U16Le(id) + U16Le(ft) + U16Le(t);
      ShapeClear(p, id, ft, t);
    case Unknown(_) =>
  }

  /** Every accepted payload is the encoding of the message it decodes to. */
  lemma AcceptedPayloadReencodes(opcode: u8, p: seq<u8>)
    requires DecodePayload(opcode, p).Ok?
    ensures var m := DecodePayload(opcode, p).value;
            Encodable(m) && OpcodeOf(m) == opcode && PayloadOf(m) == p
  {
    var m := DecodePayload(opcode, p).value;
    match m
    case Sample(signal, flags, value) => Shape224(p, signal, flags, value);
    case Event(code, a1, a2, a3, a4) => ShapeEvent(p, code, a1, a2, a3, a4);
    case Ack(rs, st, d) => Shape224u(p, rs, st, d);
    case Nack(rs, st, d) => Shape224u(p, rs, st, d);
    case Request(c) => CommandShape(c, p);
  }

  // ----- Whole messages

  /** The complete bytes of a message. */
  function EncodeMessage(m: Message, seqNo: u16, tsMs: u32, crcEnabled: bool): seq<u8>
    requires Encodable(m)
  {
    EncodeFrame(Frame(seqNo, tsMs, OpcodeOf(m), PayloadOf(m)), crcEnabled)
  }

  /** The codec is a bijection: a buffer starts with the encoding of a message exactly when the frame
      and payload decoders return that message with its sequence number and timestamp. */
  lemma CodecBijection(m: Message, seqNo: u16, tsMs: u32, s: seq<u8>, cap: nat)
    requires cap == 0 || 18 <= cap
    ensures Encodable(m) && EncodeMessage(m, seqNo, tsMs, true) <= s <==>
      var r := DecodeFrame(s, cap, true);
      r.Ok? && r.value.seqNo == seqNo && r.value.tsMs == tsMs &&
      DecodePayload(r.value.opcode, r.value.payload) == Ok(m)
  {
    if Encodable(m) {
      PayloadRoundTrip(m);
      DecodeIffEncoded(Frame(seqNo, tsMs, OpcodeOf(m), PayloadOf(m)), s, cap);
    }
    var r := DecodeFrame(s, cap, true);
    if r.Ok? && DecodePayload(r.value.opcode, r.value.payload) == Ok(m) {
      AcceptedPayloadReencodes(r.value.opcode, r.value.payload);
    }
  }

  // ----- Encoding into a caller's buffer

  /** Byte packer: store a short sequence at a position. */
  method Put(buf: array<u8>, at: nat, bytes: seq<u8>)
    requires at + |bytes| <= buf.Length
    modifies buf
    ensures buf[..] == old(buf[..at]) + bytes + old(buf[at + |bytes|..])
  {
    for i := 0 to |bytes|
      invariant buf[..] == old(buf[..at]) + bytes[..i] + old(buf[at + i..])
    {
      buf[at + i] := bytes[i];
    }
  }

  /** Writes the trailing CRC field once header and payload are in place. */
  method FinalizeFrame(buf: array<u8>, n: nat, crcEnabled: bool)
    requires n + CRC_LEN <= buf.Length
    modifies buf
    ensures buf[..] == old(buf[..n] + U16Le(if crcEnabled then Crc16(buf[..n]) else 0) + buf[n + CRC_LEN..])
  {
    var crc: u16 := 0;
    if crcEnabled { crc := ComputeCrc16(buf, n); }
    Put(buf, n, U16Le(crc));
  }

  /** Header, payload and CRC field, written in that order from the start of the buffer. */
  method WriteFrame(buf: array<u8>, f: Frame, crcEnabled: bool)
    requires |f.payload| <= 0xFFFF && FrameLen(|f.payload|) <= buf.Length
    modifies buf
    ensures buf[..] == EncodeFrame(f, crcEnabled) + old(buf[..])[FrameLen(|f.payload|)..]
  {
    ghost var was := buf[..];
    Put(buf, 0, Header(f));
    ghost var mid := buf[..];
    Put(buf, HEADER_LEN, f.payload);
    TwoPuts(was, Header(f), f.payload, mid, buf[..]);
    FinalizeFrame(buf, HEADER_LEN + |f.payload|, crcEnabled);
  }

  /** The encode entry points: an unknown command or a short buffer is refused and nothing is written. */
  method EncodeInto(buf: array<u8>, m: Message, seqNo: u16, tsMs: u32, crcEnabled: bool) returns (r: Result<nat>)
    modifies buf
    ensures r == if !Encodable(m) then Err(BadPayload)
                 else if buf.Length < FrameLen(|PayloadOf(m)|) then Err(BufTooSmall)
                 else Ok(FrameLen(|PayloadOf(m)|))
    ensures r.Err? ==> buf[..] == old(buf[..])
    ensures r.Ok? ==> buf[..] == EncodeMessage(m, seqNo, tsMs, crcEnabled) + old(buf[..])[r.value..]
  {
    if !Encodable(m) { return Err(BadPayload); }
    var f := Frame(seqNo, tsMs, OpcodeOf(m), PayloadOf(m));
    if buf.Length < FrameLen(|f.payload|) { return Err(BufTooSmall); }
    WriteFrame(buf, f, crcEnabled);
    return Ok(FrameLen(|f.payload|));
  }

  /** Two writes one after the other from the start of a buffer. */
  lemma TwoPuts(was: seq<u8>, a: seq<u8>, b: seq<u8>, mid: seq<u8>, after: seq<u8>)
    requires |a| + |b| <= |was| && mid == was[..0] + a + was[|a|..]
    requires after == mid[..|a|] + b + mid[|a| + |b|..]
    ensures after[..|a| + |b|] == a + b && after[|a| + |b|..] == was[|a| + |b|..]
  {
  }
}
