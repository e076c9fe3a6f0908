/** The bytes of a frame and of every payload, position by position (protocol/thermal_wire.h,
    protocol/thermal_wire.c). */
module WireLaws {
  import opened CInt
  import opened Crc
  import opened Wire

  /** Two bytes at a position hold an unsigned value, low byte first. */
  predicate Holds16(s: seq<u8>, at: nat, v: int) {
    at + 2 <= |s| && s[at] as int + 0x100 * s[at + 1] as int == v
  }

  predicate Holds32(s: seq<u8>, at: nat, v: int) {
    at + 4 <= |s| &&
    s[at] as int + 0x100 * s[at + 1] as int + 0x1_0000 * s[at + 2] as int + 0x100_0000 * s[at + 3] as int == v
  }

  /** Four bytes hold a signed value in two's complement. */
  predicate HoldsSigned(s: seq<u8>, at: nat, v: int) { Holds32(s, at, if v < 0 then v + 0x1_0000_0000 else v) }

  /** "TC", version 1, opcode, sequence number, payload length, timestamp, payload, CRC of all that. */
  lemma FrameLayout(f: Frame)
    requires |f.payload| <= 0xFFFF
    ensures var (e, n) := (EncodeFrame(f, true), |f.payload|);
            |e| == n + 14 && e[0] == 0x54 && e[1] == 0x43 && e[2] == 1 && e[3] == f.opcode &&
            Holds16(e, 4, f.seqNo) && Holds16(e, 6, n) && Holds32(e, 8, f.tsMs) && e[12..12 + n] == f.payload &&
            Holds16(e, 12 + n, Crc16(e[..12 + n]))
  {
    var e, n := EncodeFrame(f, true), HEADER_LEN + |f.payload|;
    TrailerOf(f);
    HeaderFields(f, e);
    assert e[HEADER_LEN..n] == f.payload;
  }

  lemma SampleLayout(signal: u16, flags: u16, value: i32)
    ensures var p := PayloadOf(Sample(signal, flags, value));
            |p| == 8 && Holds16(p, 0, signal) && Holds16(p, 2, flags) && HoldsSigned(p, 4, value)
  {
    Shape224(PayloadOf(Sample(signal, flags, value)), signal, flags, value);
    SignedHolds(PayloadOf(Sample(signal, flags, value)), 4, value);
  }

  /** Reading a signed value back says what the bytes hold. */
  lemma SignedHolds(s: seq<u8>, at: nat, v: i32)
    requires at + 4 <= |s| && GetI32(s, at) == v
    ensures HoldsSigned(s, at, v)
  {
  }

  lemma EventLayout(code: u16, a1: u32, a2: u32, a3: u32, a4: u32)
    ensures var p := PayloadOf(Event(code, a1, a2, a3, a4));
            |p| == 18 && Holds16(p, 0, code) && Holds32(p, 2, a1) && Holds32(p, 6, a2) && Holds32(p, 10, a3) &&
            Holds32(p, 14, a4)
  {
    ShapeEvent(PayloadOf(Event(code, a1, a2, a3, a4)), code, a1, a2, a3, a4);
  }

  lemma ReplyLayout(requestSeq: u16, status: u16, detail: u32)
    ensures PayloadOf(Ack(requestSeq, status, detail)) == PayloadOf(Nack(requestSeq, status, detail))
    ensures var p := PayloadOf(Ack(requestSeq, status, detail));
            |p| == 8 && Holds16(p, 0, requestSeq) && Holds16(p, 2, status) && Holds32(p, 4, detail)
  {
    Shape224u(PayloadOf(Ack(requestSeq, status, detail)), requestSeq, status, detail);
  }

  /** Commands 1 to 5: SET_PID, SET_SETPOINT, SET_TRIP, SET_CURVE_POINT, CLEAR_FAULT. */
  lemma PidLayout(zone: u16, kp: i32, ki: i32, kd: i32)
    ensures var p := PayloadOf(Request(SetPid(zone, kp, ki, kd)));
            |p| == 16 && Holds16(p, 0, 1) && Holds16(p, 2, zone) && HoldsSigned(p, 4, kp) && HoldsSigned(p, 8, ki) &&
            HoldsSigned(p, 12, kd)
  {
    var p := PayloadOf(Request(SetPid(zone, kp, ki, kd)));
    assert p == U16Le(1) + U16Le(zone) + I32Le(kp) + I32Le(ki) + I32Le(kd);
    ShapePid(p, 1, zone, kp, ki, kd);
  }

  lemma SetpointLayout(zone: u16, setpoint: i32)
    ensures var p := PayloadOf(Request(SetSetpoint(zone, setpoint)));
            |p| == 8 && Holds16(p, 0, 2) && Holds16(p, 2, zone) && HoldsSigned(p, 4, setpoint)
  {
    var p := PayloadOf(Request(SetSetpoint(zone, setpoint)));
    assert p == U16Le(2) + U16Le(zone) + I32Le(setpoint);
    Shape224(p, 2, zone, setpoint);
  }

  lemma TripLayout(zone: u16, trip: u16, temp: i32, hyst: i32)
    ensures var p := PayloadOf(Request(SetTrip(zone, trip, temp, hyst)));
            |p| == 14 && Holds16(p, 0, 3) && Holds16(p, 2, zone) && Holds16(p, 4, trip) && HoldsSigned(p, 6, temp) &&
            HoldsSigned(p, 10, hyst)
  {
    var p := PayloadOf(Request(SetTrip(zone, trip, temp, hyst)));
    assert p == U16Le(3) + U16Le(zone) + U16Le(trip) + I32Le(temp) + I32Le(hyst);
    ShapeTrip(p, 3, zone, trip, temp, hyst);
  }

  lemma CurvePointLayout(modifier: u16, point: u16, x: i32, v0: i32, v1: i32)
    ensures var p := PayloadOf(Request(SetCurvePoint(modifier, point, x, v0, v1)));
            |p| == 18 && Holds16(p, 0, 4) && Holds16(p, 2, modifier) && Holds16(p, 4, point) && HoldsSigned(p, 6, x) &&
            HoldsSigned(p, 10, v0) && HoldsSigned(p, 14, v1)
  {
    var p := PayloadOf(Request(SetCurvePoint(modifier, point, x, v0, v1)));
    assert p == U16Le(4) + U16Le(modifier) + U16Le(point) + I32Le(x) + I32Le(v0) + I32Le(v1);
    ShapeCurve(p, 4, modifier, point, x, v0, v1);
  }

  lemma ClearLayout(faultType: u16, target: u16)
    ensures var p := PayloadOf(Request(ClearFault(faultType, target)));
            |p| == 6 && Holds16(p, 0, 5) && Holds16(p, 2, faultType) && Holds16(p, 4, target)
  {
    var p := PayloadOf(Request(ClearFault(faultType, target)));
    assert p == U16Le(5) + U16Le(faultType) + U16Le(target);
    ShapeClear(p, 5, faultType, target);
  }
}
