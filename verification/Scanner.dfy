/** The receive accumulator with one-byte resynchronisation (platform/linux/bsp_hil_serial.c:239-279;
    the ESP32 firmware mirrors it with a smaller cap, platform/esp32_idf/main/main.c:167-199). */
module Scanner {
  import opened CInt
  import opened Seqs
  import opened Wire

  /** What became of the received bytes: a frame was dispatched, or one byte was dropped. */
  datatype Item = Dispatched(frame: Frame) | Dropped(byte: u8)

  datatype Scanned = Scanned(items: seq<Item>, left: seq<u8>)

  /** Bytes the next decision consumes: a whole frame, one byte to drop, or 0 while more are needed. */
  function Consumes(s: seq<u8>, cap: nat): (n: nat)
    ensures n <= |s|
  {
    if |s| < HEADER_LEN then 0
    else
      var r := DecodeFrame(s, cap, true);
      if r.Ok? then FrameLen(|r.value.payload|) else if r.status == Truncated then 0 else 1
  }

  function NextItem(s: seq<u8>, cap: nat): Item
    requires Consumes(s, cap) > 0
  {
    var r := DecodeFrame(s, cap, true);
    if r.Ok? then Dispatched(r.value) else Dropped(s[0])
  }

  /** The whole-stream scan: decode at offset 0 until the stream is short or the frame incomplete. */
  function Scan(s: seq<u8>, cap: nat): Scanned
    decreases |s|
  {
    var n := Consumes(s, cap);
    if n == 0 then Scanned([], s)
    else
      var t := Scan(s[n..], cap);
      Scanned([NextItem(s, cap)] + t.items, t.left)
  }

  function Frames(items: seq<Item>): seq<Frame> {
    if |items| == 0 then []
    else (if items[0].Dispatched? then [items[0].frame] else []) + Frames(items[1..])
  }

  /** Size of the accumulator: the largest frame the cap admits. */
  function BufSize(cap: nat): nat { FrameLen(cap) }

  // ----- The scan of a stream does not depend on how it is cut

  /** Anything but "truncated" is decided by the bytes already there. */
  lemma DecodeStable(s: seq<u8>, t: seq<u8>, cap: nat)
    requires DecodeFrame(s, cap, true) != Err(Truncated)
    ensures DecodeFrame(s + t, cap, true) == DecodeFrame(s, cap, true)
  {
    if |s| >= HEADER_LEN {
      var n := HEADER_LEN + GetU16(s, 6);
      assert GetU16(s + t, 6) == GetU16(s, 6);
      if |s| >= n + CRC_LEN {
        assert (s + t)[..n] == s[..n] && (s + t)[HEADER_LEN..n] == s[HEADER_LEN..n];
      }
    }
  }

  lemma ConsumesStable(s: seq<u8>, t: seq<u8>, cap: nat)
    requires Consumes(s, cap) > 0
    ensures Consumes(s + t, cap) == Consumes(s, cap) && NextItem(s + t, cap) == NextItem(s, cap)
  {
    DecodeStable(s, t, cap);
  }

  lemma {:induction false} ScanAppend(s: seq<u8>, t: seq<u8>, cap: nat)
    ensures var (a, b) := (Scan(s, cap), Scan(Scan(s, cap).left + t, cap));
            Scan(s + t, cap) == Scanned(a.items + b.items, b.left)
    decreases |s|
  {
    var n := Consumes(s, cap);
    if n > 0 {
      ConsumesStable(s, t, cap);
      assert (s + t)[n..] == s[n..] + t;
      ScanAppend(s[n..], t, cap);
      AppendItem(NextItem(s, cap), Scan(s[n..], cap).items, Scan(Scan(s[n..], cap).left + t, cap).items);
    } else {
      assert [] + Scan(s + t, cap).items == Scan(s + t, cap).items;
    }
  }

  lemma AppendItem(i: Item, a: seq<Item>, b: seq<Item>)
    ensures [i] + (a + b) == ([i] + a) + b
  {
  }

  /** From the log `before`, scanning the stream has come to this log, with `now` still to scan. */
  ghost predicate Reached(before: seq<Item>, start: seq<u8>, cap: nat, log: seq<Item>, now: seq<u8>) {
    before + Scan(start, cap).items == log + Scan(now, cap).items && Scan(start, cap).left == Scan(now, cap).left
  }

  lemma ReachedNext(before: seq<Item>, start: seq<u8>, cap: nat, log: seq<Item>, now: seq<u8>)
    requires Reached(before, start, cap, log, now)
    ensures Consumes(now, cap) > 0 ==>
      Reached(before, start, cap, log + [NextItem(now, cap)], now[Consumes(now, cap)..])
  {
    if Consumes(now, cap) > 0 { Regroup(log, [NextItem(now, cap)], Scan(now[Consumes(now, cap)..], cap).items); }
  }

  lemma ReachedEnd(before: seq<Item>, start: seq<u8>, cap: nat, log: seq<Item>, now: seq<u8>)
    requires Reached(before, start, cap, log, now) && Consumes(now, cap) == 0
    ensures log == before + Scan(start, cap).items && now == Scan(start, cap).left
  {
  }

  ghost function Flatten(chunks: seq<seq<u8>>): seq<u8> {
    if |chunks| == 0 then [] else Flatten(chunks[..|chunks| - 1]) + chunks[|chunks| - 1]
  }

  /** The receiver's state after a series of reads: everything consumed, and the accumulator. */
  ghost function Receive(chunks: seq<seq<u8>>, cap: nat): Scanned {
    if |chunks| == 0 then Scanned([], [])
    else
      var before := Receive(chunks[..|chunks| - 1], cap);
      var now := Scan(before.left + chunks[|chunks| - 1], cap);
      Scanned(before.items + now.items, now.left)
  }

  /** However the bytes are cut into reads, what is dispatched, dropped and left over is the scan of
      the whole stream. */
  lemma {:induction false} ChunkingIrrelevant(chunks: seq<seq<u8>>, cap: nat)
    ensures Receive(chunks, cap) == Scan(Flatten(chunks), cap)
  {
    if |chunks| > 0 {
      var k := |chunks| - 1;
      ChunkingIrrelevant(chunks[..k], cap);
      ScanAppend(Flatten(chunks[..k]), chunks[k], cap);
    }
  }

  /** The leftover is always shorter than the accumulator, because over-cap is decided before truncation. */
  lemma {:induction false} LeftoverFits(s: seq<u8>, cap: nat)
    requires cap > 0
    ensures |Scan(s, cap).left| < BufSize(cap)
    decreases |s|
  {
    if Consumes(s, cap) > 0 { LeftoverFits(s[Consumes(s, cap)..], cap); }
  }

  // ----- Conservation and soundness

  function ItemBytes(i: Item): seq<u8> {
    if i.Dropped? then [i.byte]
    else if |i.frame.payload| <= 0xFFFF then EncodeFrame(i.frame, true)
    else []
  }

  function Bytes(items: seq<Item>): seq<u8> {
    if |items| == 0 then [] else ItemBytes(items[0]) + Bytes(items[1..])
  }

  /** Every dispatched frame is one the encoder could have sent. */
  ghost predicate Genuine(items: seq<Item>) {
    forall i :: i in items && i.Dispatched? ==> Sendable(i.frame)
  }

  lemma BytesCons(i: Item, t: seq<Item>)
    ensures Bytes([i] + t) == ItemBytes(i) + Bytes(t)
  {
    assert ([i] + t)[1..] == t;
  }

  /** Every received byte is inside a dispatched frame, dropped on its own, or still in the accumulator,
      in order; and nothing is dispatched that an encoder could not have sent. */
  lemma {:induction false} BytesConserved(s: seq<u8>, cap: nat)
    ensures Bytes(Scan(s, cap).items) + Scan(s, cap).left == s
    ensures Genuine(Scan(s, cap).items)
    decreases |s|
  {
    var n := Consumes(s, cap);
    if n > 0 {
      var item, t := NextItem(s, cap), Scan(s[n..], cap);
      BytesConserved(s[n..], cap);
      NextItemBytes(s, cap);
      BytesCons(item, t.items);
      Regroup(s[..n], Bytes(t.items), t.left);
      SplitAt(s, n);
      assert forall i :: i in [item] + t.items <==> i == item || i in t.items;
    }
  }

  lemma SplitAt(s: seq<u8>, n: nat)
    requires n <= |s|
    ensures s[..n] + s[n..] == s
  {
  }

  lemma NextItemBytes(s: seq<u8>, cap: nat)
    requires Consumes(s, cap) > 0
    ensures ItemBytes(NextItem(s, cap)) == s[..Consumes(s, cap)]
    ensures NextItem(s, cap).Dispatched? ==> Sendable(NextItem(s, cap).frame)
  {
    if DecodeFrame(s, cap, true).Ok? { AcceptedFrameReencodes(s, cap); }
  }

  // ----- Self-healing

  /** Enough bytes for any admissible frame rule out "truncated". */
  lemma NeverTruncated(s: seq<u8>, cap: nat)
    requires cap > 0 && |s| >= BufSize(cap)
    ensures DecodeFrame(s, cap, true) != Err(Truncated)
  {
  }

  /** After any garbage in which no offset decodes as a frame, an encoded frame followed by at least
      one maximum frame length of further bytes is the next frame dispatched, and nothing after it is lost. */
  lemma {:induction false} Resynchronises(garbage: seq<u8>, f: Frame, rest: seq<u8>, cap: nat)
    requires cap > 0 && Sendable(f) && |f.payload| <= cap && |rest| >= BufSize(cap)
    requires var s := garbage + EncodeFrame(f, true) + rest;
             forall i :: 0 <= i < |garbage| ==> DecodeFrame(s[i..], cap, true).Err?
    ensures var s := garbage + EncodeFrame(f, true) + rest;
            Frames(Scan(s, cap).items) == [f] + Frames(Scan(rest, cap).items) &&
            Scan(s, cap).left == Scan(rest, cap).left
    decreases |garbage|
  {
    var e := EncodeFrame(f, true);
    var s := garbage + e + rest;
    if |garbage| == 0 {
      assert s == e + rest && e <= s;
      DecodeIffEncoded(f, s, cap);
      assert s[|e|..] == rest;
    } else {
      assert s[0..] == s;
      NeverTruncated(s, cap);
      var g := garbage[1..];
      assert s[1..] == g + e + rest;
      forall i | 0 <= i < |g| ensures DecodeFrame((g + e + rest)[i..], cap, true).Err? {
        assert (g + e + rest)[i..] == s[i + 1..];
      }
      Resynchronises(g, f, rest, cap);
    }
  }

  ghost function EncodeAll(fs: seq<Frame>): seq<u8>
    requires forall i :: 0 <= i < |fs| ==> Sendable(fs[i])
  {
    if |fs| == 0 then []
    else
      assert Sendable(fs[0]);
      EncodeFrame(fs[0], true) + EncodeAll(fs[1..])
  }

  /** A concatenation of encoded frames is dispatched completely and in order, with nothing left over. */
  lemma {:induction false} StreamDelivered(fs: seq<Frame>, cap: nat)
    requires forall i :: 0 <= i < |fs| ==> Sendable(fs[i]) && |fs[i].payload| <= cap
    ensures Frames(Scan(EncodeAll(fs), cap).items) == fs && Scan(EncodeAll(fs), cap).left == []
  {
    if |fs| > 0 {
      var e, rest := EncodeFrame(fs[0], true), EncodeAll(fs[1..]);
      DecodeIffEncoded(fs[0], e + rest, cap);
      assert (e + rest)[|e|..] == rest;
      StreamDelivered(fs[1..], cap);
    }
  }

  // ----- The accumulator

  class Receiver {
    const cap: nat
    const buf: array<u8>
    var pos: nat
    ghost var log: seq<Item>

    ghost predicate Valid() reads this { cap > 0 && buf.Length == BufSize(cap) && pos <= buf.Length }

    ghost function Contents(): seq<u8>
      requires Valid()
      reads this, buf
    {
      buf[..pos]
    }

    constructor (cap: nat)
      requires cap > 0
      ensures Valid() && this.cap == cap && Contents() == [] && log == [] && fresh(buf)
    {
      this.cap := cap;
      buf := new u8[BufSize(cap)];
      pos, log := 0, [];
    }

    /** memmove of the tail to the front of the buffer. */
    method DropFront(n: nat)
      requires Valid() && n <= pos
      modifies this`pos, buf
      ensures Valid() && Contents() == old(Contents())[n..]
    {
      for i := n to pos
        invariant pos == old(pos)
        invariant forall k :: 0 <= k < i - n ==> buf[k] == old(buf[k + n])
        invariant forall k :: i <= k < pos ==> buf[k] == old(buf[k])
      {
        buf[i - n] := buf[i];
      }
      pos := pos - n;
    }

    method Append(chunk: seq<u8>)
      requires Valid() && |chunk| <= buf.Length - pos
      modifies this`pos, buf
      ensures Valid() && Contents() == old(Contents()) + chunk
    {
      for i := 0 to |chunk|
        invariant pos == old(pos)
        invariant buf[..pos + i] == old(Contents()) + chunk[..i]
      {
        buf[pos + i] := chunk[i];
        assert buf[..pos + (i + 1)] == buf[..pos + i] + [chunk[i]];
      }
      pos := pos + |chunk|;
    }

    /** One poll: read what is available (at most the free space), then decode until short.
        The full-buffer branch is kept; it is never taken, because a poll never leaves the buffer full. */
    method Drain(chunk: seq<u8>)
      requires Valid() && |chunk| <= buf.Length - pos
      modifies this, buf
      ensures Valid() && pos < buf.Length
      ensures old(pos) < buf.Length ==>
        var r := Scan(old(Contents()) + chunk, cap);
        log == old(log) + r.items && Contents() == r.left
    {
      var freeCap := buf.Length - pos;
      if freeCap > 0 {
        Append(chunk);
      } else {
        DropFront(1);
      }
      ghost var start, before := Contents(), log;
      DecodeLoop();
      LeftoverFits(start, cap);
    }

    /** One decision at offset 0: dispatch a frame, drop a byte, or wait for the rest of a frame. */
    method DecodeOne(ghost s: seq<u8>) returns (more: bool)
      requires Valid() && Contents() == s && pos >= HEADER_LEN
      modifies this, buf
      ensures Valid() && more == (Consumes(s, cap) > 0) && Contents() == s[Consumes(s, cap)..]
      ensures log == old(log) + if more then [NextItem(s, cap)] else []
    {
      var dec := DecodeBuffer(buf, pos, cap, true);
      if dec.Err? && dec.status == Truncated { return false; }
      log := log + [NextItem(s, cap)];
      if dec.Ok? { DropFront(FrameLen(|dec.value.payload|)); } else { DropFront(1); }
      more := true;
    }

    /** Decode at offset 0 until short or waiting for the rest of a frame. */
    method DecodeLoop()
      requires Valid()
      modifies this, buf
      ensures Valid()
      ensures var r := Scan(old(Contents()), cap);
              log == old(log) + r.items && Contents() == r.left
    {
      ghost var before, start, now := log, Contents(), Contents();
      while pos >= HEADER_LEN
        invariant Valid() && Contents() == now && Reached(before, start, cap, log, now)
        decreases pos
      {
        ReachedNext(before, start, cap, log, now);
        var more := DecodeOne(now);
        if !more { break; }
        now := now[Consumes(now, cap)..];
      }
      ReachedEnd(before, start, cap, log, now);
    }
  }
}
