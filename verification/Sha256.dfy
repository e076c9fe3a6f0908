/** SHA-256 as a streaming context (support/sha256.c) against the one-shot hash of the padded message
    (FIPS 180-4, sections 4.1.2, 5.1.1, 5.3.3 and 6.2). */
module Sha256 {
  import opened CInt
  import opened Bits

  const WORD: nat := 0x1_0000_0000

  // The round constants, eight to a row.
  const K0: seq<u32> := [0x428a2f98, 0x71374491, 0xb5c0fbcf, 0xe9b5dba5,
                         0x3956c25b, 0x59f111f1, 0x923f82a4, 0xab1c5ed5]
  const K1: seq<u32> := [0xd807aa98, 0x12835b01, 0x243185be, 0x550c7dc3,
                         0x72be5d74, 0x80deb1fe, 0x9bdc06a7, 0xc19bf174]
  const K2: seq<u32> := [0xe49b69c1, 0xefbe4786, 0x0fc19dc6, 0x240ca1cc,
                         0x2de92c6f, 0x4a7484aa, 0x5cb0a9dc, 0x76f988da]
  const K3: seq<u32> := [0x983e5152, 0xa831c66d, 0xb00327c8, 0xbf597fc7,
                         0xc6e00bf3, 0xd5a79147, 0x06ca6351, 0x14292967]
  const K4: seq<u32> := [0x27b70a85, 0x2e1b2138, 0x4d2c6dfc, 0x53380d13,
                         0x650a7354, 0x766a0abb, 0x81c2c92e, 0x92722c85]
  const K5: seq<u32> := [0xa2bfe8a1, 0xa81a664b, 0xc24b8b70, 0xc76c51a3,
                         0xd192e819, 0xd6990624, 0xf40e3585, 0x106aa070]
  const K6: seq<u32> := [0x19a4c116, 0x1e376c08, 0x2748774c, 0x34b0bcb5,
                         0x391c0cb3, 0x4ed8aa4a, 0x5b9cca4f, 0x682e6ff3]
  const K7: seq<u32> := [0x748f82ee, 0x78a5636f, 0x84c87814, 0x8cc70208,
                         0x90befffa, 0xa4506ceb, 0xbef9a3f7, 0xc67178f2]
  const K: seq<u32> := ((K0 + K1) + (K2 + K3)) + ((K4 + K5) + (K6 + K7))

  function Rotr(x: u32, n: nat): nat
    requires n <= 32
  {
    Or(Shr(x, n), Shl(x, 32 - n) % WORD)
  }

  function BigSigma0(x: u32): nat { Xor(Xor(Rotr(x, 2), Rotr(x, 13)), Rotr(x, 22)) }

  function BigSigma1(x: u32): nat { Xor(Xor(Rotr(x, 6), Rotr(x, 11)), Rotr(x, 25)) }

  function LilSigma0(x: u32): nat { Xor(Xor(Rotr(x, 7), Rotr(x, 18)), Shr(x, 3)) }

  function LilSigma1(x: u32): nat { Xor(Xor(Rotr(x, 17), Rotr(x, 19)), Shr(x, 10)) }

  function Ch(x: u32, y: u32, z: u32): nat { Xor(And(x, y), And(0xFFFF_FFFF - x, z)) }

  function Maj(x: u32, y: u32, z: u32): nat { Xor(Xor(And(x, y), And(x, z)), And(y, z)) }

  // ----- Section 6.2.2: one block

  type Block = b: seq<u8> | |b| == 64 witness seq(64, _ => 0)

  function WordAt(b: Block, i: nat): u32
    requires i < 16
  {
    0x100_0000 * b[4 * i] as int + 0x1_0000 * b[4 * i + 1] as int + 0x100 * b[4 * i + 2] as int + b[4 * i + 3] as int
  }

  function Mix(w2: u32, w7: u32, w15: u32, w16: u32): u32 {
    (LilSigma1(w2) + w7 + LilSigma0(w15) + w16) % WORD
  }

  /** The message schedule. */
  function W(b: Block, t: nat): u32 {
    if t < 16 then WordAt(b, t)
    else Mix(W(b, t - 2), W(b, t - 7), W(b, t - 15), W(b, t - 16))
  }

  datatype Vars = Vars(a: u32, b: u32, c: u32, d: u32, e: u32, f: u32, g: u32, h: u32)

  const H0: Vars := Vars(0x6a09e667, 0xbb67ae85, 0x3c6ef372, 0xa54ff53a,
                         0x510e527f, 0x9b05688c, 0x1f83d9ab, 0x5be0cd19)

  function Round(v: Vars, k: u32, w: u32): Vars {
    var t1 := (v.h + BigSigma1(v.e) + Ch(v.e, v.f, v.g) + k + w) % WORD;
    var t2 := (BigSigma0(v.a) + Maj(v.a, v.b, v.c)) % WORD;
    Vars((t1 + t2) % WORD, v.a, v.b, v.c, (v.d + t1) % WORD, v.e, v.f, v.g)
  }

  function Schedule(b: Block): (w: seq<u32>)
    ensures |w| == 64
  {
    seq(64, t requires 0 <= t => W(b, t))
  }

  lemma ScheduleWord(b: Block, t: nat)
    requires t < 64
    ensures var w := Schedule(b);
            w[t] == if t < 16 then WordAt(b, t) else Mix(w[t - 2], w[t - 7], w[t - 15], w[t - 16])
  {
  }

  /** The working variables after the rounds keyed by the given schedule words. */
  function Rounds(v: Vars, w: seq<u32>): Vars
    requires |w| <= |K|
  {
    if |w| == 0 then v
    else Round(Rounds(v, w[..|w| - 1]), K[|w| - 1], w[|w| - 1])
  }

  function Add(x: Vars, y: Vars): Vars {
    Vars((x.a + y.a) % WORD, (x.b + y.b) % WORD, (x.c + y.c) % WORD, (x.d + y.d) % WORD,
         (x.e + y.e) % WORD, (x.f + y.f) % WORD, (x.g + y.g) % WORD, (x.h + y.h) % WORD)
  }

  function Compress(v: Vars, b: Block): Vars { Add(v, Rounds(v, Schedule(b))) }

  // ----- Whole messages

  datatype Absorbed = Absorbed(hash: Vars, tail: seq<u8>)

  /** The hash of every complete block, and the bytes that do not fill one. */
  function Absorb(v: Vars, m: seq<u8>): (r: Absorbed)
    ensures |r.tail| < 64
    decreases |m|
  {
    if |m| < 64 then Absorbed(v, m) else Absorb(Compress(v, m[..64]), m[64..])
  }

  lemma {:induction false} TailLength(v: Vars, m: seq<u8>)
    ensures |Absorb(v, m).tail| == |m| % 64
    decreases |m|
  {
    if |m| >= 64 {
      TailLength(Compress(v, m[..64]), m[64..]);
      ModShift(|m|);
    } else {
      DivModIs(|m|, 64, 0, |m|);
    }
  }

  lemma ModShift(n: int)
    ensures n % 64 == (n - 64) % 64
  {
    DivModIs(n, 64, (n - 64) / 64 + 1, (n - 64) % 64);
  }

  /** The wrapped bit count of a concatenation. */
  lemma BitCount(m: nat, n: nat)
    ensures (BitLength(m) + 8 * n) % 0x1_0000_0000_0000_0000 == BitLength(m + n)
  {
  }

  /** The n low-order bytes of v, most significant first. */
  function Be(v: nat, n: nat): (s: seq<u8>)
    ensures |s| == n
  {
    seq(n, i requires 0 <= i < n => Shr(v, 8 * (n - 1 - i)) % 0x100)
  }

  /** Section 5.1.1: a one bit, the fewest zeros that leave room for the length, the length in bits. */
  function Padding(len: nat): seq<u8> {
    [0x80] + Zeros((119 - len % 64) % 64) + LengthField(len)
  }

  function LengthField(len: nat): seq<u8> { Be(BitLength(len), 8) }

  /** The 64-bit bit counter of the context. */
  function BitLength(len: nat): nat { (8 * len) % 0x1_0000_0000_0000_0000 }

  /** The padded message is a whole number of blocks, and no shorter padding would leave room for the length. */
  lemma PaddedLength(len: nat)
    ensures (len + |Padding(len)|) % 64 == 0 && 9 <= |Padding(len)| < 9 + 64
  {
    var q, r := len / 64, len % 64;
    if r <= 55 {
      DivModIs(119 - r, 64, 1, 55 - r);
      DivModIs(len + |Padding(len)|, 64, q + 1, 0);
    } else {
      DivModIs(119 - r, 64, 0, 119 - r);
      DivModIs(len + |Padding(len)|, 64, q + 2, 0);
    }
  }

  function Digest(m: seq<u8>): seq<u8> {
    HashBytes(Absorb(H0, m + Padding(|m|)).hash)
  }

  function HashBytes(v: Vars): seq<u8> {
    Be(v.a, 4) + Be(v.b, 4) + Be(v.c, 4) + Be(v.d, 4) + Be(v.e, 4) + Be(v.f, 4) + Be(v.g, 4) + Be(v.h, 4)
  }

  /** Hashing may stop and resume anywhere. */
  lemma {:induction false} AbsorbAppend(v: Vars, m: seq<u8>, n: seq<u8>)
    ensures Absorb(v, m + n) == Absorb(Absorb(v, m).hash, Absorb(v, m).tail + n)
    decreases |m|
  {
    if |m| >= 64 {
      assert (m + n)[..64] == m[..64] && (m + n)[64..] == m[64..] + n;
      AbsorbAppend(Compress(v, m[..64]), m[64..], n);
    }
  }

  lemma AbsorbBlock(v: Vars, b: Block, m: seq<u8>)
    ensures Absorb(v, b + m) == Absorb(Compress(v, b), m)
  {
    assert (b + m)[..64] == b && (b + m)[64..] == m;
  }

  ghost function Joined(parts: seq<seq<u8>>): seq<u8> {
    if |parts| == 0 then [] else Joined(parts[..|parts| - 1]) + parts[|parts| - 1]
  }

  /** Hash state and pending tail after feeding the parts one at a time. */
  ghost function Fed(parts: seq<seq<u8>>): Absorbed {
    if |parts| == 0 then Absorbed(H0, [])
    else
      var before := Fed(parts[..|parts| - 1]);
      Absorb(before.hash, before.tail + parts[|parts| - 1])
  }

  /** Any split of a message into updates leaves the state and pending bytes of the whole message at once. */
  lemma {:induction false} AnySplitIsOneShot(parts: seq<seq<u8>>)
    ensures Fed(parts) == Absorb(H0, Joined(parts))
  {
    if |parts| > 0 {
      AnySplitIsOneShot(parts[..|parts| - 1]);
      AbsorbAppend(H0, Joined(parts[..|parts| - 1]), parts[|parts| - 1]);
    }
  }

  // ----- The streaming context

  class Context {
    var state: Vars
    var bitcount: nat
    const buffer: array<u8>
    var bufferLen: nat
    ghost var message: seq<u8>  // everything passed to Update since Init

    ghost predicate Valid() reads this, buffer {
      buffer.Length == 64 && bufferLen < 64 &&
      Absorbed(state, buffer[..bufferLen]) == Absorb(H0, message) &&
      bitcount == BitLength(|message|)
    }

    constructor ()
      ensures Valid() && message == [] && fresh(buffer)
    {
      state, bitcount, bufferLen, message := H0, 0, 0, [];
      buffer := new u8[64];
    }

    /** The message schedule, expanded into a local array. */
    method ExpandSchedule(b: Block) returns (w: array<u32>)
      ensures fresh(w) && w[..] == Schedule(b)
    {
      w := new u32[64];
      for i := 0 to 16
        invariant w[..i] == Schedule(b)[..i]
      {
        w[i] := WordAt(b, i);
        ScheduleWord(b, i);
      }
      for i := 16 to 64
        invariant w[..i] == Schedule(b)[..i]
      {
        ScheduleWord(b, i);
        assert w[i - 2] == w[..i][i - 2] && w[i - 7] == w[..i][i - 7] && w[i - 15] == w[..i][i - 15] &&
          w[i - 16] == w[..i][i - 16];
        w[i] := Mix(w[i - 2], w[i - 7], w[i - 15], w[i - 16]);
      }
    }

    method RunRounds(b: Block) returns (v: Vars)
      ensures v == Rounds(state, Schedule(b))
    {
      var w := ExpandSchedule(b);
      ghost var ws := w[..];
      v := state;
      for i := 0 to 64
        invariant w[..] == ws
        invariant v == Rounds(state, ws[..i])
      {
        assert ws[..i + 1][..i] == ws[..i];
        v := Round(v, K[i], w[i]);
      }
      assert ws[..64] == ws;
    }

    method ProcessBlock(b: Block)
      modifies this`state
      ensures state == Compress(old(state), b)
    {
      var v := RunRounds(b);
      state := Add(state, v);
    }

    /** memcpy into the buffer at its fill position. */
    method Fill(data: seq<u8>)
      requires buffer.Length == 64 && bufferLen + |data| <= 64
      modifies this`bufferLen, buffer
      ensures bufferLen == old(bufferLen) + |data|
      ensures buffer[..bufferLen] == old(buffer[..bufferLen]) + data
    {
      for i := 0 to |data|
        invariant bufferLen == old(bufferLen)
        invariant buffer[..bufferLen + i] == old(buffer[..bufferLen]) + data[..i]
      {
        buffer[bufferLen + i] := data[i];
        assert buffer[..bufferLen + (i + 1)] == buffer[..bufferLen + i] + [data[i]];
      }
      bufferLen := bufferLen + |data|;
    }

    /** Completes a partly filled buffer, hashing it when it becomes full. */
    method TopUp(p: seq<u8>) returns (rest: seq<u8>)
      requires buffer.Length == 64 && bufferLen < 64
      modifies this`state, this`bufferLen, buffer
      ensures bufferLen < 64 && (bufferLen > 0 ==> rest == [])
      ensures Absorb(state, buffer[..bufferLen] + rest) == old(Absorb(state, buffer[..bufferLen] + p))
    {
      var need := 64 - bufferLen;
      var take := if |p| < need then |p| else need;
      ghost var before := buffer[..bufferLen];
      Fill(p[..take]);
      rest := p[take..];
      Cut(before, p, take);
      assert before + p == buffer[..bufferLen] + rest;
      if bufferLen == 64 {
        AbsorbBlock(state, buffer[..64], rest);
        ProcessBlock(buffer[..64]);
        bufferLen := 0;
        assert buffer[..bufferLen] + rest == rest;
      }
    }

    /** Hashes whole blocks straight from the input. */
    method TakeBlocks(p: seq<u8>) returns (rest: seq<u8>)
      modifies this`state
      ensures |rest| < 64 && Absorb(state, rest) == old(Absorb(state, p))
      ensures |p| < 64 ==> rest == p && state == old(state)
    {
      rest := p;
      while |rest| >= 64
        invariant Absorb(state, rest) == old(Absorb(state, p))
        invariant |p| < 64 ==> rest == p && state == old(state)
      {
        ProcessBlock(rest[..64]);
        rest := rest[64..];
      }
    }

    method Update(data: seq<u8>)
      requires Valid()
      modifies this, buffer
      ensures Valid() && message == old(message) + data
    {
      AbsorbAppend(H0, message, data);
      BitCount(|message|, |data|);
      message := message + data;
      bitcount := (bitcount + 8 * |data|) % 0x1_0000_0000_0000_0000;
      var p := Absorbing(data);
      if |p| > 0 { Fill(p); }
    }

    /** The hashing part of an update: what is left fits the buffer. */
    method Absorbing(data: seq<u8>) returns (p: seq<u8>)
      requires buffer.Length == 64 && bufferLen < 64
      modifies this`state, this`bufferLen, buffer
      ensures bufferLen + |p| < 64 && (p != [] ==> bufferLen == 0)
      ensures Absorbed(state, buffer[..bufferLen] + p) == old(Absorb(state, buffer[..bufferLen] + data))
    {
      p := data;
      if bufferLen > 0 { p := TopUp(p); }
      assert bufferLen == 0 ==> buffer[..bufferLen] + p == p;
      p := TakeBlocks(p);
      assert bufferLen == 0 ==> buffer[..bufferLen] + p == p;
    }

    /** Closes a block whose length field no longer fits: zero-fill, hash, start afresh. */
    method CloseBlock(ghost length: seq<u8>)
      requires buffer.Length == 64 && 56 < bufferLen <= 64
      modifies this`state, this`bufferLen, buffer
      ensures bufferLen == 0
      ensures Absorb(state, Zeros(56) + length) ==
              old(Absorb(state, (buffer[..bufferLen] + Zeros(64 - bufferLen)) + (Zeros(56) + length)))
    {
      Fill(Zeros(64 - bufferLen));
      AbsorbBlock(state, buffer[..64], Zeros(56) + length);
      ProcessBlock(buffer[..64]);
      bufferLen := 0;
    }

    /** Appends 0x80 and zeros up to the length field. */
    method PadToLength(ghost length: seq<u8>)
      requires buffer.Length == 64 && bufferLen < 64
      modifies this`state, this`bufferLen, buffer
      ensures bufferLen == 56
      ensures Absorb(state, buffer[..56] + length) == old(Absorb(state, Closing(buffer[..bufferLen], length)))
    {
      Fill([0x80]);
      MakeRoom(length);
      Fill(Zeros(56 - bufferLen));
    }

    /** Leaves at most 56 bytes in the buffer. */
    method MakeRoom(ghost length: seq<u8>)
      requires buffer.Length == 64 && bufferLen <= 64
      modifies this`state, this`bufferLen, buffer
      ensures bufferLen <= 56
      ensures Absorb(state, (buffer[..bufferLen] + Zeros(56 - bufferLen)) + length) ==
              old(Absorb(state, Completed(buffer[..bufferLen], length)))
    {
      if bufferLen > 56 {
        CloseBlock(length);
        Empty(buffer[..bufferLen]);
      }
    }

    /** Pads, appends the length field and hashes the last block. */
    method CloseMessage(length: seq<u8>)
      requires buffer.Length == 64 && bufferLen < 64 && |length| == 8
      modifies this`state, this`bufferLen, buffer
      ensures Absorbed(state, []) == old(Absorb(state, Closing(buffer[..bufferLen], length)))
    {
      PadToLength(length);
      Fill(length);
      LastBlock(state, buffer[..64]);
      ProcessBlock(buffer[..64]);
    }

    /** The digest of everything passed to Update. */
    method Final() returns (out: seq<u8>)
      requires Valid()
      modifies this`state, this`bufferLen, buffer
      ensures out == Digest(message)
    {
      PaddedMessage(state, buffer[..bufferLen], message);
      CloseMessage(Be(bitcount, 8));
      out := HashBytes(state);
    }
  }

  /** Nothing before the zeros. */
  lemma Empty(s: seq<u8>)
    requires |s| == 0
    ensures s + Zeros(56) == Zeros(56)
  {
  }

  lemma Cut(a: seq<u8>, p: seq<u8>, n: nat)
    requires n <= |p|
    ensures a + p == (a + p[..n]) + p[n..]
  {
  }

  lemma LastBlock(v: Vars, b: Block)
    ensures Absorb(v, b) == Absorbed(Compress(v, b), [])
  {
    assert b[..64] == b && b[64..] == [];
  }

  function Zeros(n: nat): (z: seq<u8>)
    ensures |z| == n
  {
    seq(n, _ => 0)
  }

  /** The last one or two blocks: the length fits the current block, or needs one more. */
  function Closing(tail: seq<u8>, length: seq<u8>): seq<u8>
    requires |tail| < 64
  {
    Completed(tail + [0x80], length)
  }

  function Completed(head: seq<u8>, length: seq<u8>): seq<u8>
    requires |head| <= 64
  {
    if |head| <= 56 then (head + Zeros(56 - |head|)) + length
    else (head + Zeros(64 - |head|)) + (Zeros(56) + length)
  }

  /** Both padding cases complete the message as section 5.1.1 prescribes. */
  lemma PaddedTail(tail: seq<u8>, len: nat)
    requires |tail| == len % 64
    ensures tail + Padding(len) == Closing(tail, LengthField(len))
  {
    assert (119 - |tail|) % 64 == if |tail| <= 55 then 55 - |tail| else 119 - |tail|;
  }

  lemma PaddedMessage(v: Vars, tail: seq<u8>, m: seq<u8>)
    requires Absorbed(v, tail) == Absorb(H0, m)
    ensures Absorb(v, Closing(tail, LengthField(|m|))) == Absorb(H0, m + Padding(|m|))
  {
    TailLength(H0, m);
    AbsorbAppend(H0, m, Padding(|m|));
    PaddedTail(tail, |m|);
  }
}
