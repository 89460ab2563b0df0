/** Running the compression on known words: the arithmetic of one round and of one
    schedule word written out, so that its value on numbers can be read off. */
module KnownRounds {
  import opened Sha256Spec
  import opened HashAlgebra
  import opened Padding
  import opened Sha256

  function T1(e: word, f: word, g: word, h: word, k: word, w: word): word {
    Sum5(h, ((e >> 6) | (e << 26)) ^ ((e >> 11) | (e << 21)) ^ ((e >> 25) | (e << 7)), (e & f) ^ (!e & g), k, w)
  }

  function T2(a: word, b: word, c: word): word {
    Add(((a >> 2) | (a << 30)) ^ ((a >> 13) | (a << 19)) ^ ((a >> 22) | (a << 10)), (a & b) ^ (a & c) ^ (b & c))
  }

  function Scheduled(w2: word, w7: word, w15: word, w16: word): word {
    Sum4(((w2 >> 17) | (w2 << 15)) ^ ((w2 >> 19) | (w2 << 13)) ^ (w2 >> 10), w7,
         ((w15 >> 7) | (w15 << 25)) ^ ((w15 >> 18) | (w15 << 14)) ^ (w15 >> 3), w16)
  }

  lemma XorsOut(x: word)
    ensures Xor3((x >> 2) | (x << 30), (x >> 13) | (x << 19), (x >> 22) | (x << 10))
         == ((x >> 2) | (x << 30)) ^ ((x >> 13) | (x << 19)) ^ ((x >> 22) | (x << 10))
    ensures Xor3((x >> 6) | (x << 26), (x >> 11) | (x << 21), (x >> 25) | (x << 7))
         == ((x >> 6) | (x << 26)) ^ ((x >> 11) | (x << 21)) ^ ((x >> 25) | (x << 7))
    ensures Xor3((x >> 7) | (x << 25), (x >> 18) | (x << 14), x >> 3)
         == ((x >> 7) | (x << 25)) ^ ((x >> 18) | (x << 14)) ^ (x >> 3)
    ensures Xor3((x >> 17) | (x << 15), (x >> 19) | (x << 13), x >> 10)
         == ((x >> 17) | (x << 15)) ^ ((x >> 19) | (x << 13)) ^ (x >> 10)
  {}

  lemma ChMajOut(x: word, y: word, z: word)
    ensures Ch(x, y, z) == (x & y) ^ (!x & z)
    ensures Maj(x, y, z) == (x & y) ^ (x & z) ^ (y & z)
  {}

  lemma T1Is(e: word, f: word, g: word, h: word, k: word, w: word)
    ensures T1(e, f, g, h, k, w) == Sum5(h, BigSigma1(e), Ch(e, f, g), k, w)
  {
    hide Sum5, Ch, Rotr, Xor3;
    RotrIs(e);
    XorsOut(e);
    ChMajOut(e, f, g);
  }

  lemma T2Is(a: word, b: word, c: word)
    ensures T2(a, b, c) == Add(BigSigma0(a), Maj(a, b, c))
  {
    hide Add, Maj, Rotr, Xor3;
    RotrIs(a);
    XorsOut(a);
    ChMajOut(a, b, c);
  }

  lemma ScheduledIs(w2: word, w7: word, w15: word, w16: word)
    ensures Scheduled(w2, w7, w15, w16) == Sum4(SmallSigma1(w2), w7, SmallSigma0(w15), w16)
  {
    hide Sum4, Rotr, Xor3;
    RotrIs(w2);
    RotrIs(w15);
    XorsOut(w2);
    XorsOut(w15);
  }

  /** One round takes d, c, b, a and h, g, f, e to a new a and a new e. */
  predicate Turns(d: word, c: word, b: word, a: word, a': word, h: word, g: word, f: word, e: word, e': word,
                  k: word, w: word)
  {
    T1(e, f, g, h, k, w) == e' - d && T2(a, b, c) == a' - (e' - d)
  }

  lemma AddDifference(x: word, y: word)
    ensures Add(x, y - x) == y
  {}

  lemma AddDifferences(x: word, y: word, z: word)
    ensures Add(y - x, z - (y - x)) == z
  {}

  lemma TurnsIs(d: word, c: word, b: word, a: word, a': word, h: word, g: word, f: word, e: word, e': word,
                k: word, w: word)
    requires Turns(d, c, b, a, a', h, g, f, e, e', k, w)
    ensures Round(Regs(a, b, c, d, e, f, g, h), k, w) == Regs(a', a, b, c, e', e, f, g)
  {
    hide Add, Sum5, BigSigma0, BigSigma1, Ch, Maj, T1, T2;
    T1Is(e, f, g, h, k, w);
    T2Is(a, b, c);
    AddDifference(d, e');
    AddDifferences(d, e', a');
  }

  /** Eight of these words, from index t on. */
  predicate KnownK(t: nat, k0: word, k1: word, k2: word, k3: word, k4: word, k5: word, k6: word, k7: word)
    requires t + 8 <= 64
  {
    && KAt(t + 0) == k0 && KAt(t + 1) == k1 && KAt(t + 2) == k2 && KAt(t + 3) == k3
    && KAt(t + 4) == k4 && KAt(t + 5) == k5 && KAt(t + 6) == k6 && KAt(t + 7) == k7
  }

  predicate KnownW(m: Block, t: nat, w0: word, w1: word, w2: word, w3: word, w4: word, w5: word, w6: word, w7: word)
    requires t + 8 <= 64
  {
    && W(m, t + 0) == w0 && W(m, t + 1) == w1 && W(m, t + 2) == w2 && W(m, t + 3) == w3
    && W(m, t + 4) == w4 && W(m, t + 5) == w5 && W(m, t + 6) == w6 && W(m, t + 7) == w7
  }

  /** The registers after t rounds on block m from r. */
  predicate Reached(r: Regs, m: Block, t: nat, d: word, c: word, b: word, a: word, h: word, g: word, f: word, e: word)
    requires t <= 64
  {
    Rounds(r, m, t) == Regs(a, b, c, d, e, f, g, h)
  }

  /** Eight rounds: the values a and e take in turn, from the last four before. */
  predicate EightTurns(a0: word, a1: word, a2: word, a3: word, a4: word, a5: word, a6: word, a7: word,
                       a8: word, a9: word, a10: word, a11: word, e0: word, e1: word, e2: word, e3: word,
                       e4: word, e5: word, e6: word, e7: word, e8: word, e9: word, e10: word, e11: word,
                       k0: word, k1: word, k2: word, k3: word, k4: word, k5: word, k6: word, k7: word,
                       w0: word, w1: word, w2: word, w3: word, w4: word, w5: word, w6: word, w7: word)
  {
    && Turns(a0, a1, a2, a3, a4, e0, e1, e2, e3, e4, k0, w0)
    && Turns(a1, a2, a3, a4, a5, e1, e2, e3, e4, e5, k1, w1)
    && Turns(a2, a3, a4, a5, a6, e2, e3, e4, e5, e6, k2, w2)
    && Turns(a3, a4, a5, a6, a7, e3, e4, e5, e6, e7, k3, w3)
    && Turns(a4, a5, a6, a7, a8, e4, e5, e6, e7, e8, k4, w4)
    && Turns(a5, a6, a7, a8, a9, e5, e6, e7, e8, e9, k5, w5)
    && Turns(a6, a7, a8, a9, a10, e6, e7, e8, e9, e10, k6, w6)
    && Turns(a7, a8, a9, a10, a11, e7, e8, e9, e10, e11, k7, w7)
  }

  lemma OneRound(r: Regs, m: Block, t: nat, d: word, c: word, b: word, a: word, a': word,
                 h: word, g: word, f: word, e: word, e': word, k: word, w: word)
    requires t < 64 && KAt(t) == k && W(m, t) == w
    requires Reached(r, m, t, d, c, b, a, h, g, f, e) && Turns(d, c, b, a, a', h, g, f, e, e', k, w)
    ensures Reached(r, m, t + 1, c, b, a, a', g, f, e, e')
  {
    hide Round, KAt, W, Turns;
    TurnsIs(d, c, b, a, a', h, g, f, e, e', k, w);
  }

  lemma EightRounds(r: Regs, m: Block, t: nat,
                    a0: word, a1: word, a2: word, a3: word, a4: word, a5: word, a6: word, a7: word, a8: word,
                    a9: word, a10: word, a11: word, e0: word, e1: word, e2: word, e3: word, e4: word, e5: word,
                    e6: word, e7: word, e8: word, e9: word, e10: word, e11: word, k0: word, k1: word, k2: word,
                    k3: word, k4: word, k5: word, k6: word, k7: word, w0: word, w1: word, w2: word, w3: word,
                    w4: word, w5: word, w6: word, w7: word)
    requires t + 8 <= 64 && KnownK(t, k0, k1, k2, k3, k4, k5, k6, k7)
    requires KnownW(m, t, w0, w1, w2, w3, w4, w5, w6, w7)
    requires Reached(r, m, t, a0, a1, a2, a3, e0, e1, e2, e3)
    requires EightTurns(a0, a1, a2, a3, a4, a5, a6, a7, a8, a9, a10, a11, e0, e1, e2, e3, e4, e5, e6, e7, e8,
                        e9, e10, e11, k0, k1, k2, k3, k4, k5, k6, k7, w0, w1, w2, w3, w4, w5, w6, w7)
    ensures Reached(r, m, t + 8, a8, a9, a10, a11, e8, e9, e10, e11)
  {
    hide Reached, KAt, W, Turns;
    OneRound(r, m, t + 0, a0, a1, a2, a3, a4, e0, e1, e2, e3, e4, k0, w0);
    OneRound(r, m, t + 1, a1, a2, a3, a4, a5, e1, e2, e3, e4, e5, k1, w1);
    OneRound(r, m, t + 2, a2, a3, a4, a5, a6, e2, e3, e4, e5, e6, k2, w2);
    OneRound(r, m, t + 3, a3, a4, a5, a6, a7, e3, e4, e5, e6, e7, k3, w3);
    OneRound(r, m, t + 4, a4, a5, a6, a7, a8, e4, e5, e6, e7, e8, k4, w4);
    OneRound(r, m, t + 5, a5, a6, a7, a8, a9, e5, e6, e7, e8, e9, k5, w5);
    OneRound(r, m, t + 6, a6, a7, a8, a9, a10, e6, e7, e8, e9, e10, k6, w6);
    OneRound(r, m, t + 7, a7, a8, a9, a10, a11, e7, e8, e9, e10, e11, k7, w7);
  }

  /** Eight words of the schedule, from the sixteen before. */
  predicate NextEight(w0: word, w1: word, w2: word, w3: word, w4: word, w5: word, w6: word, w7: word, w8: word,
                      w9: word, w10: word, w11: word, w12: word, w13: word, w14: word, w15: word, w16: word,
                      w17: word, w18: word, w19: word, w20: word, w21: word, w22: word, w23: word)
  {
    && Scheduled(w14, w9, w1, w0) == w16
    && Scheduled(w15, w10, w2, w1) == w17
    && Scheduled(w16, w11, w3, w2) == w18
    && Scheduled(w17, w12, w4, w3) == w19
    && Scheduled(w18, w13, w5, w4) == w20
    && Scheduled(w19, w14, w6, w5) == w21
    && Scheduled(w20, w15, w7, w6) == w22
    && Scheduled(w21, w16, w8, w7) == w23
  }

  lemma NextWords(m: Block, t: nat,
                  w0: word, w1: word, w2: word, w3: word, w4: word, w5: word, w6: word, w7: word, w8: word,
                  w9: word, w10: word, w11: word, w12: word, w13: word, w14: word, w15: word, w16: word,
                  w17: word, w18: word, w19: word, w20: word, w21: word, w22: word, w23: word)
    requires t + 24 <= 64
    requires KnownW(m, t, w0, w1, w2, w3, w4, w5, w6, w7)
    requires KnownW(m, t + 8, w8, w9, w10, w11, w12, w13, w14, w15)
    requires NextEight(w0, w1, w2, w3, w4, w5, w6, w7, w8, w9, w10, w11, w12, w13, w14, w15, w16, w17, w18,
                       w19, w20, w21, w22, w23)
    ensures KnownW(m, t + 16, w16, w17, w18, w19, w20, w21, w22, w23)
  {
    hide Sum4, SmallSigma0, SmallSigma1, Scheduled;
    ScheduledIs(w14, w9, w1, w0);
    assert W(m, t + 16) == w16;
    ScheduledIs(w15, w10, w2, w1);
    assert W(m, t + 17) == w17;
    ScheduledIs(w16, w11, w3, w2);
    assert W(m, t + 18) == w18;
    ScheduledIs(w17, w12, w4, w3);
    assert W(m, t + 19) == w19;
    ScheduledIs(w18, w13, w5, w4);
    assert W(m, t + 20) == w20;
    ScheduledIs(w19, w14, w6, w5);
    assert W(m, t + 21) == w21;
    ScheduledIs(w20, w15, w7, w6);
    assert W(m, t + 22) == w22;
    ScheduledIs(w21, w16, w8, w7);
    assert W(m, t + 23) == w23;
  }

  lemma NoRounds(a: word, b: word, c: word, d: word, e: word, f: word, g: word, h: word, m: Block)
    ensures Reached(Regs(a, b, c, d, e, f, g, h), m, 0, d, c, b, a, h, g, f, e)
  {}

  lemma ReachedIs(r: Regs, m: Block, d: word, c: word, b: word, a: word, h: word, g: word, f: word, e: word)
    requires Reached(r, m, 64, d, c, b, a, h, g, f, e)
    ensures Rounds(r, m, 64) == Regs(a, b, c, d, e, f, g, h)
  {}

  /** The feed-forward, on numbers. */
  lemma AllRounds(r: Regs, q: Regs, s: Regs, m: Block)
    requires Rounds(r, m, 64) == q
    requires Add(r.a, q.a) == s.a && Add(r.b, q.b) == s.b && Add(r.c, q.c) == s.c && Add(r.d, q.d) == s.d
    requires Add(r.e, q.e) == s.e && Add(r.f, q.f) == s.f && Add(r.g, q.g) == s.g && Add(r.h, q.h) == s.h
    ensures Compress(r, m) == s
  {
    hide Rounds, Add;
  }

  lemma K0()
    ensures KnownK(0, 0x428a2f98, 0x71374491, 0xb5c0fbcf, 0xe9b5dba5, 0x3956c25b, 0x59f111f1, 0x923f82a4, 0xab1c5ed5)
    ensures KnownK(8, 0xd807aa98, 0x12835b01, 0x243185be, 0x550c7dc3, 0x72be5d74, 0x80deb1fe, 0x9bdc06a7, 0xc19bf174)
  {}

  lemma K16()
    ensures KnownK(16, 0xe49b69c1, 0xefbe4786, 0x0fc19dc6, 0x240ca1cc, 0x2de92c6f, 0x4a7484aa, 0x5cb0a9dc, 0x76f988da)
    ensures KnownK(24, 0x983e5152, 0xa831c66d, 0xb00327c8, 0xbf597fc7, 0xc6e00bf3, 0xd5a79147, 0x06ca6351, 0x14292967)
  {}

  lemma K32()
    ensures KnownK(32, 0x27b70a85, 0x2e1b2138, 0x4d2c6dfc, 0x53380d13, 0x650a7354, 0x766a0abb, 0x81c2c92e, 0x92722c85)
    ensures KnownK(40, 0xa2bfe8a1, 0xa81a664b, 0xc24b8b70, 0xc76c51a3, 0xd192e819, 0xd6990624, 0xf40e3585, 0x106aa070)
  {}

  lemma K48()
    ensures KnownK(48, 0x19a4c116, 0x1e376c08, 0x2748774c, 0x34b0bcb5, 0x391c0cb3, 0x4ed8aa4a, 0x5b9cca4f, 0x682e6ff3)
    ensures KnownK(56, 0x748f82ee, 0x78a5636f, 0x84c87814, 0x8cc70208, 0x90befffa, 0xa4506ceb, 0xbef9a3f7, 0xc67178f2)
  {}

  // ---------------------------------------------------------------------------
  // Words and bytes

  lemma WordAt(m: Block, t: nat, b0: byte, b1: byte, b2: byte, b3: byte)
    requires t < 16 && m[4 * t] == b0 && m[4 * t + 1] == b1 && m[4 * t + 2] == b2 && m[4 * t + 3] == b3
    ensures W(m, t) == Join(b0, b1, b2, b3)
  {
    hide Join;
    WFirst(m, t);
  }

  /** The words at the head of a block are read back. */
  lemma HeadWords(m: Block, ws: seq<word>, t: nat)
    requires |ws| <= 16 && t < |ws| && m[..4 * |ws|] == BytesOfAll(ws)
    ensures W(m, t) == ws[t]
  {
    hide Join, ByteOf, BytesOfAll;
    forall i | 0 <= i < 4
      ensures m[4 * t + i] == ByteOf(ws[t], i)
    {
      assert m[4 * t + i] == m[..4 * |ws|][4 * t + i];
      BytesAt(ws, 4 * t + i);
    }
    WordAt(m, t, ByteOf(ws[t], 0), ByteOf(ws[t], 1), ByteOf(ws[t], 2), ByteOf(ws[t], 3));
    JoinSplit(ws[t]);
  }

  /** Bytes whose joins are these words are these words' bytes. */
  lemma BytesAre(ws: seq<word>, bytes: seq<byte>)
    requires |bytes| == 4 * |ws|
    requires forall t :: 0 <= t < |ws| ==> ws[t] == Join(bytes[4 * t], bytes[4 * t + 1], bytes[4 * t + 2], bytes[4 * t + 3])
    ensures BytesOfAll(ws) == bytes
  {
    hide Join, ByteOf, BytesOfAll;
    forall p | 0 <= p < |bytes|
      ensures BytesOfAll(ws)[p] == bytes[p]
    {
      var t := p / 4;
      BytesAt(ws, p);
      SplitJoin(bytes[4 * t], bytes[4 * t + 1], bytes[4 * t + 2], bytes[4 * t + 3]);
    }
  }

  lemma {:induction false} NoDigits(len: nat)
    ensures BigEndian(0, len) == Zeros(len)
  {
    if len > 0 {
      NoDigits(len - 1);
      ToByteIs(0);
    }
  }

  /** A length field of two bytes' worth. */
  lemma TwoDigits(n: nat)
    requires n < 0x1_0000
    ensures BigEndian(n, 8) == Zeros(6) + [ToByte(n / 256), ToByte(n % 256)]
  {
    hide ToByte, Zeros;
    NoDigits(6);
    var high := n / 256;
    assert high < 256 && high / 256 == 0 && high % 256 == high;
    assert BigEndian(high, 7) == BigEndian(0, 6) + [ToByte(high)];
  }
}
