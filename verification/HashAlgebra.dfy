/** What the functions of FIPS 180-4 sections 3.2, 4.1.2 and 6.2.2 do, told apart
    from how they are written: the sums can be undone, the sigmas are rotations, Ch
    chooses and Maj is the majority, and a round can be run backwards. */
module HashAlgebra {
  import opened Sha256Spec

  // ---------------------------------------------------------------------------
  // Sums

  function Minus(x: word, y: word): word { x - y }

  lemma AddIs(x: word, y: word)
    ensures Add(x, y) == x + y
  {}

  lemma MinusSum(x: word, y: word)
    ensures Minus(x + y, y) == x
  {}

  /** Adding can be undone, in either argument, and 0 adds nothing. */
  lemma AddUndone(x: word, y: word)
    ensures Minus(Add(x, y), y) == x
    ensures Minus(Add(x, y), x) == y
  {
    hide Add, Minus;
    AddIs(x, y);
    MinusSum(x, y);
    AddIs(y, x);
    MinusSum(y, x);
    AddCommutes(x, y);
  }

  lemma AddCommutes(x: word, y: word)
    ensures Add(x, y) == Add(y, x)
  {}

  lemma AddZero(x: word)
    ensures Add(x, 0) == x
  {}

  lemma AddToSum2(x: word, y: word, z: word)
    ensures Add(x + y, z) == x + y + z
  {}

  lemma Sum4Is(x: word, y: word, z: word, u: word)
    ensures Sum4(x, y, z, u) == x + y + z + u
  {}

  lemma Sum4FromSum3(x: word, y: word, z: word, u: word)
    ensures Sum4(x, y, z, u) == Add(x + y + z, u)
  {}

  lemma Sum5FromSum4(x: word, y: word, z: word, u: word, v: word)
    ensures Sum5(x, y, z, u, v) == Add(x + y + z + u, v)
  {}

  /** The longer sums add their terms one by one. */
  lemma SumsAdd(x: word, y: word, z: word, u: word, v: word)
    ensures Sum4(x, y, z, u) == Add(Add(Add(x, y), z), u)
    ensures Sum5(x, y, z, u, v) == Add(Sum4(x, y, z, u), v)
  {
    hide Add, Sum4, Sum5;
    AddIs(x, y);
    AddToSum2(x, y, z);
    Sum4FromSum3(x, y, z, u);
    Sum4Is(x, y, z, u);
    Sum5FromSum4(x, y, z, u, v);
  }

  // ---------------------------------------------------------------------------
  // Bitwise functions

  lemma RotrIs(x: word)
    ensures Rotr(x, 2) == (x >> 2) | (x << 30) && Rotr(x, 6) == (x >> 6) | (x << 26)
    ensures Rotr(x, 7) == (x >> 7) | (x << 25) && Rotr(x, 11) == (x >> 11) | (x << 21)
    ensures Rotr(x, 13) == (x >> 13) | (x << 19) && Rotr(x, 17) == (x >> 17) | (x << 15)
    ensures Rotr(x, 18) == (x >> 18) | (x << 14) && Rotr(x, 19) == (x >> 19) | (x << 13)
    ensures Rotr(x, 22) == (x >> 22) | (x << 10) && Rotr(x, 25) == (x >> 25) | (x << 7)
  {}

  lemma BigXors(x: word)
    ensures Xor3((x >> 2) | (x << 30), (x >> 13) | (x << 19), (x >> 22) | (x << 10))
         == x.RotateRight(2) ^ x.RotateRight(13) ^ x.RotateRight(22)
    ensures Xor3((x >> 6) | (x << 26), (x >> 11) | (x << 21), (x >> 25) | (x << 7))
         == x.RotateRight(6) ^ x.RotateRight(11) ^ x.RotateRight(25)
  {}

  lemma SmallXors(x: word)
    ensures Xor3((x >> 7) | (x << 25), (x >> 18) | (x << 14), x >> 3)
         == x.RotateRight(7) ^ x.RotateRight(18) ^ (x >> 3)
    ensures Xor3((x >> 17) | (x << 15), (x >> 19) | (x << 13), x >> 10)
         == x.RotateRight(17) ^ x.RotateRight(19) ^ (x >> 10)
  {}

  /** The sigmas are sums of the word's rotations, and shifts, by the standard's
      amounts. */
  lemma SigmasRotate(x: word)
    ensures BigSigma0(x) == x.RotateRight(2) ^ x.RotateRight(13) ^ x.RotateRight(22)
    ensures BigSigma1(x) == x.RotateRight(6) ^ x.RotateRight(11) ^ x.RotateRight(25)
    ensures SmallSigma0(x) == x.RotateRight(7) ^ x.RotateRight(18) ^ (x >> 3)
    ensures SmallSigma1(x) == x.RotateRight(17) ^ x.RotateRight(19) ^ (x >> 10)
  {
    hide Rotr, Xor3;
    RotrIs(x);
    BigXors(x);
    SmallXors(x);
  }

  /** The images of one bit, at either end of the word. */
  lemma SigmasOfOne()
    ensures BigSigma0(1) == 0x40080400 && BigSigma0(0x80000000) == 0x20040200
    ensures BigSigma1(1) == 0x04200080 && BigSigma1(0x80000000) == 0x02100040
    ensures SmallSigma0(1) == 0x02004000 && SmallSigma1(1) == 0x0000A000
    ensures SmallSigma0(0x80000000) == 0x11002000
    ensures SmallSigma1(0x80000000) == 0x00205000
  {}

  /** Where x has a one bit Ch gives y's, elsewhere z's. */
  lemma ChChooses(x: word, y: word, z: word)
    ensures Ch(x, y, z) & x == y & x
    ensures Ch(x, y, z) & !x == z & !x
  {}

  lemma TwoOfThree(x: word, y: word, z: word)
    ensures (((x & y) ^ (x & z) ^ (y & z)) ^ x) & !(x ^ y) == 0
  {}

  /** Where two of the three agree Maj agrees with them. */
  lemma MajIsMajority(x: word, y: word, z: word)
    ensures (Maj(x, y, z) ^ x) & !(x ^ y) == 0
    ensures Maj(x, y, z) == Maj(y, z, x)
  {
    TwoOfThree(x, y, z);
  }

  // ---------------------------------------------------------------------------
  // Rounds

  /** The register file before a round, from the one after it. */
  function Unround(r: Regs, k: word, w: word): Regs {
    var t2 := Add(BigSigma0(r.b), Maj(r.b, r.c, r.d));
    var t1 := Minus(r.a, t2);
    var h := Minus(Minus(Minus(Minus(t1, w), k), Ch(r.f, r.g, r.h)), BigSigma1(r.f));
    Regs(r.b, r.c, r.d, Minus(r.e, t1), r.f, r.g, r.h, h)
  }

  lemma Sum5Undone(x: word, y: word, z: word, u: word, v: word)
    ensures Minus(Minus(Minus(Minus(Sum5(x, y, z, u, v), v), u), z), y) == x
  {
    hide Add, Minus, Sum4, Sum5;
    SumsAdd(x, y, z, u, v);
    AddUndone(Sum4(x, y, z, u), v);
    AddUndone(Add(Add(x, y), z), u);
    AddUndone(Add(x, y), z);
    AddUndone(x, y);
  }

  /** A round can be run backwards, so rounds lose nothing of the registers ... */
  lemma RoundUndone(r: Regs, k: word, w: word)
    ensures Unround(Round(r, k, w), k, w) == r
  {
    hide Add, Minus, Sum5, BigSigma0, BigSigma1, Ch, Maj;
    var t1 := Sum5(r.h, BigSigma1(r.e), Ch(r.e, r.f, r.g), k, w);
    AddUndone(t1, Add(BigSigma0(r.a), Maj(r.a, r.b, r.c)));
    AddUndone(r.d, t1);
    Sum5Undone(r.h, BigSigma1(r.e), Ch(r.e, r.f, r.g), k, w);
  }

  /** ... and a round's result tells the schedule word that went into it. */
  lemma RoundTakesWord(r: Regs, k: word, v: word, w: word)
    requires Round(r, k, v) == Round(r, k, w)
    ensures v == w
  {
    hide Add, Minus, Sum4, Sum5, BigSigma0, BigSigma1, Ch, Maj;
    var s, t2 := Sum4(r.h, BigSigma1(r.e), Ch(r.e, r.f, r.g), k), Add(BigSigma0(r.a), Maj(r.a, r.b, r.c));
    SumsAdd(r.h, BigSigma1(r.e), Ch(r.e, r.f, r.g), k, v);
    SumsAdd(r.h, BigSigma1(r.e), Ch(r.e, r.f, r.g), k, w);
    AddUndone(Add(s, v), t2);
    AddUndone(Add(s, w), t2);
    AddUndone(s, v);
    AddUndone(s, w);
  }

  /** For any block, the 64 rounds map different registers to different registers. */
  lemma {:induction false} RoundsInjective(r: Regs, q: Regs, m: Block, t: nat)
    requires t <= 64 && Rounds(r, m, t) == Rounds(q, m, t)
    ensures r == q
  {
    hide Round, KAt, W, Unround;
    if t > 0 {
      RoundUndone(Rounds(r, m, t - 1), KAt(t - 1), W(m, t - 1));
      RoundUndone(Rounds(q, m, t - 1), KAt(t - 1), W(m, t - 1));
      RoundsInjective(r, q, m, t - 1);
    }
  }

  function MinusAll(x: Regs, y: Regs): Regs {
    Regs(Minus(x.a, y.a), Minus(x.b, y.b), Minus(x.c, y.c), Minus(x.d, y.d),
         Minus(x.e, y.e), Minus(x.f, y.f), Minus(x.g, y.g), Minus(x.h, y.h))
  }

  lemma PlusUndone(x: Regs, y: Regs)
    ensures MinusAll(x.Plus(y), x) == y
  {
    hide Add, Minus;
    AddUndone(x.a, y.a);
    AddUndone(x.b, y.b);
    AddUndone(x.c, y.c);
    AddUndone(x.d, y.d);
    AddUndone(x.e, y.e);
    AddUndone(x.f, y.f);
    AddUndone(x.g, y.g);
    AddUndone(x.h, y.h);
  }

  /** The feed-forward: what the compression adds to the registers is what 64 rounds
      make of them. */
  lemma CompressFeedsForward(r: Regs, m: Block)
    ensures MinusAll(Compress(r, m), r) == Rounds(r, m, 64)
  {
    hide Rounds, Regs.Plus, MinusAll;
    PlusUndone(r, Rounds(r, m, 64));
  }
}
