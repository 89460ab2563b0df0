/** The padding of FIPS 180-4 section 5.1.1: it can be undone, so no two
    messages share one, and its length field reads back as the bit length. */
module Padding {
  import opened Sha256Spec

  function Pow256(k: nat): (p: nat)
    ensures p > 0
  {
    if k == 0 then 1 else 256 * Pow256(k - 1)
  }

  lemma DivDiv(n: nat, p: nat)
    requires p > 0
    ensures (n / 256) / p == n / (256 * p)
  {
    var q := n / (256 * p);
    var r := n % (256 * p);
    assert n == 256 * (p * q) + r;
    assert n / 256 == p * q + r / 256;
    assert r / 256 < p;
    QuotientUnique(n / 256, p, q, r / 256);
  }

  lemma QuotientUnique(a: nat, p: nat, q: nat, r: nat)
    requires a == p * q + r && r < p
    ensures a / p == q && a % p == r
  {
    var d := a / p - q;
    assert p * d == r - a % p;
    assert d >= 1 ==> p * d >= p;
    assert d <= -1 ==> p * d + p <= 0;
  }

  /** Byte i of the numeral is the shifted-out byte the firmware stores there. */
  lemma {:induction false} BigEndianAt(n: nat, len: nat, i: nat)
    requires i < len
    ensures BigEndian(n, len)[i] == ToByte(n / Pow256(len - 1 - i) % 256)
  {
    hide ToByte;
    if i < len - 1 {
      BigEndianAt(n / 256, len - 1, i);
      DivDiv(n, Pow256(len - 2 - i));
    }
  }

  function FromBigEndian(bytes: seq<byte>): nat {
    if bytes == [] then 0
    else 256 * FromBigEndian(bytes[..|bytes| - 1]) + bytes[|bytes| - 1] as nat
  }

  lemma AppendDigit(bytes: seq<byte>, d: byte)
    ensures FromBigEndian(bytes + [d]) == 256 * FromBigEndian(bytes) + d as nat
  {
    assert (bytes + [d])[..|bytes|] == bytes;
  }

  lemma Nibble(x: nat)
    requires x < 16
    ensures (x as byte) as nat == x && x as byte < 16
  {}

  lemma FromNibblesIs(high: byte, low: byte)
    requires high < 16 && low < 16
    ensures FromNibbles(high, low) as nat == 16 * (high as nat) + low as nat
  {}

  lemma ToByteIs(x: nat)
    requires x < 256
    ensures ToByte(x) as nat == x
  {
    hide FromNibbles;
    Nibble(x / 16);
    Nibble(x % 16);
    FromNibblesIs((x / 16) as byte, (x % 16) as byte);
  }

  lemma {:induction false} BigEndianRoundTrip(n: nat, len: nat)
    ensures FromBigEndian(BigEndian(n, len)) == n % Pow256(len)
  {
    hide ToByte;
    if len > 0 {
      ToByteIs(n % 256);
      AppendDigit(BigEndian(n / 256, len - 1), ToByte(n % 256));
      BigEndianRoundTrip(n / 256, len - 1);
      DigitStep(n, Pow256(len - 1));
    }
  }

  lemma DigitStep(n: nat, p: nat)
    requires p > 0
    ensures 256 * ((n / 256) % p) + n % 256 == n % (256 * p)
  {
    var q, r := (n / 256) / p, (n / 256) % p;
    assert n / 256 == p * q + r;
    assert n == (256 * p) * q + (256 * r + n % 256);
    QuotientUnique(n, 256 * p, q, 256 * r + n % 256);
  }

  lemma {:induction false} BigEndianModulo(n: nat, len: nat)
    ensures BigEndian(n, len) == BigEndian(n % Pow256(len), len)
  {
    hide ToByte;
    if len > 0 {
      var p := Pow256(len - 1);
      DigitStep(n, p);
      assert (n % (256 * p)) / 256 == (n / 256) % p && (n % (256 * p)) % 256 == n % 256;
      BigEndianModulo(n / 256, len - 1);
    }
  }

  /** Undoes padding: drop the length field, the zeros before it and the 0x80. */
  function Unpad(p: seq<byte>): seq<byte> {
    if |p| < 8 then [] else DropMark(p[..|p| - 8])
  }

  function DropMark(p: seq<byte>): seq<byte> {
    if p == [] then []
    else if p[|p| - 1] == 0 then DropMark(p[..|p| - 1])
    else p[..|p| - 1]
  }

  lemma {:induction false} DropMarkZeros(m: seq<byte>, z: nat)
    ensures DropMark(m + [0x80] + Zeros(z)) == m
  {
    var p := m + [0x80] + Zeros(z);
    if z == 0 {
      assert p[..|p| - 1] == m;
    } else {
      assert p[..|p| - 1] == m + [0x80] + Zeros(z - 1);
      DropMarkZeros(m, z - 1);
    }
  }

  /** Padding can be undone, for every message whatever its length. */
  lemma UnpadPad(m: seq<byte>)
    ensures Unpad(Pad(m)) == m
  {
    var p := Pad(m);
    assert p[..|p| - 8] == m + [0x80] + Zeros(ZeroCount(|m|));
    DropMarkZeros(m, ZeroCount(|m|));
  }

  lemma PadInjective(m1: seq<byte>, m2: seq<byte>)
    requires Pad(m1) == Pad(m2)
    ensures m1 == m2
  {
    UnpadPad(m1);
    UnpadPad(m2);
  }

  /** The length field reads back as the bit length exactly when that fits the
      64 bits FIPS 180-4 allows it. */
  lemma LengthField(m: seq<byte>)
    ensures var p := Pad(m);
      FromBigEndian(p[|p| - 8..]) == 8 * |m| <==> |m| < 0x2000_0000_0000_0000
  {
    hide BigEndian, FromBigEndian, Zeros, ZeroCount, Pow256;
    var p := Pad(m);
    assert p[|p| - 8..] == BigEndian(8 * |m|, 8);
    BigEndianRoundTrip(8 * |m|, 8);
    Pow256Is64Bits();
  }

  lemma Pow256Is64Bits()
    ensures Pow256(8) == 0x1_0000_0000_0000_0000
  {
    assert Pow256(4) == 0x1_0000_0000;
  }

  /** Big-endian words round-trip both ways. */
  lemma WordRoundTrip(bytes: seq<byte>, w: word)
    requires |bytes| == 4
    ensures BytesOf(WordOf(bytes)) == bytes
    ensures WordOf(BytesOf(w)) == w
  {
    SplitJoin(bytes[0], bytes[1], bytes[2], bytes[3]);
    JoinSplit(w);
    hide Join, ByteOf;
  }

  lemma SplitJoin(b0: byte, b1: byte, b2: byte, b3: byte)
    ensures var w := Join(b0, b1, b2, b3);
      ByteOf(w, 0) == b0 && ByteOf(w, 1) == b1 && ByteOf(w, 2) == b2 && ByteOf(w, 3) == b3
  {
    HighBytes(b0, b1, b2, b3);
    LowBytes(b0, b1, b2, b3);
  }

  lemma HighBytes(b0: byte, b1: byte, b2: byte, b3: byte)
    ensures var w := ((b0 as word) << 24) | ((b1 as word) << 16) | ((b2 as word) << 8) | (b3 as word);
      ((w >> 24) & 0xff) as byte == b0 && ((w >> 16) & 0xff) as byte == b1
  {}

  lemma LowBytes(b0: byte, b1: byte, b2: byte, b3: byte)
    ensures var w := ((b0 as word) << 24) | ((b1 as word) << 16) | ((b2 as word) << 8) | (b3 as word);
      ((w >> 8) & 0xff) as byte == b2 && (w & 0xff) as byte == b3
  {}

  lemma JoinSplit(w: word)
    ensures Join(ByteOf(w, 0), ByteOf(w, 1), ByteOf(w, 2), ByteOf(w, 3)) == w
  {
    FourBytes(w);
  }

  lemma FourBytes(w: word)
    ensures ((((w >> 24) & 0xff) as byte as word) << 24) | ((((w >> 16) & 0xff) as byte as word) << 16)
            | ((((w >> 8) & 0xff) as byte as word) << 8) | ((w & 0xff) as byte as word) == w
  {}

  lemma Regroup<T>(a: seq<T>, b: seq<T>, c: seq<T>, d: seq<T>, e: seq<T>)
    ensures a + b + c + d + e == a + (b + c + d + e)
  {}

  lemma RegroupTwo<T>(a: seq<T>, b: seq<T>, c: seq<T>, d: seq<T>, e: seq<T>, f: seq<T>)
    ensures a + b + c + (d + e) + f == a + (b + c + d) + (e + f)
  {}

  /** The two endings of the padding, after the whole blocks of the message: one
      block when the tail leaves room for the length, two when it does not. */
  lemma PadInOneBlock(whole: seq<byte>, tail: seq<byte>)
    requires |whole| % 64 == 0 && |tail| < 56
    ensures var len := BigEndian(8 * (|whole| + |tail|), 8);
      Pad(whole + tail) == whole + (tail + [0x80] + Zeros(55 - |tail|) + len)
  {
    hide BigEndian, Zeros;
    assert ZeroCount(|whole + tail|) == 55 - |tail|;
    Regroup(whole, tail, [0x80], Zeros(55 - |tail|), BigEndian(8 * (|whole| + |tail|), 8));
  }

  lemma PadInTwoBlocks(whole: seq<byte>, tail: seq<byte>)
    requires |whole| % 64 == 0 && 56 <= |tail| < 64
    ensures var len := BigEndian(8 * (|whole| + |tail|), 8);
      Pad(whole + tail) == whole + (tail + [0x80] + Zeros(63 - |tail|)) + (Zeros(56) + len)
  {
    hide BigEndian, Zeros;
    assert ZeroCount(|whole + tail|) == 119 - |tail|;
    ZerosSplit(63 - |tail|, 56);
    RegroupTwo(whole, tail, [0x80], Zeros(63 - |tail|), Zeros(56), BigEndian(8 * (|whole| + |tail|), 8));
  }

  lemma ZerosSplit(a: nat, b: nat)
    ensures Zeros(a + b) == Zeros(a) + Zeros(b)
  {}
}
