/** SHA-256 as FIPS 180-4 defines it, over whole bytes. */
module Sha256Spec {

  type byte = bv8
  type word = bv32

  // Section 3.2: addition modulo 2^32

  function Add(x: word, y: word): word { x + y }

  function Sum4(x: word, y: word, z: word, u: word): word { x + y + z + u }

  function Sum5(x: word, y: word, z: word, u: word, v: word): word { x + y + z + u + v }

  // Section 4.1.2: functions

  function Rotr(x: word, n: nat): word
    requires n < 32
  {
    (x >> n) | (x << (32 - n))
  }

  function Ch(x: word, y: word, z: word): word { (x & y) ^ (!x & z) }

  function Maj(x: word, y: word, z: word): word { (x & y) ^ (x & z) ^ (y & z) }

  function Xor3(x: word, y: word, z: word): word { x ^ y ^ z }

  function BigSigma0(x: word): word { Xor3(Rotr(x, 2), Rotr(x, 13), Rotr(x, 22)) }

  function BigSigma1(x: word): word { Xor3(Rotr(x, 6), Rotr(x, 11), Rotr(x, 25)) }

  function SmallSigma0(x: word): word { Xor3(Rotr(x, 7), Rotr(x, 18), x >> 3) }

  function SmallSigma1(x: word): word { Xor3(Rotr(x, 17), Rotr(x, 19), x >> 10) }

  // Section 4.2.2: constants

  function KAt(t: nat): word
    requires t < 64
  {
    if t < 8 then [0x428a2f98, 0x71374491, 0xb5c0fbcf, 0xe9b5dba5, 0x3956c25b, 0x59f111f1, 0x923f82a4, 0xab1c5ed5][t]
    else if t < 16 then [0xd807aa98, 0x12835b01, 0x243185be, 0x550c7dc3, 0x72be5d74, 0x80deb1fe, 0x9bdc06a7, 0xc19bf174][t - 8]
    else if t < 24 then [0xe49b69c1, 0xefbe4786, 0x0fc19dc6, 0x240ca1cc, 0x2de92c6f, 0x4a7484aa, 0x5cb0a9dc, 0x76f988da][t - 16]
    else if t < 32 then [0x983e5152, 0xa831c66d, 0xb00327c8, 0xbf597fc7, 0xc6e00bf3, 0xd5a79147, 0x06ca6351, 0x14292967][t - 24]
    else if t < 40 then [0x27b70a85, 0x2e1b2138, 0x4d2c6dfc, 0x53380d13, 0x650a7354, 0x766a0abb, 0x81c2c92e, 0x92722c85][t - 32]
    else if t < 48 then [0xa2bfe8a1, 0xa81a664b, 0xc24b8b70, 0xc76c51a3, 0xd192e819, 0xd6990624, 0xf40e3585, 0x106aa070][t - 40]
    else if t < 56 then [0x19a4c116, 0x1e376c08, 0x2748774c, 0x34b0bcb5, 0x391c0cb3, 0x4ed8aa4a, 0x5b9cca4f, 0x682e6ff3][t - 48]
    else [0x748f82ee, 0x78a5636f, 0x84c87814, 0x8cc70208, 0x90befffa, 0xa4506ceb, 0xbef9a3f7, 0xc67178f2][t - 56]
  }

  // Section 5.3.3: initial hash value

  datatype Regs = Regs(a: word, b: word, c: word, d: word, e: word, f: word, g: word, h: word) {
    function Plus(y: Regs): Regs {
      Regs(Add(a, y.a), Add(b, y.b), Add(c, y.c), Add(d, y.d), Add(e, y.e), Add(f, y.f), Add(g, y.g), Add(h, y.h))
    }

    function Words(): (ws: seq<word>)
      ensures |ws| == 8
    {
      [a, b, c, d, e, f, g, h]
    }
  }

  const H0: Regs := Regs(0x6a09e667, 0xbb67ae85, 0x3c6ef372, 0xa54ff53a,
                         0x510e527f, 0x9b05688c, 0x1f83d9ab, 0x5be0cd19)

  // Section 3.1: words are big-endian

  function Join(b0: byte, b1: byte, b2: byte, b3: byte): word {
    ((b0 as word) << 24) | ((b1 as word) << 16) | ((b2 as word) << 8) | (b3 as word)
  }

  function WordOf(bytes: seq<byte>): word
    requires |bytes| == 4
  {
    Join(bytes[0], bytes[1], bytes[2], bytes[3])
  }

  function ByteOf(w: word, i: nat): byte
    requires i < 4
  {
    if i == 0 then ((w >> 24) & 0xff) as byte
    else if i == 1 then ((w >> 16) & 0xff) as byte
    else if i == 2 then ((w >> 8) & 0xff) as byte
    else (w & 0xff) as byte
  }

  function BytesOf(w: word): (bytes: seq<byte>)
    ensures |bytes| == 4
  {
    [ByteOf(w, 0), ByteOf(w, 1), ByteOf(w, 2), ByteOf(w, 3)]
  }

  // Section 6.2.2: hash computation

  type Block = b: seq<byte> | |b| == 64 witness seq(64, _ => 0)

  function W(m: Block, t: nat): word
    requires t < 64
  {
    if t < 16 then WordOf(m[4 * t..4 * t + 4])
    else Sum4(SmallSigma1(W(m, t - 2)), W(m, t - 7), SmallSigma0(W(m, t - 15)), W(m, t - 16))
  }

  function Round(r: Regs, k: word, w: word): Regs {
    var t1 := Sum5(r.h, BigSigma1(r.e), Ch(r.e, r.f, r.g), k, w);
    var t2 := Add(BigSigma0(r.a), Maj(r.a, r.b, r.c));
    Regs(Add(t1, t2), r.a, r.b, r.c, Add(r.d, t1), r.e, r.f, r.g)
  }

  function Rounds(r: Regs, m: Block, t: nat): Regs
    requires t <= 64
  {
    if t == 0 then r else Round(Rounds(r, m, t - 1), KAt(t - 1), W(m, t - 1))
  }

  function Compress(r: Regs, m: Block): Regs {
    r.Plus(Rounds(r, m, 64))
  }

  /** Chains the compression over a whole number of blocks. */
  function Chain(r: Regs, m: seq<byte>): Regs
    requires |m| % 64 == 0
  {
    if m == [] then r else Compress(Chain(r, m[..|m| - 64]), m[|m| - 64..])
  }

  // Section 5.1.1: padding

  function FromNibbles(high: byte, low: byte): byte { (high << 4) | low }

  function ToByte(x: nat): byte
    requires x < 256
  {
    FromNibbles((x / 16) as byte, (x % 16) as byte)
  }

  /** The len-byte big-endian numeral of n, modulo 256^len. */
  function BigEndian(n: nat, len: nat): (bytes: seq<byte>)
    ensures |bytes| == len
  {
    if len == 0 then [] else BigEndian(n / 256, len - 1) + [ToByte(n % 256)]
  }

  function Zeros(n: nat): (bytes: seq<byte>)
    ensures |bytes| == n
    ensures forall i :: 0 <= i < n ==> bytes[i] == 0
  {
    seq(n, _ => 0)
  }

  /** With z zero bytes, exactly eight bytes of the last block are left for the length. */
  predicate LeavesEight(len: nat, z: nat) {
    (len + 1 + z) % 64 == 56
  }

  /** The fewest such zero bytes. */
  function ZeroCount(len: nat): (z: nat)
    ensures z < 64 && LeavesEight(len, z)
    ensures forall y: nat :: LeavesEight(len, y) ==> z <= y
  {
    (55 - len) % 64
  }

  function Pad(m: seq<byte>): (p: seq<byte>)
    ensures |p| % 64 == 0
  {
    m + [0x80] + Zeros(ZeroCount(|m|)) + BigEndian(8 * |m|, 8)
  }

  function BytesOfAll(ws: seq<word>): (bytes: seq<byte>)
    ensures |bytes| == 4 * |ws|
  {
    if ws == [] then [] else BytesOfAll(ws[..|ws| - 1]) + BytesOf(ws[|ws| - 1])
  }

  function Digest(r: Regs): (bytes: seq<byte>)
    ensures |bytes| == 32
  {
    BytesOfAll(r.Words())
  }

  function Sha256(m: seq<byte>): (bytes: seq<byte>)
    ensures |bytes| == 32
  {
    Digest(Chain(H0, Pad(m)))
  }
}
