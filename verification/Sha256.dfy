/** The streaming SHA-256 of firmware/lib/mbedtls_wrapper/hmac_wrapper.cpp: a
    64-byte buffer, a bit counter and eight registers, updated in place, proved
    to compute the hash of everything fed to them. */
module Sha256 {
  import opened Sha256Spec
  import opened Padding

  const WRAP64: int := 0x1_0000_0000_0000_0000

  lemma ChainAppend(r: Regs, m: seq<byte>, block: Block)
    requires |m| % 64 == 0
    ensures Chain(r, m + block) == Compress(Chain(r, m), block)
  {
    var p := m + block;
    assert p[..|p| - 64] == m && p[|p| - 64..] == block;
  }

  lemma WFirst(m: Block, t: nat)
    requires t < 16
    ensures W(m, t) == Join(m[4 * t], m[4 * t + 1], m[4 * t + 2], m[4 * t + 3])
  {
    assert m[4 * t..4 * t + 4] == [m[4 * t], m[4 * t + 1], m[4 * t + 2], m[4 * t + 3]];
  }

  /** The schedule's recurrence with its terms in the firmware's order. */
  lemma WNext(m: Block, t: nat)
    requires 16 <= t < 64
    ensures W(m, t) == Sum4(W(m, t - 16), SmallSigma0(W(m, t - 15)), W(m, t - 7), SmallSigma1(W(m, t - 2)))
  {
    hide Sum4, SmallSigma0, SmallSigma1;
    SumReversed(SmallSigma1(W(m, t - 2)), W(m, t - 7), SmallSigma0(W(m, t - 15)), W(m, t - 16));
  }

  lemma SumReversed(x: word, y: word, z: word, u: word)
    ensures Sum4(x, y, z, u) == Sum4(u, z, y, x)
  {}

  /** After message m: `tail` is what is buffered, `regs` the chaining value of
      the whole blocks, and `bits` their bit count in 64-bit arithmetic. */
  ghost predicate Streamed(m: seq<byte>, tail: seq<byte>, regs: Regs, bits: nat) {
    && |tail| < 64 && |tail| <= |m|
    && var whole := |m| - |tail|;
    && whole % 64 == 0
    && tail == m[whole..]
    && regs == Chain(H0, m[..whole])
    && bits == BitCount(whole)
  }

  /** A message's length in bits, as the counter keeps it. */
  function BitCount(n: nat): nat {
    (8 * n) % WRAP64
  }

  lemma StreamBuffered(m: seq<byte>, tail: seq<byte>, regs: Regs, bits: nat, b: byte)
    requires Streamed(m, tail, regs, bits) && |tail| < 63
    ensures Streamed(m + [b], tail + [b], regs, bits)
  {
    hide Chain, BitCount;
    assert (m + [b])[..|m| - |tail|] == m[..|m| - |tail|];
  }

  lemma StreamBlock(m: seq<byte>, tail: seq<byte>, regs: Regs, bits: nat, b: byte)
    requires Streamed(m, tail, regs, bits) && |tail| == 63
    ensures Streamed(m + [b], [], Compress(regs, tail + [b]), (bits + 512) % WRAP64)
  {
    hide Chain, Compress, BitCount;
    var whole := m[..|m| - 63];
    assert m + [b] == whole + (tail + [b]) by {
      assert m == whole + tail;
    }
    BitsAdvance(|m| - 63, 64);
    ChainAppend(H0, whole, tail + [b]);
    WholeOf(m + [b]);
  }

  lemma BitsAdvance(n: nat, k: nat)
    ensures (BitCount(n) + 8 * k) % WRAP64 == BitCount(n + k)
  {}

  lemma WholeOf(m: seq<byte>)
    ensures m[..|m|] == m && m[|m|..] == []
  {}

  class Sha256Ctx {
    const state: array<word>
    var bitlen: nat
    const data: array<byte>
    var datalen: nat
    /** Everything fed in since the last Init. */
    ghost var Message: seq<byte>

    ghost predicate Shape() {
      state.Length == 8 && data.Length == 64
    }

    ghost function Registers(): Regs
      reads state
      requires Shape()
    {
      Regs(state[0], state[1], state[2], state[3], state[4], state[5], state[6], state[7])
    }

    ghost predicate Valid()
      reads this, state, data
    {
      Shape() && datalen < 64 && Streamed(Message, data[..datalen], Registers(), bitlen)
    }

    constructor ()
      ensures Valid() && Message == [] && fresh(state) && fresh(data)
    {
      state := new word[8];
      data := new byte[64];
      new;
      Init();
    }

    method Init()
      requires Shape()
      modifies this, state
      ensures Valid() && Message == []
    {
      hide Compress;
      datalen := 0;
      bitlen := 0;
      state[0], state[1], state[2], state[3] := 0x6a09e667, 0xbb67ae85, 0x3c6ef372, 0xa54ff53a;
      state[4], state[5], state[6], state[7] := 0x510e527f, 0x9b05688c, 0x1f83d9ab, 0x5be0cd19;
      Message := [];
    }

    /** The in-place schedule and the rotating registers compute the compression
        of FIPS 180-4 section 6.2.2. */
    method Transform(d: array<byte>)
      requires Shape() && d.Length == 64
      modifies state
      ensures Registers() == Compress(old(Registers()), d[..])
    {
      hide W, Add, Sum5, Ch, Maj, BigSigma0, BigSigma1, KAt;
      ghost var block: Block := d[..];
      var m := ExpandSchedule(d);
      var a, b, c, dd := state[0], state[1], state[2], state[3];
      var e, f, g, h := state[4], state[5], state[6], state[7];
      ghost var start := Registers();
      for i := 0 to 64
        invariant Regs(a, b, c, dd, e, f, g, h) == Rounds(start, block, i)
      {
        var t1 := Sum5(h, BigSigma1(e), Ch(e, f, g), KAt(i), m[i]);
        var t2 := Add(BigSigma0(a), Maj(a, b, c));
        h := g; g := f; f := e; e := Add(dd, t1); dd := c; c := b; b := a; a := Add(t1, t2);
      }
      AddToState(Regs(a, b, c, dd, e, f, g, h));
    }

    method AddToState(r: Regs)
      requires Shape()
      modifies state
      ensures Registers() == old(Registers()).Plus(r)
    {
      hide Add;
      state[0], state[1], state[2], state[3] :=
        Add(state[0], r.a), Add(state[1], r.b), Add(state[2], r.c), Add(state[3], r.d);
      state[4], state[5], state[6], state[7] :=
        Add(state[4], r.e), Add(state[5], r.f), Add(state[6], r.g), Add(state[7], r.h);
    }

    static method ExpandSchedule(d: array<byte>) returns (m: array<word>)
      requires d.Length == 64
      ensures fresh(m) && m.Length == 64
      ensures forall t :: 0 <= t < 64 ==> m[t] == W(d[..], t)
    {
      hide W, Sum4, SmallSigma0, SmallSigma1, Join;
      ghost var block: Block := d[..];
      m := new word[64];
      for i := 0 to 16
        invariant forall t :: 0 <= t < i ==> m[t] == W(block, t)
      {
        var j := 4 * i;
        m[i] := Join(d[j], d[j + 1], d[j + 2], d[j + 3]);
        WFirst(block, i);
      }
      for i := 16 to 64
        invariant forall t :: 0 <= t < i ==> m[t] == W(block, t)
      {
        var s0, s1 := SmallSigma0(m[i - 15]), SmallSigma1(m[i - 2]);
        m[i] := Sum4(m[i - 16], s0, m[i - 7], s1);
        WNext(block, i);
      }
    }

    method Update(input: seq<byte>)
      requires Valid()
      modifies this, state, data
      ensures Valid() && Message == old(Message) + input
    {
      hide Streamed;
      for i := 0 to |input|
        invariant Valid() && Message == old(Message) + input[..i]
      {
        Absorb(input[i]);
        assert input[..i + 1] == input[..i] + [input[i]];
      }
    }

    /** The body of the update loop. */
    method Absorb(b: byte)
      requires Valid()
      modifies this, state, data
      ensures Valid() && Message == old(Message) + [b]
    {
      hide Compress, Streamed;
      ghost var m, tail, regs, bits := Message, data[..datalen], Registers(), bitlen;
      data[datalen] := b;
      datalen := datalen + 1;
      Message := m + [b];
      assert data[..datalen] == tail + [b];
      if datalen == 64 {
        StreamBlock(m, tail, regs, bits, b);
        assert data[..] == data[..datalen];
        Transform(data);
        bitlen := (bitlen + 512) % WRAP64;
        datalen := 0;
      } else {
        StreamBuffered(m, tail, regs, bits, b);
      }
    }

    /** Pads, compresses what is left and writes the digest: the hash of
        everything fed in, whatever its length. */
    method Final(hash: array<byte>)
      requires Valid() && hash.Length >= 32 && hash != data
      modifies this, state, data, hash
      ensures hash[..32] == Sha256Spec.Sha256(old(Message))
      ensures hash[32..] == old(hash[32..])
    {
      hide Compress, Chain, Pad, Digest, BigEndian, Streamed;
      ghost var m := Message;
      StreamBits(m, data[..datalen], Registers(), bitlen);
      ghost var last := FillBuffer();
      bitlen := (bitlen + datalen * 8) % WRAP64;
      WriteLength();
      Transform(data);
      WriteDigest(hash);
    }

    /** Both ways of ending the last block, leaving room for the length field. */
    method FillBuffer() returns (ghost last: Block)
      requires Valid()
      modifies state, data
      ensures last == data[..56] + BigEndian(8 * |Message|, 8)
      ensures Compress(Registers(), last) == Chain(H0, Pad(Message))
    {
      hide Compress, Chain, Pad, BigEndian, Zeros, Streamed;
      ghost var tail := data[..datalen];
      ghost var whole := StreamSplit(Message, tail, Registers(), bitlen);
      if datalen < 56 {
        MarkAndZero(56);
        last := data[..56] + BigEndian(8 * |Message|, 8);
        LastBlock(whole, tail, last);
      } else {
        MarkAndZero(64);
        assert data[..] == data[..64];
        ghost var first: Block := data[..];
        Transform(data);
        forall j | 0 <= j < 56 {
          data[j] := 0;
        }
        ZerosAre(data[..56]);
        last := data[..56] + BigEndian(8 * |Message|, 8);
        LastTwoBlocks(whole, tail, first, last);
      }
    }

    /** Appends the 0x80 and zeros up to position end. */
    method MarkAndZero(end: nat)
      requires Shape() && datalen < end <= 64
      modifies data
      ensures data[..end] == old(data[..datalen]) + [0x80] + Zeros(end - datalen - 1)
    {
      hide Zeros;
      var i := datalen;
      data[i] := 0x80;
      i := i + 1;
      ZerosAre([]);
      while i < end
        invariant datalen + 1 <= i <= end
        invariant data[..i] == old(data[..datalen]) + [0x80] + Zeros(i - datalen - 1)
      {
        data[i] := 0;
        i := i + 1;
        ZerosGrow(i - datalen - 2);
      }
    }

    method WriteLength()
      requires Shape() && bitlen < WRAP64
      modifies data
      ensures data[..] == old(data[..56]) + BigEndian(bitlen, 8)
    {
      hide BigEndian, Pow256, ToByte;
      var k := 8;
      while k > 0
        invariant 0 <= k <= 8
        invariant data[..56] == old(data[..56])
        invariant forall i :: 0 <= i < 8 - k ==> data[56 + i] == BigEndian(bitlen, 8)[i]
      {
        k := k - 1;
        data[56 + (7 - k)] := ToByte(bitlen / Pow256(k) % 256);
        BigEndianAt(bitlen, 8, 7 - k);
      }
    }

    method WriteDigest(hash: array<byte>)
      requires Shape() && hash.Length >= 32 && hash != data
      modifies hash
      ensures hash[..32] == Digest(Registers())
      ensures hash[32..] == old(hash[32..])
    {
      hide ByteOf, Digest;
      hide Written;
      ghost var r, ws := Registers(), Registers().Words();
      StartWriting(hash[..32], ws);
      for i := 0 to 4
        modifies hash
        invariant hash[32..] == old(hash[32..])
        invariant Written(hash[..32], ws, i, 0)
      {
        for j := 0 to 8
          invariant hash[32..] == old(hash[32..])
          invariant Written(hash[..32], ws, i, j)
        {
          WriteStep(hash[..32], ws, i, j);
          assert state[j] == ws[j];
          hash[i + j * 4] := ByteOf(state[j], i);
        }
        ColumnDone(hash[..32], ws, i);
      }
      DigestWritten(hash[..32], r);
    }
  }

  /** Bytes 0..i-1 of every word are in place, and byte i of words 0..j-1. */
  ghost predicate Written(bytes: seq<byte>, ws: seq<word>, i: nat, j: nat) {
    && |bytes| == 32 && |ws| == 8
    && forall p :: 0 <= p < 32 && (p % 4 < i || (p % 4 == i && p / 4 < j)) ==> bytes[p] == ByteOf(ws[p / 4], p % 4)
  }

  lemma StartWriting(bytes: seq<byte>, ws: seq<word>)
    requires |bytes| == 32 && |ws| == 8
    ensures Written(bytes, ws, 0, 0)
  {}

  lemma WriteStep(bytes: seq<byte>, ws: seq<word>, i: nat, j: nat)
    requires i < 4 && j < 8 && Written(bytes, ws, i, j)
    ensures Written(bytes[i + j * 4 := ByteOf(ws[j], i)], ws, i, j + 1)
  {
    hide ByteOf;
  }

  lemma ColumnDone(bytes: seq<byte>, ws: seq<word>, i: nat)
    requires i < 4 && Written(bytes, ws, i, 8)
    ensures Written(bytes, ws, i + 1, 0)
  {
    hide ByteOf;
  }

  lemma {:induction false} BytesAt(ws: seq<word>, p: nat)
    requires p < 4 * |ws|
    ensures BytesOfAll(ws)[p] == ByteOf(ws[p / 4], p % 4)
  {
    hide ByteOf, WordOf;
    if p < 4 * (|ws| - 1) {
      BytesAt(ws[..|ws| - 1], p);
    }
  }

  lemma DigestWritten(bytes: seq<byte>, r: Regs)
    requires Written(bytes, r.Words(), 4, 0)
    ensures bytes == Digest(r)
  {
    hide ByteOf, BytesOfAll;
    forall p | 0 <= p < 32
      ensures bytes[p] == Digest(r)[p]
    {
      BytesAt(r.Words(), p);
    }
  }

  lemma LastBlock(whole: seq<byte>, tail: seq<byte>, last: Block)
    requires |whole| % 64 == 0 && |tail| < 56
    requires last == tail + [0x80] + Zeros(55 - |tail|) + BigEndian(8 * |whole + tail|, 8)
    ensures Chain(H0, Pad(whole + tail)) == Compress(Chain(H0, whole), last)
  {
    hide *;
    PadInOneBlock(whole, tail);
    ChainAppend(H0, whole, last);
  }

  lemma LastTwoBlocks(whole: seq<byte>, tail: seq<byte>, first: Block, last: Block)
    requires |whole| % 64 == 0 && 56 <= |tail| < 64
    requires first == tail + [0x80] + Zeros(63 - |tail|)
    requires last == Zeros(56) + BigEndian(8 * |whole + tail|, 8)
    ensures Chain(H0, Pad(whole + tail)) == Compress(Compress(Chain(H0, whole), first), last)
  {
    hide *;
    PadInTwoBlocks(whole, tail);
    ChainAppend(H0, whole, first);
    ChainAppend(H0, whole + first, last);
  }

  lemma StreamSplit(m: seq<byte>, tail: seq<byte>, regs: Regs, bits: nat) returns (whole: seq<byte>)
    requires Streamed(m, tail, regs, bits)
    ensures m == whole + tail && |whole| % 64 == 0 && |tail| < 64 && regs == Chain(H0, whole)
  {
    hide Chain;
    whole := m[..|m| - |tail|];
  }

  lemma ZerosAre(bytes: seq<byte>)
    requires forall i :: 0 <= i < |bytes| ==> bytes[i] == 0
    ensures bytes == Zeros(|bytes|)
  {}

  lemma ZerosGrow(n: nat)
    ensures Zeros(n + 1) == Zeros(n) + [0]
  {}

  lemma StreamBits(m: seq<byte>, tail: seq<byte>, regs: Regs, bits: nat)
    requires Streamed(m, tail, regs, bits)
    ensures bits < WRAP64 && BigEndian((bits + |tail| * 8) % WRAP64, 8) == BigEndian(8 * |m|, 8)
  {
    hide Chain, BigEndian, Pow256;
    BigEndianModulo(8 * |m|, 8);
    Pow256Is64Bits();
    BitsAdvance(|m| - |tail|, |tail|);
  }

  /** The one-shot hash. */
  method Hash(data: seq<byte>, out: array<byte>)
    requires out.Length >= 32
    modifies out
    ensures out[..32] == Sha256Spec.Sha256(data)
    ensures out[32..] == old(out[32..])
  {
    var c := new Sha256Ctx();
    hide *;
    c.Update(data);
    assert [] + data == data;
    c.Final(out);
  }
}
