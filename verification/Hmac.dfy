/** HMAC-SHA256 as RFC 2104 section 2 defines it, the firmware's host fallback
    for it, and the comparison that checks a MAC
    (firmware/lib/mbedtls_wrapper/hmac_wrapper.cpp). */
module Hmac {
  import opened Sha256Spec
  import opened Sha256

  /** The key brought to the block length: hashed if longer, then zero-extended. */
  function BlockKey(key: seq<byte>): (k0: Block) {
    var k := if |key| > 64 then Sha256Spec.Sha256(key) else key;
    k + Zeros(64 - |k|)
  }

  function Xor(x: byte, y: byte): byte { x ^ y }

  function XorAll(bytes: seq<byte>, pad: byte): (r: seq<byte>)
    ensures |r| == |bytes|
    ensures forall i :: 0 <= i < |r| ==> r[i] == Xor(bytes[i], pad)
  {
    seq(|bytes|, i requires 0 <= i < |bytes| => Xor(bytes[i], pad))
  }

  function HmacOf(key: seq<byte>, msg: seq<byte>): (mac: seq<byte>)
    ensures |mac| == 32
  {
    var k0 := BlockKey(key);
    Sha256Spec.Sha256(XorAll(k0, 0x5c) + Sha256Spec.Sha256(XorAll(k0, 0x36) + msg))
  }

  /** Two keys of at most a block are one key to HMAC exactly when the longer is
      the shorter with zeros after it. */
  lemma SameBlockKey(short: seq<byte>, long: seq<byte>)
    requires |short| <= |long| <= 64
    ensures BlockKey(short) == BlockKey(long) <==> long == short + Zeros(|long| - |short|)
  {
    var k, l := BlockKey(short), BlockKey(long);
    if k == l {
      assert short == k[..|short|] && long == l[..|long|];
      assert k[|short|..|long|] == Zeros(|long| - |short|);
      assert long == k[..|short|] + k[|short|..|long|];
    }
  }

  lemma ZeroExtendedKey(key: seq<byte>, z: nat, msg: seq<byte>)
    requires |key| + z <= 64
    ensures HmacOf(key + Zeros(z), msg) == HmacOf(key, msg)
  {
    SameBlockKey(key, key + Zeros(z));
  }

  lemma HashedKey(key: seq<byte>, msg: seq<byte>)
    requires |key| > 64
    ensures HmacOf(key, msg) == HmacOf(Sha256Spec.Sha256(key), msg)
  {
    hide Sha256Spec.Sha256;
  }

  lemma XorTwice(x: byte, p: byte)
    ensures Xor(Xor(x, p), p) == x
  {}

  /** Padding a key loses nothing of it: padding again gives it back. */
  lemma XorAllUndone(k: seq<byte>, p: byte)
    ensures XorAll(XorAll(k, p), p) == k
  {
    hide Xor;
    forall i | 0 <= i < |k|
      ensures XorAll(XorAll(k, p), p)[i] == k[i]
    {
      XorTwice(k[i], p);
    }
  }

  /** The inner and the outer pad turn a key into blocks that differ in every byte. */
  lemma PadsDiffer(k: seq<byte>, i: nat)
    requires i < |k|
    ensures XorAll(k, 0x36)[i] != XorAll(k, 0x5c)[i]
  {}

  /** What HMAC rests on: two different block keys or messages with one MAC give two
      different strings with one SHA-256. */
  lemma EqualMacsCollide(k1: seq<byte>, m1: seq<byte>, k2: seq<byte>, m2: seq<byte>) returns (x: seq<byte>, y: seq<byte>)
    requires HmacOf(k1, m1) == HmacOf(k2, m2) && (BlockKey(k1) != BlockKey(k2) || m1 != m2)
    ensures x != y && Sha256Spec.Sha256(x) == Sha256Spec.Sha256(y)
  {
    hide Sha256Spec.Sha256, BlockKey, XorAll;
    var p1, p2 := BlockKey(k1), BlockKey(k2);
    var inner1, inner2 := XorAll(p1, 0x36) + m1, XorAll(p2, 0x36) + m2;
    x, y := XorAll(p1, 0x5c) + Sha256Spec.Sha256(inner1), XorAll(p2, 0x5c) + Sha256Spec.Sha256(inner2);
    if x == y {
      assert XorAll(p1, 0x5c) == x[..64] == y[..64] == XorAll(p2, 0x5c);
      assert Sha256Spec.Sha256(inner1) == x[64..] == y[64..] == Sha256Spec.Sha256(inner2);
      XorAllUndone(p1, 0x5c);
      XorAllUndone(p2, 0x5c);
      assert m1 == inner1[64..] && m2 == inner2[64..];
      x, y := inner1, inner2;
    }
  }

  /** A pointer the firmware only reads through: null, or to some bytes. */
  datatype Pointer = Null | To(bytes: seq<byte>)

  method HmacSha256Fallback(key: seq<byte>, msg: seq<byte>, out: array<byte>) returns (ok: bool)
    requires out.Length >= 32
    modifies out
    ensures ok && out[..32] == HmacOf(key, msg)
    ensures out[32..] == old(out[32..])
  {
    hide Sha256Spec.Sha256, BlockKey, XorAll, Xor, Streamed;
    var ipad, opad := KeyedPads(key);
    var c := new Sha256Ctx();
    var inner := new byte[32];
    HashTwo(c, ipad, msg, inner);
    assert inner[..] == inner[..32];
    HashTwo(c, opad, inner[..], out);
    ok := true;
  }

  method KeyedPads(key: seq<byte>) returns (inner: seq<byte>, outer: seq<byte>)
    ensures inner == XorAll(BlockKey(key), 0x36) && outer == XorAll(BlockKey(key), 0x5c)
  {
    hide Sha256Spec.Sha256, Xor, BlockKey;
    var k0 := LoadKey(key);
    var ipad, opad := new byte[64], new byte[64];
    for i := 0 to 64
      modifies ipad, opad
      invariant forall j :: 0 <= j < i ==> ipad[j] == Xor(k0[j], 0x36) && opad[j] == Xor(k0[j], 0x5c)
    {
      ipad[i] := Xor(k0[i], 0x36);
      opad[i] := Xor(k0[i], 0x5c);
    }
    assert ipad[..] == XorAll(k0[..], 0x36) && opad[..] == XorAll(k0[..], 0x5c);
    return ipad[..], opad[..];
  }

  method LoadKey(key: seq<byte>) returns (k0: array<byte>)
    ensures fresh(k0) && k0.Length == 64 && k0[..] == BlockKey(key)
  {
    hide Sha256Spec.Sha256;
    k0 := new byte[64](_ => 0);
    if |key| > 64 {
      Hash(key, k0);
      assert k0[32..] == Zeros(32);
      assert k0[..] == k0[..32] + k0[32..];
    } else {
      forall i | 0 <= i < |key| {
        k0[i] := key[i];
      }
      assert k0[..] == key + Zeros(64 - |key|);
    }
  }

  /** Init, two updates and Final on one context. */
  method HashTwo(c: Sha256Ctx, a: seq<byte>, b: seq<byte>, out: array<byte>)
    requires c.Shape() && out.Length >= 32 && out != c.data
    modifies c, c.state, c.data, out
    ensures out[..32] == Sha256Spec.Sha256(a + b)
    ensures out[32..] == old(out[32..])
  {
    hide *;
    c.Init();
    c.Update(a);
    c.Update(b);
    assert [] + a + b == a + b;
    c.Final(out);
  }

  method HmacSha256(key: Pointer, msg: Pointer, out: array?<byte>) returns (ok: bool)
    requires out != null ==> out.Length >= 32
    modifies out
    ensures ok <==> key.To? && msg.To? && out != null
    ensures ok ==> out[..32] == HmacOf(key.bytes, msg.bytes) && out[32..] == old(out[32..])
    ensures !ok && out != null ==> out[..] == old(out[..])
  {
    if key.Null? || msg.Null? || out == null {
      return false;
    }
    ok := HmacSha256Fallback(key.bytes, msg.bytes, out);
  }

  lemma OrXorZero(d: byte, x: byte, y: byte)
    ensures d | (x ^ y) == 0 <==> d == 0 && x == y
  {}

  /** Accumulating every difference decides equality of the whole buffers. */
  method ConstantTimeEqual(a: Pointer, b: Pointer, len: nat) returns (equal: bool)
    requires a.To? ==> len <= |a.bytes|
    requires b.To? ==> len <= |b.bytes|
    ensures equal <==> a.To? && b.To? && a.bytes[..len] == b.bytes[..len]
  {
    if a.Null? || b.Null? {
      return false;
    }
    var diff: byte := 0;
    for i := 0 to len
      invariant diff == 0 <==> forall j :: 0 <= j < i ==> a.bytes[j] == b.bytes[j]
    {
      OrXorZero(diff, a.bytes[i], b.bytes[i]);
      diff := diff | (a.bytes[i] ^ b.bytes[i]);
    }
    return diff == 0;
  }
}
