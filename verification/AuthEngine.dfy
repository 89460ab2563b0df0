/** The two authentication engines: the firmware's, over its ring of records
    (firmware/src/auth_engine.cpp), and the simulator's, over a dictionary
    (simulator/sca_common.py). */
module AuthEngine {
  import opened Clock
  import opened AuthRing
  import opened Hmac

  const NONCE_LEN: nat := 32
  const HMAC_LEN: nat := 32

  const SHARED_SECRET: Bytes := [
    0x53, 0x43, 0x41, 0x2d, 0x73, 0x6d, 0x61, 0x72, 0x74, 0x6b, 0x65, 0x79, 0x2d, 0x73, 0x68, 0x61,
    0x72, 0x65, 0x64, 0x2d, 0x73, 0x65, 0x63, 0x72, 0x65, 0x74, 0x2d, 0x76, 0x31, 0x2e, 0x30, 0x21]

  /** The MAC both engines expect for a nonce. */
  function ExpectedMac(nonce: Bytes): (mac: Bytes)
    ensures |mac| == HMAC_LEN
  {
    HmacOf(SHARED_SECRET, nonce)
  }

  // ---------------------------------------------------------------------------
  // The test generator: xorshift32

  function XorShl(x: bv32, n: nat): bv32
    requires n < 32
  {
    x ^ (x << n)
  }

  function XorShr(x: bv32, n: nat): bv32
    requires n < 32
  {
    x ^ (x >> n)
  }

  function NextRand(x: bv32): bv32 {
    XorShl(XorShr(XorShl(x, 13), 17), 5)
  }

  function Unshl13(y: bv32): bv32 { y ^ (y << 13) ^ (y << 26) }

  function Unshr17(y: bv32): bv32 { y ^ (y >> 17) }

  function Unshl5(y: bv32): bv32 { y ^ (y << 5) ^ (y << 10) ^ (y << 15) ^ (y << 20) ^ (y << 25) ^ (y << 30) }

  lemma Shl13Undone(x: bv32)
    ensures XorShl(x, 13) == x ^ (x << 13)
    ensures Unshl13(x ^ (x << 13)) == x
  {}

  lemma Shr17Undone(x: bv32)
    ensures XorShr(x, 17) == x ^ (x >> 17)
    ensures Unshr17(x ^ (x >> 17)) == x
  {}

  lemma Shl5Undone(x: bv32)
    ensures XorShl(x, 5) == x ^ (x << 5)
    ensures Unshl5(x ^ (x << 5)) == x
  {}

  /** The generator's step can be undone, so it never merges two states ... */
  lemma NextRandUndone(x: bv32)
    ensures Unshl13(Unshr17(Unshl5(NextRand(x)))) == x
  {
    hide XorShl, XorShr, Unshl13, Unshr17, Unshl5;
    Shl13Undone(x);
    Shr17Undone(XorShl(x, 13));
    Shl5Undone(XorShr(XorShl(x, 13), 17));
  }

  lemma NoFixedPoint(x: bv32, y: bv32, z: bv32)
    requires y == x ^ (x << 13) && z == y ^ (y >> 17) && x == z ^ (z << 5)
    ensures x == 0
  {}

  lemma ZeroStays()
    ensures NextRand(0) == 0
  {}

  /** ... and stands still only at 0, the state that seeding avoids. */
  lemma NextRandStandsStill(x: bv32)
    ensures NextRand(x) == x <==> x == 0
  {
    hide XorShl, XorShr, Unshl13, Unshr17, Unshl5;
    ZeroStays();
    var y := XorShl(x, 13);
    var z := XorShr(y, 17);
    Shl13Undone(x);
    Shr17Undone(y);
    Shl5Undone(z);
    if NextRand(x) == x {
      NoFixedPoint(x, y, z);
    }
  }

  function RandState(x: bv32, n: nat): bv32 {
    if n == 0 then x else NextRand(RandState(x, n - 1))
  }

  /** The low bytes of the next n outputs. */
  function RandBytes(x: bv32, n: nat): (bytes: Bytes)
    ensures |bytes| == n
  {
    if n == 0 then [] else RandBytes(x, n - 1) + [(RandState(x, n) & 0xff) as bv8]
  }

  lemma LowByte(x: bv32)
    ensures ((x & 0xff) as bv8) as bv32 == x % 256
  {}

  /** Byte i is output i + 1 of the generator, modulo 256. */
  lemma {:induction false} RandByteAt(x: bv32, n: nat, i: nat)
    requires i < n
    ensures RandBytes(x, n)[i] as bv32 == RandState(x, i + 1) % 256
  {
    hide RandState;
    if i < n - 1 {
      RandByteAt(x, n - 1, i);
    } else {
      LowByte(RandState(x, n));
    }
  }

  class AuthEngine {
    const pool: array<NonceRecord>
    var nextSlot: nat
    var rngState: bv32
    var testRng: bool

    ghost predicate Valid()
      reads this, pool
    {
      View().Valid() && forall s :: 0 <= s < pool.Length ==> |pool[s].nonce| == NONCE_LEN
    }

    ghost function View(): Ring
      reads this, pool
    {
      Ring(pool[..], nextSlot)
    }

    constructor ()
      ensures Valid() && Blank(View()) && fresh(pool)
      ensures rngState == 0x12345678 && !testRng
    {
      nextSlot, rngState, testRng := 0, 0x12345678, false;
      pool := new NonceRecord[NONCE_POOL_SIZE](_ => NonceRecord(seq(NONCE_LEN, _ => 0), 0, 0, false, false));
    }

    method SetTestRng(seed: bv32)
      modifies this`rngState, this`testRng
      ensures testRng && rngState == if seed != 0 then seed else 1
    {
      testRng := true;
      rngState := if seed != 0 then seed else 1;
    }

    method NextRandom() returns (x: bv32)
      modifies this`rngState
      ensures x == rngState == NextRand(old(rngState))
    {
      hide XorShl, XorShr;
      x := rngState;
      x := XorShl(x, 13);
      x := XorShr(x, 17);
      x := XorShl(x, 5);
      rngState := x;
    }

    method FillRandom(len: nat) returns (bytes: Bytes)
      modifies this`rngState
      ensures bytes == RandBytes(old(rngState), len) && rngState == RandState(old(rngState), len)
    {
      bytes := [];
      for i := 0 to len
        invariant bytes == RandBytes(old(rngState), i) && rngState == RandState(old(rngState), i)
      {
        hide NextRand;
        var x := NextRandom();
        bytes := bytes + [(x & 0xff) as bv8];
      }
    }

    method NewChallenge(handle: u16, now: u32, outNonce: array?<bv8>) returns (ok: bool)
      requires Valid() && (outNonce != null ==> outNonce.Length == NONCE_LEN)
      modifies this`nextSlot, this`rngState, pool, outNonce
      ensures Valid() && (ok <==> outNonce != null)
      ensures ok ==> outNonce[..] == RandBytes(old(rngState), NONCE_LEN)
      ensures ok ==> View() == old(View()).Issue(handle, now, outNonce[..])
      ensures !ok ==> View() == old(View()) && rngState == old(rngState)
    {
      if outNonce == null {
        return false;
      }
      hide RandBytes, RandState;
      var slot := nextSlot;
      nextSlot := (nextSlot + 1) % NONCE_POOL_SIZE;
      var nonce := FillRandom(NONCE_LEN);
      pool[slot] := NonceRecord(nonce, now, handle, false, true);
      forall i | 0 <= i < NONCE_LEN {
        outNonce[i] := nonce[i];
      }
      assert outNonce[..] == nonce;
      return true;
    }

    method Find(nonce: Bytes) returns (slot: nat)
      requires Valid() && |nonce| == NONCE_LEN
      ensures slot == FindFrom(pool[..], nonce, 0)
    {
      slot := 0;
      while slot < pool.Length
        invariant slot <= pool.Length
        invariant FindFrom(pool[..], nonce, 0) == FindFrom(pool[..], nonce, slot)
      {
        if pool[slot].valid {
          var equal := ConstantTimeEqual(To(pool[slot].nonce), To(nonce), NONCE_LEN);
          assert pool[slot].nonce[..NONCE_LEN] == pool[slot].nonce && nonce[..NONCE_LEN] == nonce;
          if equal {
            return;
          }
        }
        slot := slot + 1;
      }
    }

    method VerifyResponse(handle: u16, now: u32, nonce: Pointer, response: Pointer) returns (result: AuthResult)
      requires Valid()
      requires nonce.To? ==> |nonce.bytes| == NONCE_LEN
      requires response.To? ==> |response.bytes| == HMAC_LEN
      modifies pool
      ensures Valid()
      ensures nonce.To? && response.To? ==>
                (View(), result) ==
                old(View()).Verify(ExpectedMac(nonce.bytes), handle, now, nonce.bytes, response.bytes)
      ensures nonce.Null? || response.Null? ==> View() == old(View()) && result == UnknownNonce
    {
      hide ExpectedMac;
      if nonce.Null? || response.Null? {
        return UnknownNonce;
      }
      var slot := Find(nonce.bytes);
      if slot == pool.Length {
        return UnknownNonce;
      }
      if pool[slot].consumed {
        return Replayed;
      }
      if Elapsed(now, pool[slot].issuedMs) > NONCE_TTL_MS {
        return Expired;
      }
      if pool[slot].handle != handle {
        return HandleMismatch;
      }
      var expected := new bv8[HMAC_LEN];
      var ok := ComputeResponse(nonce, expected);
      if !ok {
        return BadHmac;
      }
      var equal := ConstantTimeEqual(To(expected[..]), response, HMAC_LEN);
      assert expected[..][..HMAC_LEN] == expected[..] && response.bytes[..HMAC_LEN] == response.bytes;
      if !equal {
        return BadHmac;
      }
      pool[slot] := pool[slot].(consumed := true);
      return OK;
    }

    static method ComputeResponse(nonce: Pointer, out: array<bv8>) returns (ok: bool)
      requires out.Length == HMAC_LEN
      modifies out
      ensures ok <==> nonce.To?
      ensures ok ==> out[..] == ExpectedMac(nonce.bytes)
    {
      hide HmacOf;
      ok := HmacSha256(To(SHARED_SECRET), nonce, out);
      assert out[..HMAC_LEN] == out[..];
    }

    method ActiveNonces() returns (n: nat)
      requires Valid()
      ensures n == CountActive(pool[..])
    {
      n := 0;
      for i := 0 to pool.Length
        invariant n == CountActive(pool[..i])
      {
        assert pool[..i + 1] == pool[..i] + [pool[i]];
        if pool[i].valid && !pool[i].consumed {
          n := n + 1;
        }
      }
      assert pool[..pool.Length] == pool[..];
    }
  }

  class SimAuthEngine {
    var pool: Pool

    constructor ()
      ensures pool == map[]
    {
      pool := map[];
    }

    /** The random nonce is a parameter. */
    method NewChallenge(handle: int, nowS: real, nonce: Bytes)
      modifies this
      ensures pool == MapIssue(old(pool), handle, nowS, nonce)
    {
      pool := pool[nonce := MapRecord(nowS, handle, false)];
    }

    method VerifyResponse(handle: int, nonce: Bytes, response: Bytes, nowS: real) returns (result: AuthResult)
      modifies this
      ensures (pool, result) == MapVerify(old(pool), ExpectedMac(nonce), handle, nonce, response, nowS)
    {
      hide ExpectedMac;
      if nonce !in pool {
        return UnknownNonce;
      }
      var rec := pool[nonce];
      if rec.consumed {
        return Replayed;
      }
      if nowS - rec.issuedS > NONCE_TTL_S {
        return Expired;
      }
      if rec.handle != handle {
        return HandleMismatch;
      }
      var expected := ExpectedMac(nonce);
      if expected != response {
        return BadHmac;
      }
      pool := pool[nonce := rec.(consumed := true)];
      return OK;
    }
  }
}
