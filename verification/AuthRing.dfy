/** The challenge-response rules: the firmware's 16-slot overwriting ring
    (firmware/src/auth_engine.cpp) and, as the simple form of the same rules, the
    simulator's unbounded map (simulator/sca_common.py).  The MAC is a parameter:
    nothing here depends on how it is computed. */
module AuthRing {
  import opened Clock

  const NONCE_POOL_SIZE: nat := 16
  const NONCE_TTL_MS: u32 := 60000

  type Bytes = seq<bv8>
  type Mac = Bytes -> Bytes

  datatype AuthResult = OK | UnknownNonce | Expired | Replayed | HandleMismatch | BadHmac

  datatype NonceRecord = NonceRecord(nonce: Bytes, issuedMs: u32, handle: u16, consumed: bool, valid: bool) {
    predicate Active() {
      valid && !consumed
    }
  }

  /** The first slot from i on that holds a valid record of this nonce, or the
      size of the pool. */
  function FindFrom(pool: seq<NonceRecord>, nonce: Bytes, i: nat): (s: nat)
    requires i <= |pool|
    ensures i <= s <= |pool|
    ensures s < |pool| ==> pool[s].valid && pool[s].nonce == nonce
    ensures forall j :: i <= j < s ==> !(pool[j].valid && pool[j].nonce == nonce)
    decreases |pool| - i
  {
    if i == |pool| || (pool[i].valid && pool[i].nonce == nonce) then i else FindFrom(pool, nonce, i + 1)
  }

  datatype Ring = Ring(pool: seq<NonceRecord>, nextSlot: nat) {
    predicate Valid() {
      |pool| == NONCE_POOL_SIZE && nextSlot < NONCE_POOL_SIZE
    }

    function Issue(handle: u16, now: u32, nonce: Bytes): (r: Ring)
      requires Valid()
      ensures r.Valid()
    {
      Ring(pool[nextSlot := NonceRecord(nonce, now, handle, false, true)], (nextSlot + 1) % NONCE_POOL_SIZE)
    }

    /** Why record rec does not accept the response, or OK. */
    static function Judge(rec: NonceRecord, mac: Bytes, handle: u16, now: u32, response: Bytes): AuthResult {
      if rec.consumed then Replayed
      else if Elapsed(now, rec.issuedMs) > NONCE_TTL_MS then Expired
      else if rec.handle != handle then HandleMismatch
      else if mac != response then BadHmac
      else OK
    }

    function Verify(mac: Bytes, handle: u16, now: u32, nonce: Bytes, response: Bytes): (r: (Ring, AuthResult))
      requires Valid()
      ensures r.0.Valid()
    {
      var s := FindFrom(pool, nonce, 0);
      if s == |pool| then (this, UnknownNonce)
      else
        var result := Judge(pool[s], mac, handle, now, response);
        (if result == OK then this.(pool := pool[s := pool[s].(consumed := true)]) else this, result)
    }
  }

  function CountActive(pool: seq<NonceRecord>): (n: nat)
    ensures n <= |pool|
  {
    if pool == [] then 0
    else CountActive(pool[..|pool| - 1]) + if pool[|pool| - 1].Active() then 1 else 0
  }

  lemma {:induction false} CountAfterUpdate(pool: seq<NonceRecord>, s: nat, rec: NonceRecord)
    requires s < |pool|
    ensures CountActive(pool[s := rec]) + (if pool[s].Active() then 1 else 0) ==
            CountActive(pool) + if rec.Active() then 1 else 0
  {
    var n := |pool| - 1;
    if s < n {
      assert pool[s := rec][..n] == pool[..n][s := rec];
      CountAfterUpdate(pool[..n], s, rec);
    } else {
      assert pool[s := rec][..n] == pool[..n];
    }
  }

  // ---------------------------------------------------------------------------
  // The simulator's engine

  datatype MapRecord = MapRecord(issuedS: real, handle: int, consumed: bool)

  type Pool = map<Bytes, MapRecord>

  const NONCE_TTL_S: real := 60.0

  function MapIssue(pool: Pool, handle: int, nowS: real, nonce: Bytes): Pool {
    pool[nonce := MapRecord(nowS, handle, false)]
  }

  function MapVerify(pool: Pool, mac: Bytes, handle: int, nonce: Bytes, response: Bytes, nowS: real): (Pool, AuthResult) {
    if nonce !in pool then (pool, UnknownNonce)
    else
      var rec := pool[nonce];
      if rec.consumed then (pool, Replayed)
      else if nowS - rec.issuedS > NONCE_TTL_S then (pool, Expired)
      else if rec.handle != handle then (pool, HandleMismatch)
      else if mac != response then (pool, BadHmac)
      else (pool[nonce := rec.(consumed := true)], OK)
  }

  // ---------------------------------------------------------------------------
  // Runs: any sequence of challenges and responses

  datatype AuthCall =
    | Issue(handle: u16, t: nat, nonce: Bytes)
    | Verify(handle: u16, t: nat, nonce: Bytes, response: Bytes)

  datatype Challenge = Challenge(handle: u16, t: nat, nonce: Bytes)

  const EMPTY_SLOT: NonceRecord := NonceRecord([], 0, 0, false, false)

  const BLANK_RING: Ring := Ring(seq(NONCE_POOL_SIZE, _ => EMPTY_SLOT), 0)

  ghost predicate Blank(ring: Ring) {
    ring.Valid() && ring.nextSlot == 0 && forall s :: 0 <= s < NONCE_POOL_SIZE ==> !ring.pool[s].valid
  }

  function RingStep(ring: Ring, mac: Mac, call: AuthCall): (r: (Ring, AuthResult))
    requires ring.Valid()
    ensures r.0.Valid()
  {
    match call
    case Issue(h, t, nonce) => (ring.Issue(h, Millis(t), nonce), OK)
    case Verify(h, t, nonce, response) => ring.Verify(mac(nonce), h, Millis(t), nonce, response)
  }

  function Seconds(t: nat): real {
    t as real / 1000.0
  }

  function MapStep(pool: Pool, mac: Mac, call: AuthCall): (Pool, AuthResult) {
    match call
    case Issue(h, t, nonce) => (MapIssue(pool, h, Seconds(t), nonce), OK)
    case Verify(h, t, nonce, response) => MapVerify(pool, mac(nonce), h, nonce, response, Seconds(t))
  }

  function NewChallenges(call: AuthCall): seq<Challenge> {
    if call.Issue? then [Challenge(call.handle, call.t, call.nonce)] else []
  }

  datatype AuthRun = AuthRun(start: Ring, mac: Mac, calls: seq<AuthCall>) {
    ghost predicate Valid() {
      Blank(start)
    }

    function At(k: nat): (r: Ring)
      requires start.Valid() && k <= |calls|
      ensures r.Valid()
    {
      if k == 0 then start else RingStep(At(k - 1), mac, calls[k - 1]).0
    }

    function ResultAt(k: nat): AuthResult
      requires start.Valid() && k < |calls|
    {
      RingStep(At(k), mac, calls[k]).1
    }

    function MapAt(k: nat): Pool
      requires k <= |calls|
    {
      if k == 0 then map[] else MapStep(MapAt(k - 1), mac, calls[k - 1]).0
    }

    function MapResultAt(k: nat): AuthResult
      requires k < |calls|
    {
      MapStep(MapAt(k), mac, calls[k]).1
    }

    /** The challenges issued by the first k calls, oldest first. */
    function Issued(k: nat): (cs: seq<Challenge>)
      requires k <= |calls|
    {
      if k == 0 then [] else Issued(k - 1) + NewChallenges(calls[k - 1])
    }

    predicate Accepts(k: nat)
      requires start.Valid() && k < |calls|
    {
      calls[k].Verify? && ResultAt(k) == OK
    }

    function Accepted(k: nat): nat
      requires start.Valid() && k <= |calls|
    {
      if k == 0 then 0 else Accepted(k - 1) + if Accepts(k - 1) then 1 else 0
    }

    /** Challenges overwritten before they were answered. */
    function Evicted(k: nat): nat
      requires start.Valid() && k <= |calls|
    {
      if k == 0 then 0
      else Evicted(k - 1) +
           if calls[k - 1].Issue? && At(k - 1).pool[At(k - 1).nextSlot].Active() then 1 else 0
    }

    /** Which challenge the verification at k looks at. */
    function SlotAt(k: nat): nat
      requires start.Valid() && k < |calls|
    {
      FindFrom(At(k).pool, calls[k].nonce, 0)
    }
  }

  // ---------------------------------------------------------------------------
  // The ring holds the last 16 challenges

  /** Index of the last of n challenges to go into slot s, negative if none. */
  function Latest(n: nat, s: nat): int {
    n - n % 16 + s - if s < n % 16 then 0 else 16
  }

  lemma LatestStep(n: nat, s: nat)
    requires s < 16
    ensures Latest(n + 1, s) == if s == n % 16 then n else Latest(n, s)
    ensures n - 16 <= Latest(n, s) < n
    ensures Latest(n, s) % 16 == s
  {
    var q, m := n / 16, n % 16;
    assert n == 16 * q + m;
    assert (n + 1) % 16 == if m == 15 then 0 else m + 1;
    assert Latest(n, s) == 16 * (if s < m then q else q - 1) + s;
  }

  lemma LatestOf(n: nat, i: nat)
    requires n - 16 <= i < n
    ensures Latest(n, i % 16) == i
  {}

  ghost predicate SlotHolds(rec: NonceRecord, cs: seq<Challenge>, s: nat) {
    var i := Latest(|cs|, s);
    i < |cs| &&
    if i < 0 then !rec.valid
    else rec.valid && rec.nonce == cs[i].nonce && rec.issuedMs == Millis(cs[i].t) && rec.handle == cs[i].handle
  }

  /** Slot s holds the last challenge to go into it, for every slot: so the ring
      holds exactly the last min(n, 16) challenges. */
  ghost predicate Holds(ring: Ring, cs: seq<Challenge>) {
    && ring.Valid()
    && ring.nextSlot == |cs| % 16
    && forall s :: 0 <= s < 16 ==> SlotHolds(ring.pool[s], cs, s)
  }

  lemma IssueHolds(ring: Ring, cs: seq<Challenge>, c: Challenge)
    requires Holds(ring, cs)
    ensures Holds(ring.Issue(c.handle, Millis(c.t), c.nonce), cs + [c])
  {
    var ring' := ring.Issue(c.handle, Millis(c.t), c.nonce);
    forall s | 0 <= s < 16
      ensures SlotHolds(ring'.pool[s], cs + [c], s)
    {
      assert SlotHolds(ring.pool[s], cs, s);
      LatestStep(|cs|, s);
      hide Latest;
    }
  }

  /** A verification changes at most one record, and of it only `consumed`. */
  lemma VerifyChanges(ring: Ring, mac: Bytes, handle: u16, now: u32, nonce: Bytes, response: Bytes)
    requires ring.Valid()
    ensures var (ring', result) := ring.Verify(mac, handle, now, nonce, response);
      var s := FindFrom(ring.pool, nonce, 0);
      && ring'.nextSlot == ring.nextSlot
      && (s == 16 <==> result == UnknownNonce)
      && (s < 16 ==> result == Ring.Judge(ring.pool[s], mac, handle, now, response))
      && (result != OK ==> ring' == ring)
      && (result == OK ==> ring'.pool == ring.pool[s := ring.pool[s].(consumed := true)])
  {}

  lemma FreshNonceAccepted(ring: Ring, mac: Bytes, h: u16, now: u32, nonce: Bytes)
    requires ring.Valid() && FindFrom(ring.pool, nonce, 0) == NONCE_POOL_SIZE
    ensures ring.Issue(h, now, nonce).Verify(mac, h, now, nonce, mac).1 == OK
  {
    var pool := ring.Issue(h, now, nonce).pool;
    var s := FindFrom(pool, nonce, 0);
    assert pool[ring.nextSlot].valid && pool[ring.nextSlot].nonce == nonce;
    assert s <= ring.nextSlot;
    assert forall j :: 0 <= j < ring.nextSlot ==> pool[j] == ring.pool[j];
  }

  lemma StepHolds(ring: Ring, cs: seq<Challenge>, mac: Mac, call: AuthCall)
    requires Holds(ring, cs)
    ensures Holds(RingStep(ring, mac, call).0, cs + NewChallenges(call))
  {
    match call
    case Issue(h, t, nonce) =>
      IssueHolds(ring, cs, Challenge(h, t, nonce));
    case Verify(h, t, nonce, response) =>
      assert cs + NewChallenges(call) == cs;
      VerifyChanges(ring, mac(nonce), h, Millis(t), nonce, response);
      hide Latest, Ring.Verify;
      assert forall s :: 0 <= s < 16 ==> SlotHolds(ring.pool[s], cs, s);
  }

  lemma {:induction false} RingHoldsLatest(r: AuthRun, k: nat)
    requires r.Valid() && k <= |r.calls|
    ensures Holds(r.At(k), r.Issued(k))
  {
    if k > 0 {
      hide Holds, RingStep, NewChallenges;
      RingHoldsLatest(r, k - 1);
      StepHolds(r.At(k - 1), r.Issued(k - 1), r.mac, r.calls[k - 1]);
    }
  }
}
