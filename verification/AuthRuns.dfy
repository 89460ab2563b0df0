/** Whole runs of the authentication engine: single use, accounting, and the
    refinement of the simulator's unbounded engine by the firmware's ring. */
module AuthRuns {
  import opened Clock
  import opened AuthRing

  // ---------------------------------------------------------------------------
  // Accounting

  lemma StepCounts(ring: Ring, mac: Mac, call: AuthCall)
    requires ring.Valid()
    ensures var (ring', result) := RingStep(ring, mac, call);
      CountActive(ring'.pool)
        + (if call.Verify? && result == OK then 1 else 0)
        + (if call.Issue? && ring.pool[ring.nextSlot].Active() then 1 else 0)
      == CountActive(ring.pool) + |NewChallenges(call)|
  {
    match call
    case Issue(h, t, nonce) =>
      CountAfterUpdate(ring.pool, ring.nextSlot, NonceRecord(nonce, Millis(t), h, false, true));
    case Verify(h, t, nonce, response) =>
      VerifyChanges(ring, mac(nonce), h, Millis(t), nonce, response);
      var s := FindFrom(ring.pool, nonce, 0);
      hide Ring.Verify;
      if s < 16 {
        CountAfterUpdate(ring.pool, s, ring.pool[s].(consumed := true));
      }
  }

  lemma {:induction false} NoneActive(pool: seq<NonceRecord>)
    requires forall s :: 0 <= s < |pool| ==> !pool[s].valid
    ensures CountActive(pool) == 0
  {
    if pool != [] {
      NoneActive(pool[..|pool| - 1]);
    }
  }

  /** Every challenge issued is still active, or was accepted once, or was
      overwritten unanswered; and at most 16 are active. */
  lemma {:induction false} Accounting(r: AuthRun, k: nat)
    requires r.Valid() && k <= |r.calls|
    ensures |r.Issued(k)| == CountActive(r.At(k).pool) + r.Accepted(k) + r.Evicted(k)
    ensures CountActive(r.At(k).pool) <= NONCE_POOL_SIZE
  {
    hide RingStep;
    if k == 0 {
      NoneActive(r.start.pool);
    } else {
      Accounting(r, k - 1);
      StepCounts(r.At(k - 1), r.mac, r.calls[k - 1]);
    }
  }

  // ---------------------------------------------------------------------------
  // Single use

  /** Which challenge, counted from 0, the acceptance at k answers. */
  ghost function AnswerOf(r: AuthRun, k: nat): int
    requires r.Valid() && k < |r.calls|
  {
    Latest(|r.Issued(k)|, r.SlotAt(k))
  }

  /** What an acceptance means: one of the last 16 challenges, with this nonce,
      issued on this connection, answered by its MAC, at a wrapped age of at most
      60000 ms, and not accepted before. */
  lemma AcceptanceSound(r: AuthRun, k: nat)
    requires r.Valid() && k < |r.calls| && r.Accepts(k)
    ensures var i, cs, call := AnswerOf(r, k), r.Issued(k), r.calls[k];
      && 0 <= i && |cs| - NONCE_POOL_SIZE <= i < |cs|
      && cs[i].nonce == call.nonce
      && cs[i].handle == call.handle
      && call.response == r.mac(call.nonce)
      && Elapsed(Millis(call.t), Millis(cs[i].t)) <= 60000
      && r.SlotAt(k) == i % 16
      && !r.At(k).pool[i % 16].consumed && r.At(k + 1).pool[i % 16].consumed
  {
    RingHoldsLatest(r, k);
    var ring, call, cs := r.At(k), r.calls[k], r.Issued(k);
    VerifyChanges(ring, r.mac(call.nonce), call.handle, Millis(call.t), call.nonce, call.response);
    hide Ring.Verify;
    var s := FindFrom(ring.pool, call.nonce, 0);
    assert SlotHolds(ring.pool[s], cs, s);
    LatestStep(|cs|, s);
  }

  /** The wrapped age is the true age whenever the true age is below 2^32 ms, so
      then an accepted challenge is at most a minute old. */
  lemma AcceptedIsFresh(r: AuthRun, k: nat)
    requires r.Valid() && k < |r.calls| && r.Accepts(k)
    ensures var i := AnswerOf(r, k);
      0 <= i < |r.Issued(k)| &&
      var since, t := r.Issued(k)[i].t, r.calls[k].t;
      since <= t < since + WRAP ==> t - since <= 60000
  {
    AcceptanceSound(r, k);
    var since, t := r.Issued(k)[AnswerOf(r, k)].t, r.calls[k].t;
    if since <= t {
      AgeTestExact(since, t, NONCE_TTL_MS);
    }
  }

  lemma StepKeepsConsumed(ring: Ring, mac: Mac, call: AuthCall, s: nat)
    requires ring.Valid() && s < 16 && ring.pool[s].consumed && (call.Issue? ==> s != ring.nextSlot)
    ensures RingStep(ring, mac, call).0.pool[s].consumed
  {
    hide FindFrom;
  }

  /** An accepted challenge stays marked for as long as it stays in the ring. */
  lemma {:induction false} ConsumedStays(r: AuthRun, j: nat, k: nat)
    requires r.Valid() && j < k <= |r.calls| && r.Accepts(j)
    requires AnswerOf(r, j) >= |r.Issued(k)| - NONCE_POOL_SIZE
    ensures 0 <= AnswerOf(r, j) < |r.Issued(k)|
    ensures r.At(k).pool[AnswerOf(r, j) % 16].consumed
  {
    hide RingStep, Latest, Holds;
    AcceptanceSound(r, j);
    var i := AnswerOf(r, j);
    if j + 1 < k {
      ConsumedStays(r, j, k - 1);
      RingHoldsLatest(r, k - 1);
      NextSlotIs(r.At(k - 1), r.Issued(k - 1));
      StepKeepsConsumed(r.At(k - 1), r.mac, r.calls[k - 1], i % 16);
    }
  }

  /** Each challenge is accepted at most once, in any run at all. */
  lemma SingleUse(r: AuthRun, j: nat, k: nat)
    requires r.Valid() && j < k < |r.calls| && r.Accepts(j) && r.Accepts(k)
    ensures AnswerOf(r, j) != AnswerOf(r, k)
  {
    AcceptanceSound(r, k);
    if AnswerOf(r, j) == AnswerOf(r, k) {
      ConsumedStays(r, j, k);
    }
  }

  lemma StepMarks(ring: Ring, mac: Mac, call: AuthCall, s: nat)
    requires ring.Valid() && s < 16
    ensures var (ring', result) := RingStep(ring, mac, call);
      && (call.Issue? && s == ring.nextSlot ==> !ring'.pool[s].consumed)
      && (call.Issue? && s != ring.nextSlot ==> ring'.pool[s] == ring.pool[s])
      && (call.Verify? ==>
            || ring'.pool[s] == ring.pool[s]
            || (result == OK && FindFrom(ring.pool, call.nonce, 0) == s))
  {
    if call.Verify? {
      VerifyChanges(ring, mac(call.nonce), call.handle, Millis(call.t), call.nonce, call.response);
    }
    hide Ring.Verify, FindFrom;
  }

  /** A marked record was accepted. */
  lemma {:induction false} MarkedWasAccepted(r: AuthRun, k: nat, s: nat) returns (j: nat)
    requires r.Valid() && k <= |r.calls| && s < 16
    requires r.At(k).pool[s].valid && r.At(k).pool[s].consumed
    ensures j < k && r.Accepts(j) && AnswerOf(r, j) == Latest(|r.Issued(k)|, s)
  {
    hide RingStep, Latest, Holds;
    var call := r.calls[k - 1];
    RingHoldsLatest(r, k - 1);
    NextSlotIs(r.At(k - 1), r.Issued(k - 1));
    LatestStep(|r.Issued(k - 1)|, s);
    StepMarks(r.At(k - 1), r.mac, call, s);
    if r.At(k).pool[s] == r.At(k - 1).pool[s] && !(call.Issue? && s == r.At(k - 1).nextSlot) {
      j := MarkedWasAccepted(r, k - 1, s);
    } else {
      j := k - 1;
    }
  }

  lemma NextSlotIs(ring: Ring, cs: seq<Challenge>)
    requires Holds(ring, cs)
    ensures ring.Valid() && ring.nextSlot == |cs| % 16
  {}

  /** The response at k answers challenge i: among the last 16, issued on this
      connection, correctly, within 60000 ms and for the first time. */
  ghost predicate Answers(r: AuthRun, k: nat, i: nat)
    requires r.Valid() && k < |r.calls|
  {
    var cs, call := r.Issued(k), r.calls[k];
    && |cs| - NONCE_POOL_SIZE <= i < |cs|
    && call.Verify?
    && cs[i].nonce == call.nonce && cs[i].handle == call.handle
    && call.response == r.mac(call.nonce)
    && Elapsed(Millis(call.t), Millis(cs[i].t)) <= 60000
    && forall j :: 0 <= j < k && r.Accepts(j) ==> AnswerOf(r, j) != i
  }

  /** While no two of any 16 challenges in a row share a nonce, exactly the
      responses that answer a challenge are accepted.  AuthNonces says why no less
      will do. */
  lemma AcceptedIffAnswers(r: AuthRun, k: nat)
    requires r.Valid() && k < |r.calls| && LocallyDistinct(Nonces(r.Issued(k)))
    ensures r.Accepts(k) <==> exists i: nat :: Answers(r, k, i)
  {
    hide Latest, Ring.Verify, Holds;
    if r.Accepts(k) {
      AcceptanceSound(r, k);
      forall j | 0 <= j < k && r.Accepts(j)
        ensures AnswerOf(r, j) != AnswerOf(r, k)
      {
        SingleUse(r, j, k);
      }
      assert Answers(r, k, AnswerOf(r, k));
    }
    if i: nat :| Answers(r, k, i) {
      RingHoldsLatest(r, k);
      var ring, call, cs := r.At(k), r.calls[k], r.Issued(k);
      RecentIsLast(cs, i);
      LocalIsLap(Nonces(cs));
      FindsChallenge(ring, cs, i);
      SlotIs(ring, cs, i);
      VerifyChanges(ring, r.mac(call.nonce), call.handle, Millis(call.t), call.nonce, call.response);
      if ring.pool[i % 16].consumed {
        var j := MarkedWasAccepted(r, k, i % 16);
        assert false;
      }
    }
  }

  /** Challenge i of the last 16 is in slot i % 16. */
  lemma SlotIs(ring: Ring, cs: seq<Challenge>, i: nat)
    requires Holds(ring, cs) && |cs| - 16 <= i < |cs|
    ensures var rec := ring.pool[i % 16];
      rec.valid && rec.nonce == cs[i].nonce && rec.issuedMs == Millis(cs[i].t) && rec.handle == cs[i].handle
    ensures Latest(|cs|, i % 16) == i
  {
    LatestOf(|cs|, i);
    assert SlotHolds(ring.pool[i % 16], cs, i % 16);
  }

  ghost predicate Distinct(cs: seq<Challenge>) {
    forall i, j :: 0 <= i < j < |cs| ==> cs[i].nonce != cs[j].nonce
  }

  function Nonces(cs: seq<Challenge>): (ns: seq<Bytes>)
    ensures |ns| == |cs|
    ensures forall i :: 0 <= i < |cs| ==> ns[i] == cs[i].nonce
  {
    seq(|cs|, i requires 0 <= i < |cs| => cs[i].nonce)
  }

  /** No two of any 16 nonces in a row are equal. */
  ghost predicate LocallyDistinct(ns: seq<Bytes>) {
    forall i, j :: 0 <= i < j < |ns| && j < i + NONCE_POOL_SIZE ==> ns[i] != ns[j]
  }

  predicate SameLap(i: nat, j: nat) { i / 16 == j / 16 }

  /** No two nonces that go into the ring in one lap are equal. */
  ghost predicate LapDistinct(ns: seq<Bytes>) {
    forall i, j :: 0 <= i < j < |ns| && SameLap(i, j) ==> ns[i] != ns[j]
  }

  lemma LapOf(i: nat, j: nat)
    requires i < j
    ensures SameLap(i, j) ==> j < i + 16 && i % 16 < j % 16
    ensures j < i + 16 && i % 16 <= j % 16 ==> SameLap(i, j)
  {}

  lemma LocalIsLap(ns: seq<Bytes>)
    requires LocallyDistinct(ns)
    ensures LapDistinct(ns)
  {
    forall i, j | 0 <= i < j < |ns| && SameLap(i, j)
      ensures ns[i] != ns[j]
    {
      LapOf(i, j);
    }
  }

  lemma {:induction false} IssuedGrows(r: AuthRun, j: nat, k: nat)
    requires j <= k <= |r.calls|
    ensures r.Issued(j) <= r.Issued(k)
  {
    if j < k {
      IssuedGrows(r, j, k - 1);
    }
  }

  /** With distinct nonces, each nonce is accepted at most once, even after its
      record has been overwritten. */
  lemma NonceSingleUse(r: AuthRun, j: nat, k: nat)
    requires r.Valid() && j < k < |r.calls| && r.Accepts(j) && r.Accepts(k)
    requires Distinct(r.Issued(k))
    ensures r.calls[j].nonce != r.calls[k].nonce
  {
    AcceptanceSound(r, j);
    AcceptanceSound(r, k);
    IssuedGrows(r, j, k);
    SingleUse(r, j, k);
  }

  // ---------------------------------------------------------------------------
  // The ring refines the map

  /** No challenge after i has its nonce. */
  ghost predicate LastOfNonce(cs: seq<Challenge>, i: nat)
    requires i < |cs|
  {
    forall j :: i < j < |cs| ==> cs[j].nonce != cs[i].nonce
  }

  ghost predicate Recorded(pool: Pool, c: Challenge) {
    c.nonce in pool && pool[c.nonce].issuedS == Seconds(c.t) && pool[c.nonce].handle == c.handle
  }

  /** The map holds the last challenge issued with each nonce, and nothing else. */
  ghost predicate MapHolds(pool: Pool, cs: seq<Challenge>) {
    && (forall i :: 0 <= i < |cs| && LastOfNonce(cs, i) ==> Recorded(pool, cs[i]))
    && (forall nonce :: nonce in pool ==> exists i :: 0 <= i < |cs| && cs[i].nonce == nonce)
  }

  lemma RecentIsLast(cs: seq<Challenge>, i: nat)
    requires LocallyDistinct(Nonces(cs)) && |cs| - NONCE_POOL_SIZE <= i < |cs|
    ensures LastOfNonce(cs, i)
  {
    forall j | i < j < |cs|
      ensures cs[j].nonce != cs[i].nonce
    {
      assert Nonces(cs)[i] != Nonces(cs)[j];
    }
  }

  /** A recent nonce was last issued by a recent challenge. */
  lemma LastRecent(cs: seq<Challenge>, j: nat) returns (i: nat)
    requires j < |cs|
    ensures j <= i < |cs| && cs[i].nonce == cs[j].nonce && LastOfNonce(cs, i)
    decreases |cs| - j
  {
    if k :| j < k < |cs| && cs[k].nonce == cs[j].nonce {
      i := LastRecent(cs, k);
    } else {
      i := j;
    }
  }

  ghost predicate SameMark(ring: Ring, pool: Pool, cs: seq<Challenge>, s: nat)
    requires ring.Valid() && s < 16
  {
    var i := Latest(|cs|, s);
    0 <= i < |cs| && LastOfNonce(cs, i) ==>
      cs[i].nonce in pool && ring.pool[s].consumed == pool[cs[i].nonce].consumed
  }

  /** The ring holds the last 16 challenges, the map the last of each nonce, and
      they agree on which of those have been used. */
  ghost predicate Simulates(ring: Ring, pool: Pool, cs: seq<Challenge>) {
    && Holds(ring, cs)
    && MapHolds(pool, cs)
    && forall s :: 0 <= s < 16 ==> SameMark(ring, pool, cs, s)
  }

  /** The clock can tell this challenge's age from the time-to-live: the exact
      condition of `Clock.AgeTestExact`. */
  predicate AgeClear(since: nat, t: nat) {
    since <= t && (t - since <= 60000 || (t - since) % WRAP > 60000)
  }

  ghost predicate AgesClear(call: AuthCall, cs: seq<Challenge>) {
    call.Verify? ==>
      forall i :: 0 <= i < |cs| && |cs| - NONCE_POOL_SIZE <= i && cs[i].nonce == call.nonce && LastOfNonce(cs, i) ==>
        AgeClear(cs[i].t, call.t)
  }

  /** One of the last 16 challenges has this nonce. */
  ghost predicate Recent(nonce: Bytes, cs: seq<Challenge>) {
    exists i :: 0 <= i < |cs| && |cs| - NONCE_POOL_SIZE <= i && cs[i].nonce == nonce
  }

  /** The nonce was issued, but only 16 or more challenges ago. */
  ghost predicate Overwritten(nonce: Bytes, cs: seq<Challenge>) {
    !Recent(nonce, cs) && exists i :: 0 <= i < |cs| && cs[i].nonce == nonce
  }

  lemma LapApart(cs: seq<Challenge>, i: nat, j: nat)
    requires LapDistinct(Nonces(cs)) && i < j < |cs| && SameLap(i, j)
    ensures cs[i].nonce != cs[j].nonce
  {
    assert Nonces(cs)[i] != Nonces(cs)[j];
  }

  /** The last challenge with a nonce is the one found: an earlier one in a lower
      slot would be of the same lap. */
  lemma FindsChallenge(ring: Ring, cs: seq<Challenge>, i: nat)
    requires Holds(ring, cs) && LapDistinct(Nonces(cs)) && |cs| - NONCE_POOL_SIZE <= i < |cs| && LastOfNonce(cs, i)
    ensures FindFrom(ring.pool, cs[i].nonce, 0) == i % 16
  {
    hide Latest, FindFrom, SameLap;
    var s := FindFrom(ring.pool, cs[i].nonce, 0);
    SlotIs(ring, cs, i);
    assert s <= i % 16;
    LatestStep(|cs|, s);
    assert SlotHolds(ring.pool[s], cs, s);
    var j := Latest(|cs|, s);
    if j < i {
      LapOf(j, i);
      LapApart(cs, j, i);
    }
  }

  lemma FindsNothing(ring: Ring, cs: seq<Challenge>, nonce: Bytes)
    requires Holds(ring, cs) && !Recent(nonce, cs)
    ensures FindFrom(ring.pool, nonce, 0) == 16
  {
    forall s | 0 <= s < 16
      ensures !(ring.pool[s].valid && ring.pool[s].nonce == nonce)
    {
      assert SlotHolds(ring.pool[s], cs, s);
      LatestStep(|cs|, s);
    }
  }

  /** One verification: same verdict unless the record has been overwritten. */
  lemma VerdictsAgree(ring: Ring, pool: Pool, cs: seq<Challenge>, mac: Mac, call: AuthCall)
    requires Simulates(ring, pool, cs) && LapDistinct(Nonces(cs)) && call.Verify? && AgesClear(call, cs)
    ensures RingStep(ring, mac, call).1 ==
              if Overwritten(call.nonce, cs) then UnknownNonce else MapStep(pool, mac, call).1
  {
    hide FindFrom, Latest, LapDistinct, Holds;
    NextSlotIs(ring, cs);
    if j :| 0 <= j < |cs| && |cs| - NONCE_POOL_SIZE <= j && cs[j].nonce == call.nonce {
      var i := LastRecent(cs, j);
      FindsChallenge(ring, cs, i);
      SlotIs(ring, cs, i);
      assert SameMark(ring, pool, cs, i % 16);
      JudgesAgree(ring.pool[i % 16], pool[call.nonce], cs[i], mac(call.nonce), call);
    } else {
      FindsNothing(ring, cs, call.nonce);
    }
  }

  /** One challenge's record in the ring and in the map judge a response alike. */
  lemma JudgesAgree(rec: NonceRecord, entry: MapRecord, c: Challenge, mac: Bytes, call: AuthCall)
    requires call.Verify? && AgeClear(c.t, call.t)
    requires rec.issuedMs == Millis(c.t) && rec.handle == c.handle && rec.consumed == entry.consumed
    requires entry.issuedS == Seconds(c.t) && entry.handle == c.handle
    ensures Ring.Judge(rec, mac, call.handle, Millis(call.t), call.response) ==
              MapVerify(map[call.nonce := entry], mac, call.handle, call.nonce, call.response, Seconds(call.t)).1
  {
    AgeTestExact(c.t, call.t, NONCE_TTL_MS);
  }

  lemma IssueKeepsMap(pool: Pool, cs: seq<Challenge>, c: Challenge)
    requires MapHolds(pool, cs)
    ensures MapHolds(MapIssue(pool, c.handle, Seconds(c.t), c.nonce), cs + [c])
  {
    var pool', cs' := MapIssue(pool, c.handle, Seconds(c.t), c.nonce), cs + [c];
    hide Seconds;
    assert cs'[|cs|] == c;
    forall i | 0 <= i < |cs'| && LastOfNonce(cs', i)
      ensures Recorded(pool', cs'[i])
    {
      if i < |cs| {
        assert cs'[i] == cs[i] && cs[i].nonce != c.nonce;
        assert forall j :: i < j < |cs| ==> cs'[j] == cs[j];
        assert LastOfNonce(cs, i);
      }
    }
    forall nonce | nonce in pool'
      ensures exists i :: 0 <= i < |cs'| && cs'[i].nonce == nonce
    {
      if nonce != c.nonce {
        var i :| 0 <= i < |cs| && cs[i].nonce == nonce;
        assert cs'[i].nonce == nonce;
      }
    }
  }

  lemma IssueKeepsMark(ring: Ring, pool: Pool, cs: seq<Challenge>, c: Challenge, s: nat)
    requires Simulates(ring, pool, cs) && s < 16
    ensures SameMark(ring.Issue(c.handle, Millis(c.t), c.nonce), MapIssue(pool, c.handle, Seconds(c.t), c.nonce), cs + [c], s)
  {
    hide Latest, Holds, MapHolds, Seconds, Millis;
    NextSlotIs(ring, cs);
    LatestStep(|cs|, s);
    LatestStep(|cs| + 1, s);
    assert SameMark(ring, pool, cs, s);
    var i, cs' := Latest(|cs| + 1, s), cs + [c];
    if 0 <= i < |cs| && LastOfNonce(cs', i) {
      assert cs'[i] == cs[i] && cs'[|cs|] == c;
      assert forall j :: i < j < |cs| ==> cs'[j] == cs[j];
      assert LastOfNonce(cs, i);
    }
  }

  lemma IssueSimulates(ring: Ring, pool: Pool, cs: seq<Challenge>, c: Challenge)
    requires Simulates(ring, pool, cs)
    ensures Simulates(ring.Issue(c.handle, Millis(c.t), c.nonce),
                      MapIssue(pool, c.handle, Seconds(c.t), c.nonce), cs + [c])
  {
    hide Latest, Holds, MapHolds, Seconds, Millis, SameMark, Ring.Issue, MapIssue;
    IssueHolds(ring, cs, c);
    NextSlotIs(ring, cs);
    IssueKeepsMap(pool, cs, c);
    forall s | 0 <= s < 16
      ensures SameMark(ring.Issue(c.handle, Millis(c.t), c.nonce),
                       MapIssue(pool, c.handle, Seconds(c.t), c.nonce), cs + [c], s)
    {
      IssueKeepsMark(ring, pool, cs, c, s);
    }
  }

  lemma MapVerifyChanges(pool: Pool, mac: Mac, call: AuthCall)
    requires call.Verify?
    ensures var (pool', result) := MapStep(pool, mac, call);
      && (result != OK ==> pool' == pool)
      && (result == OK ==>
            call.nonce in pool && pool' == pool[call.nonce := pool[call.nonce].(consumed := true)])
  {}

  lemma VerifyKeepsMap(pool: Pool, cs: seq<Challenge>, mac: Mac, call: AuthCall)
    requires MapHolds(pool, cs) && call.Verify?
    ensures MapHolds(MapStep(pool, mac, call).0, cs)
  {
    hide MapStep;
    MapVerifyChanges(pool, mac, call);
  }

  lemma VerifyMarks(ring: Ring, mac: Mac, call: AuthCall, s: nat)
    requires ring.Valid() && call.Verify? && s < 16
    ensures var (ring', result) := RingStep(ring, mac, call);
      ring'.pool[s].consumed <==>
        ring.pool[s].consumed || (result == OK && FindFrom(ring.pool, call.nonce, 0) == s)
  {
    hide Ring.Verify, FindFrom;
    VerifyChanges(ring, mac(call.nonce), call.handle, Millis(call.t), call.nonce, call.response);
  }

  lemma NotOverwritten(cs: seq<Challenge>, i: nat)
    requires |cs| - NONCE_POOL_SIZE <= i < |cs|
    ensures !Overwritten(cs[i].nonce, cs)
  {}

  lemma VerifyKeepsMark(ring: Ring, pool: Pool, cs: seq<Challenge>, mac: Mac, call: AuthCall, s: nat)
    requires Simulates(ring, pool, cs) && LapDistinct(Nonces(cs)) && call.Verify? && AgesClear(call, cs) && s < 16
    ensures SameMark(RingStep(ring, mac, call).0, MapStep(pool, mac, call).0, cs, s)
  {
    hide RingStep, MapStep, Latest, FindFrom, AgesClear, LapDistinct, Holds, MapHolds;
    NextSlotIs(ring, cs);
    assert SameMark(ring, pool, cs, s);
    VerifyMarks(ring, mac, call, s);
    MapVerifyChanges(pool, mac, call);
    VerdictsAgree(ring, pool, cs, mac, call);
    LatestStep(|cs|, s);
    var i := Latest(|cs|, s);
    if 0 <= i && LastOfNonce(cs, i) {
      FindsChallenge(ring, cs, i);
      NotOverwritten(cs, i);
    }
  }

  lemma VerifySimulates(ring: Ring, pool: Pool, cs: seq<Challenge>, mac: Mac, call: AuthCall)
    requires Simulates(ring, pool, cs) && LapDistinct(Nonces(cs)) && call.Verify? && AgesClear(call, cs)
    ensures Simulates(RingStep(ring, mac, call).0, MapStep(pool, mac, call).0, cs)
  {
    hide RingStep, MapStep, AgesClear, LapDistinct, Holds, MapHolds, SameMark;
    NextSlotIs(ring, cs);
    NoneNew(cs, call);
    StepHolds(ring, cs, mac, call);
    VerifyKeepsMap(pool, cs, mac, call);
    forall s | 0 <= s < 16
      ensures SameMark(RingStep(ring, mac, call).0, MapStep(pool, mac, call).0, cs, s)
    {
      VerifyKeepsMark(ring, pool, cs, mac, call, s);
    }
  }

  lemma NoneNew(cs: seq<Challenge>, call: AuthCall)
    requires call.Verify?
    ensures cs + NewChallenges(call) == cs
  {}

  /** The ring refines the map.  Over any run in which no two challenges of one lap
      of the ring share a nonce and the clock can tell the ages it is asked about,
      the ring holds the last 16 challenges, with the map's marks on the last of
      each nonce, and answers every verification as the map does, except that it no
      longer knows the overwritten ones. */
  lemma {:induction false} RingRefinesMap(r: AuthRun, k: nat)
    requires r.Valid() && k <= |r.calls| && LapDistinct(Nonces(r.Issued(k)))
    requires forall j :: 0 <= j < k ==> AgesClear(r.calls[j], r.Issued(j))
    ensures Simulates(r.At(k), r.MapAt(k), r.Issued(k))
    ensures k < |r.calls| && r.calls[k].Verify? && AgesClear(r.calls[k], r.Issued(k)) ==> VerdictMatches(r, k)
  {
    hide RingStep, MapStep, Simulates, AgesClear, LapDistinct, Overwritten;
    if k == 0 {
      SimulatesBlank(r.start);
    } else {
      var call, cs := r.calls[k - 1], r.Issued(k - 1);
      assert cs <= r.Issued(k);
      LapDistinctPrefix(Nonces(cs), Nonces(r.Issued(k)));
      RingRefinesMap(r, k - 1);
      assert AgesClear(call, cs);
      StepSimulates(r.At(k - 1), r.MapAt(k - 1), cs, r.mac, call);
    }
    if k < |r.calls| && r.calls[k].Verify? && AgesClear(r.calls[k], r.Issued(k)) {
      VerdictsAgree(r.At(k), r.MapAt(k), r.Issued(k), r.mac, r.calls[k]);
    }
  }

  /** The map's verdict, or UNKNOWN_NONCE for what the ring has overwritten. */
  ghost predicate VerdictMatches(r: AuthRun, k: nat)
    requires r.Valid() && k < |r.calls| && r.calls[k].Verify?
  {
    r.ResultAt(k) == if Overwritten(r.calls[k].nonce, r.Issued(k)) then UnknownNonce else r.MapResultAt(k)
  }

  lemma LapDistinctPrefix(a: seq<Bytes>, b: seq<Bytes>)
    requires a <= b && LapDistinct(b)
    ensures LapDistinct(a)
  {
    forall i, j | 0 <= i < j < |a| && SameLap(i, j)
      ensures a[i] != a[j]
    {
      assert a[i] == b[i] && a[j] == b[j];
    }
  }

  lemma SimulatesBlank(ring: Ring)
    requires Blank(ring)
    ensures Simulates(ring, map[], [])
  {}

  lemma StepSimulates(ring: Ring, pool: Pool, cs: seq<Challenge>, mac: Mac, call: AuthCall)
    requires Simulates(ring, pool, cs) && LapDistinct(Nonces(cs)) && AgesClear(call, cs)
    ensures Simulates(RingStep(ring, mac, call).0, MapStep(pool, mac, call).0, cs + NewChallenges(call))
  {
    hide Simulates;
    if call.Issue? {
      IssueSimulates(ring, pool, cs, Challenge(call.handle, call.t, call.nonce));
    } else {
      VerifySimulates(ring, pool, cs, mac, call);
      NoneNew(cs, call);
    }
  }

  // ---------------------------------------------------------------------------
  // Every verdict explained

  /** Challenge i has been accepted by one of the first k calls. */
  ghost predicate Used(r: AuthRun, k: nat, i: nat)
    requires r.Valid() && k <= |r.calls|
  {
    exists j :: 0 <= j < k && r.Accepts(j) && AnswerOf(r, j) == i
  }

  lemma UsedIffMarked(r: AuthRun, k: nat, i: nat)
    requires r.Valid() && k <= |r.calls|
    requires i < |r.Issued(k)| && |r.Issued(k)| - NONCE_POOL_SIZE <= i
    ensures r.At(k).pool[i % 16].consumed <==> Used(r, k, i)
  {
    hide RingStep, Latest, Holds, AnswerOf;
    RingHoldsLatest(r, k);
    SlotIs(r.At(k), r.Issued(k), i);
    if r.At(k).pool[i % 16].consumed {
      var j := MarkedWasAccepted(r, k, i % 16);
      assert r.Accepts(j) && AnswerOf(r, j) == i;
    }
    if j :| 0 <= j < k && r.Accepts(j) && AnswerOf(r, j) == i {
      ConsumedStays(r, j, k);
    }
  }

  /** Why a verification gets the verdict it does, told by the history: the nonce is
      not one of the last 16, or its last challenge has been used, is too old, was
      issued on another connection, or is not what the response answers; in this
      order, and only with none of these is it accepted. */
  lemma VerdictExplained(r: AuthRun, k: nat, i: nat)
    requires r.Valid() && k < |r.calls| && r.calls[k].Verify? && LapDistinct(Nonces(r.Issued(k)))
    ensures r.ResultAt(k) == UnknownNonce <==> !Recent(r.calls[k].nonce, r.Issued(k))
    ensures var cs, call, result := r.Issued(k), r.calls[k], r.ResultAt(k);
      |cs| - NONCE_POOL_SIZE <= i < |cs| && cs[i].nonce == call.nonce && LastOfNonce(cs, i) ==>
        var used, late := Used(r, k, i), Elapsed(Millis(call.t), Millis(cs[i].t)) > 60000;
        && (result == Replayed <==> used)
        && (result == Expired <==> !used && late)
        && (result == HandleMismatch <==> !used && !late && call.handle != cs[i].handle)
        && (result == BadHmac <==> !used && !late && call.handle == cs[i].handle && call.response != r.mac(call.nonce))
        && (result == OK <==> !used && !late && call.handle == cs[i].handle && call.response == r.mac(call.nonce))
  {
    hide Ring.Verify, Latest, FindFrom, Holds, LapDistinct, Elapsed, Millis, Used;
    var ring, cs, call := r.At(k), r.Issued(k), r.calls[k];
    RingHoldsLatest(r, k);
    NextSlotIs(ring, cs);
    VerifyChanges(ring, r.mac(call.nonce), call.handle, Millis(call.t), call.nonce, call.response);
    if j :| 0 <= j < |cs| && |cs| - NONCE_POOL_SIZE <= j && cs[j].nonce == call.nonce {
      var last := LastRecent(cs, j);
      FindsChallenge(ring, cs, last);
    } else {
      FindsNothing(ring, cs, call.nonce);
    }
    if |cs| - NONCE_POOL_SIZE <= i < |cs| && cs[i].nonce == call.nonce && LastOfNonce(cs, i) {
      FindsChallenge(ring, cs, i);
      SlotIs(ring, cs, i);
      UsedIffMarked(r, k, i);
    }
  }
}
