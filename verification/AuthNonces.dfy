/** Exactly which nonces the firmware's ring needs to be distinct: what each
    property of the authentication runs asks of a list of nonces, no more and no
    less. */
module AuthNonces {
  import opened Clock
  import opened AuthRing
  import opened AuthRuns

  // ---------------------------------------------------------------------------
  // The run that shows a collision

  function Issues(ns: seq<Bytes>, v: nat): (calls: seq<AuthCall>)
    ensures |calls| == |ns|
    ensures forall i :: 0 <= i < |calls| ==> calls[i] == Issue(if i == v then 2 else 1, 0, ns[i])
  {
    seq(|ns|, i requires 0 <= i < |ns| => Issue(if i == v then 2 else 1, 0, ns[i]))
  }

  /** All these nonces issued at time 0, number v on connection 2 and the others on
      connection 1; then the right answer to number v. */
  function Collision(start: Ring, mac: Mac, ns: seq<Bytes>, v: nat): (r: AuthRun)
    requires v < |ns|
    ensures |r.calls| == |ns| + 1
  {
    AuthRun(start, mac, Issues(ns, v) + [Verify(2, 0, ns[v], mac(ns[v]))])
  }

  lemma {:induction false} IssuedAre(r: AuthRun, k: nat)
    requires k <= |r.calls| && forall j :: 0 <= j < k ==> r.calls[j].Issue?
    ensures |r.Issued(k)| == k
    ensures forall i :: 0 <= i < k ==>
              r.Issued(k)[i] == Challenge(r.calls[i].handle, r.calls[i].t, r.calls[i].nonce)
  {
    if k > 0 {
      IssuedAre(r, k - 1);
    }
  }

  lemma CollisionIssues(start: Ring, mac: Mac, ns: seq<Bytes>, v: nat)
    requires v < |ns|
    ensures var r := Collision(start, mac, ns, v);
      && Nonces(r.Issued(|ns|)) == ns
      && (forall i :: 0 <= i < |ns| ==> r.Issued(|ns|)[i] == Challenge(if i == v then 2 else 1, 0, ns[i]))
      && (forall j :: 0 <= j < |ns| ==> r.calls[j].Issue?)
  {
    IssuedAre(Collision(start, mac, ns, v), |ns|);
  }

  lemma NothingMarked(r: AuthRun, k: nat, s: nat)
    requires r.Valid() && k <= |r.calls| && s < 16 && forall j :: 0 <= j < k ==> r.calls[j].Issue?
    ensures r.At(k).pool[s].valid ==> !r.At(k).pool[s].consumed
  {
    hide RingStep;
    if r.At(k).pool[s].valid && r.At(k).pool[s].consumed {
      var j := MarkedWasAccepted(r, k, s);
    }
  }

  /** The right answer is refused when a challenge with the same nonce is in a
      lower slot: the ring finds one that is not on connection 2. */
  lemma CollisionRefuses(start: Ring, mac: Mac, ns: seq<Bytes>, v: nat, o: nat)
    requires Blank(start) && v < |ns| && o < |ns| && ns[o] == ns[v] && o % 16 < v % 16
    requires |ns| - NONCE_POOL_SIZE <= v && |ns| - NONCE_POOL_SIZE <= o
    ensures Collision(start, mac, ns, v).ResultAt(|ns|) == HandleMismatch
  {
    hide Millis, Latest, FindFrom, Ring.Issue, Holds;
    var r, n := Collision(start, mac, ns, v), |ns|;
    IssuedAre(r, n);
    RingHoldsLatest(r, n);
    var ring, cs := r.At(n), r.Issued(n);
    SlotIs(ring, cs, o);
    var s := FindFrom(ring.pool, ns[v], 0);
    assert s <= o % 16;
    HeldBySlot(ring, cs, s);
    LatestStep(n, s);
    NothingMarked(r, n, s);
    JudgesMismatch(ring.pool[s], mac(ns[v]), mac(ns[v]));
  }

  lemma HeldBySlot(ring: Ring, cs: seq<Challenge>, s: nat)
    requires Holds(ring, cs) && s < 16 && ring.pool[s].valid
    ensures var i := Latest(|cs|, s);
      0 <= i < |cs| && ring.pool[s].issuedMs == Millis(cs[i].t) && ring.pool[s].handle == cs[i].handle
  {
    hide Latest;
    assert SlotHolds(ring.pool[s], cs, s);
  }

  lemma JudgesMismatch(rec: NonceRecord, mac: Bytes, response: Bytes)
    requires rec.issuedMs == Millis(0) && rec.handle == 1 && !rec.consumed
    ensures Ring.Judge(rec, mac, 2, Millis(0), response) == HandleMismatch
  {}

  /** When the later of two challenges of one lap repeats the nonce of the earlier,
      its right answer is refused by the ring and accepted by the map. */
  lemma CollisionSplits(start: Ring, mac: Mac, ns: seq<Bytes>, i: nat)
    requires Blank(start) && i < |ns| - 1 && SameLap(i, |ns| - 1) && ns[i] == ns[|ns| - 1]
    ensures var r := Collision(start, mac, ns, |ns| - 1);
      r.ResultAt(|ns|) == HandleMismatch && r.MapResultAt(|ns|) == OK
  {
    hide Millis, Ring.Issue, Blank;
    var r, v := Collision(start, mac, ns, |ns| - 1), |ns| - 1;
    LapOf(i, v);
    CollisionRefuses(start, mac, ns, v, i);
    assert r.MapAt(|ns|)[ns[v]] == MapRecord(Seconds(0), 2, false);
  }

  // ---------------------------------------------------------------------------
  // Refining the map

  /** If call k is a verification after challenges drawn from these nonces, and the
      clock can tell the ages asked about, its verdict is the map's. */
  ghost predicate AgreesOn(r: AuthRun, k: nat, ns: seq<Bytes>) {
    && r.Valid() && k < |r.calls| && r.calls[k].Verify?
    && Nonces(r.Issued(k)) <= ns
    && (forall j :: 0 <= j <= k ==> AgesClear(r.calls[j], r.Issued(j)))
    ==> VerdictMatches(r, k)
  }

  /** The ring gives the map's verdicts in every run on these nonces exactly when no
      two of one lap are equal. */
  lemma RefinesIffLapDistinct(mac: Mac, ns: seq<Bytes>)
    ensures (forall start, calls, k: nat :: AgreesOn(AuthRun(start, mac, calls), k, ns)) <==> LapDistinct(ns)
  {
    hide LapDistinct, VerdictMatches, AgesClear, Nonces;
    if LapDistinct(ns) {
      forall start, calls, k: nat
        ensures AgreesOn(AuthRun(start, mac, calls), k, ns)
      {
        AgreesIfLapDistinct(AuthRun(start, mac, calls), k, ns);
      }
    } else {
      var calls, k := DisagreesOtherwise(mac, ns);
      assert !AgreesOn(AuthRun(BLANK_RING, mac, calls), k, ns);
    }
  }

  lemma AgreesIfLapDistinct(r: AuthRun, k: nat, ns: seq<Bytes>)
    requires LapDistinct(ns)
    ensures AgreesOn(r, k, ns)
  {
    hide LapDistinct, VerdictMatches, AgesClear, Nonces, RingStep;
    if r.Valid() && k < |r.calls| && Nonces(r.Issued(k)) <= ns {
      LapDistinctPrefix(Nonces(r.Issued(k)), ns);
      if forall j :: 0 <= j <= k ==> AgesClear(r.calls[j], r.Issued(j)) {
        RingRefinesMap(r, k);
      }
    }
  }

  lemma DisagreesOtherwise(mac: Mac, ns: seq<Bytes>) returns (calls: seq<AuthCall>, k: nat)
    requires !LapDistinct(ns)
    ensures !AgreesOn(AuthRun(BLANK_RING, mac, calls), k, ns)
  {
    hide SameLap, AgreesOn;
    var i, j :| 0 <= i < j < |ns| && SameLap(i, j) && ns[i] == ns[j];
    k := j + 1;
    calls := Collision(BLANK_RING, mac, ns[..k], j).calls;
    CollisionDisagrees(mac, ns[..k], ns, i);
  }

  lemma CollisionDisagrees(mac: Mac, drawn: seq<Bytes>, ns: seq<Bytes>, i: nat)
    requires drawn <= ns && i < |drawn| - 1 && SameLap(i, |drawn| - 1) && drawn[i] == drawn[|drawn| - 1]
    ensures !AgreesOn(Collision(BLANK_RING, mac, drawn, |drawn| - 1), |drawn|, ns)
  {
    hide RingStep, MapStep, Nonces, AgesClear, VerdictMatches, SameLap;
    CollisionIssues(BLANK_RING, mac, drawn, |drawn| - 1);
    CollisionAges(BLANK_RING, mac, drawn, |drawn| - 1);
    CollisionMismatch(mac, drawn, i);
  }

  lemma CollisionAges(start: Ring, mac: Mac, ns: seq<Bytes>, v: nat)
    requires v < |ns|
    ensures var r := Collision(start, mac, ns, v);
      forall j :: 0 <= j <= |ns| ==> AgesClear(r.calls[j], r.Issued(j))
  {
    hide Nonces, LastOfNonce, AuthRun.Issued;
    CollisionIssues(start, mac, ns, v);
  }

  lemma CollisionMismatch(mac: Mac, ns: seq<Bytes>, i: nat)
    requires i < |ns| - 1 && SameLap(i, |ns| - 1) && ns[i] == ns[|ns| - 1]
    ensures !VerdictMatches(Collision(BLANK_RING, mac, ns, |ns| - 1), |ns|)
  {
    hide RingStep, MapStep, Nonces, Overwritten, SameLap, AuthRun.Issued;
    var r, v := Collision(BLANK_RING, mac, ns, |ns| - 1), |ns| - 1;
    CollisionSplits(BLANK_RING, mac, ns, i);
    CollisionIssues(BLANK_RING, mac, ns, v);
    NotOverwritten(r.Issued(|ns|), v);
  }

  // ---------------------------------------------------------------------------
  // Accepting right answers

  /** If call k comes after challenges drawn from these nonces, it is accepted
      exactly when it answers one of them. */
  ghost predicate AnswersRight(r: AuthRun, k: nat, ns: seq<Bytes>) {
    r.Valid() && k < |r.calls| && Nonces(r.Issued(k)) <= ns ==>
      (r.Accepts(k) <==> exists i: nat :: Answers(r, k, i))
  }

  /** Every right answer is accepted, in every run on these nonces, exactly when no
      two of any 16 in a row are equal: of two equal ones both in the ring, the one
      in the higher slot is never found, whichever is the older. */
  lemma AcceptsIffLocallyDistinct(mac: Mac, ns: seq<Bytes>)
    ensures (forall start, calls, k: nat :: AnswersRight(AuthRun(start, mac, calls), k, ns)) <==> LocallyDistinct(ns)
  {
    hide LocallyDistinct, Answers, Nonces;
    if LocallyDistinct(ns) {
      forall start, calls, k: nat
        ensures AnswersRight(AuthRun(start, mac, calls), k, ns)
      {
        RightIfLocallyDistinct(AuthRun(start, mac, calls), k, ns);
      }
    } else {
      var calls, k := WrongOtherwise(mac, ns);
      assert !AnswersRight(AuthRun(BLANK_RING, mac, calls), k, ns);
    }
  }

  lemma RightIfLocallyDistinct(r: AuthRun, k: nat, ns: seq<Bytes>)
    requires LocallyDistinct(ns)
    ensures AnswersRight(r, k, ns)
  {
    hide Answers, RingStep;
    if r.Valid() && k < |r.calls| && Nonces(r.Issued(k)) <= ns {
      var drawn := Nonces(r.Issued(k));
      forall i, j | 0 <= i < j < |drawn| && j < i + NONCE_POOL_SIZE
        ensures drawn[i] != drawn[j]
      {
        assert drawn[i] == ns[i] && drawn[j] == ns[j];
      }
      AcceptedIffAnswers(r, k);
    }
  }

  lemma WrongOtherwise(mac: Mac, ns: seq<Bytes>) returns (calls: seq<AuthCall>, k: nat)
    requires !LocallyDistinct(ns)
    ensures !AnswersRight(AuthRun(BLANK_RING, mac, calls), k, ns)
  {
    hide AnswersRight;
    var i, j :| 0 <= i < j < |ns| && j < i + NONCE_POOL_SIZE && ns[i] == ns[j];
    k := j + 1;
    var v, o := if i % 16 < j % 16 then j else i, if i % 16 < j % 16 then i else j;
    calls := Collision(BLANK_RING, mac, ns[..k], v).calls;
    CollisionWrong(mac, ns[..k], ns, v, o);
  }

  lemma CollisionWrong(mac: Mac, drawn: seq<Bytes>, ns: seq<Bytes>, v: nat, o: nat)
    requires drawn <= ns && v < |drawn| && o < |drawn| && drawn[o] == drawn[v] && o % 16 < v % 16
    requires |drawn| - NONCE_POOL_SIZE <= v && |drawn| - NONCE_POOL_SIZE <= o
    ensures !AnswersRight(Collision(BLANK_RING, mac, drawn, v), |drawn|, ns)
  {
    hide RingStep, Nonces, AnswerOf;
    var r, k := Collision(BLANK_RING, mac, drawn, v), |drawn|;
    CollisionRefuses(BLANK_RING, mac, drawn, v, o);
    CollisionIssues(BLANK_RING, mac, drawn, v);
    assert Answers(r, k, v);
  }
}
