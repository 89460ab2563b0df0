/** What the access state machine promises in true time, and exactly when its
    32-bit clock lets it: stage timeouts subtract readings, penalty and lockout
    deadlines compare them. */
module AccessTimes {
  import opened Clock
  import opened AccessController
  import opened AccessRuns

  // ---------------------------------------------------------------------------
  // Deadlines

  /** How one call moves the deadlines, told by its answer. */
  lemma StepDeadlines(c: Snapshot, call: Call)
    requires Sound(c)
    ensures var (c', a) := Step(c, call);
      if Fails(call, a) then
        && Screened(c, call) && !Muted(c, call)
        && (a == LogLockout <==> c.failCount == 2)
        && c'.state == (if a == LogLockout then Lockout else Idle)
        && c'.penaltyUntilMs == (if a == LogLockout then c.penaltyUntilMs else After(Millis(call.t), 5000))
        && c'.lockoutUntilMs == (if a == LogLockout then After(Millis(call.t), 60000) else c.lockoutUntilMs)
      else
        && c'.penaltyUntilMs == c.penaltyUntilMs && c'.lockoutUntilMs == c.lockoutUntilMs && a != LogLockout
        && (c'.state == Lockout ==> c.state == Lockout)
        && (c.state == Lockout && c'.state != Lockout ==>
              a == LedLocked && call.Tick? && Millis(call.t) >= c.lockoutUntilMs)
        && (a == PulseUnlock || (c.state in {Idle, Locked} && c'.state !in {Idle, Locked}) ==>
              Screened(c, call) && !Muted(c, call))
  {}

  /** The deadlines the machine keeps are the true ones, as the clock reads them. */
  lemma {:induction false} DeadlinesAre(r: Run, k: nat)
    requires k <= |r.calls|
    ensures r.At(k).penaltyUntilMs == Millis(r.PenaltyDue(k))
    ensures r.At(k).lockoutUntilMs == Millis(r.LockoutDue(k))
  {
    hide Step, Sound, Muted, Screened;
    if k > 0 {
      DeadlinesAre(r, k - 1);
      LockoutInvariant(r, k - 1);
      StepDeadlines(r.At(k - 1), r.calls[k - 1]);
      AfterIsLater(r.calls[k - 1].t, 5000);
      AfterIsLater(r.calls[k - 1].t, 60000);
      hide After, Millis;
    }
  }

  /** From call p up to call k, no penalty is taken for served before it is. */
  ghost predicate PenaltiesHold(r: Run, p: nat, k: nat)
    requires k <= |r.calls|
  {
    forall j :: p <= j < k && Screened(r.At(j), r.calls[j]) ==> HoldsBack(r.calls[j].t, r.PenaltyDue(j))
  }

  /** ... nor for unserved after it is. */
  ghost predicate PenaltiesRead(r: Run, p: nat, k: nat)
    requires k <= |r.calls|
  {
    forall j :: p <= j < k && Screened(r.At(j), r.calls[j]) ==> ReadsRight(r.calls[j].t, r.PenaltyDue(j))
  }

  /** From call p up to call k, no lockout is taken for over before it is. */
  ghost predicate LockoutsHold(r: Run, p: nat, k: nat)
    requires k <= |r.calls|
  {
    forall j :: p <= j < k && r.At(j).state == Lockout && r.calls[j].Tick? ==>
      HoldsBack(r.calls[j].t, r.LockoutDue(j))
  }

  lemma OrderedAt(r: Run, k: nat)
    requires r.Ordered() && k < |r.calls|
    ensures r.Now(k) <= r.calls[k].t == r.Now(k + 1)
  {
    assert r.Now(k) <= r.Now(k + 1);
  }

  /** The call after the one that set the last penalty, 0 before the first. */
  function PenaltyFrom(r: Run, k: nat): nat
    requires k <= |r.calls|
  {
    if k == 0 then 0
    else if r.FailureAt(k - 1) && r.ActionAt(k - 1) != LogLockout then k
    else PenaltyFrom(r, k - 1)
  }

  /** An unserved penalty means IDLE or LOCKED, so a call that reads it right is
      muted only there. */
  lemma {:induction false} PenaltyMeansWaiting(r: Run, k: nat)
    requires r.Ordered() && k <= |r.calls| && PenaltiesHold(r, PenaltyFrom(r, k), k)
    ensures r.Now(k) < r.PenaltyDue(k) ==> r.At(k).state in {Idle, Locked}
    ensures k < |r.calls| && r.MutedAt(k) && ReadsRight(r.calls[k].t, r.PenaltyDue(k)) ==>
              r.At(k).state in {Idle, Locked}
  {
    hide Step, Sound, Run.Ordered, Millis;
    if k > 0 {
      var j := k - 1;
      LockoutInvariant(r, j);
      DeadlinesAre(r, j);
      StepDeadlines(r.At(j), r.calls[j]);
      if !(r.FailureAt(j) && r.ActionAt(j) != LogLockout) {
        PenaltyFromEarlier(r, j);
        PenaltyMeansWaiting(r, j);
        OrderedAt(r, j);
      }
    }
    if k < |r.calls| {
      OrderedAt(r, k);
      DeadlinesAre(r, k);
    }
  }

  lemma {:induction false} PenaltyFromEarlier(r: Run, k: nat)
    requires k <= |r.calls|
    ensures PenaltyFrom(r, k) <= k
  {
    hide Step;
    if k > 0 {
      PenaltyFromEarlier(r, k - 1);
    }
  }

  lemma {:induction false} FirstEpochDues(r: Run, k: nat)
    requires r.Ordered() && k <= |r.calls| && r.Now(|r.calls|) + 60000 < WRAP
    ensures r.PenaltyDue(k) < WRAP && r.LockoutDue(k) < WRAP && r.Now(k) < WRAP
  {
    hide Step;
    assert r.Now(k) <= r.Now(|r.calls|);
    if k > 0 {
      FirstEpochDues(r, k - 1);
    }
  }

  lemma SmallReads(t: nat, due: nat)
    requires t < WRAP && due < WRAP
    ensures ReadsRight(t, due) && HoldsBack(t, due)
  {}

  /** Below 2^32 - 60000 ms of uptime every deadline reads right. */
  lemma FirstEpochReads(r: Run, k: nat)
    requires r.Ordered() && k <= |r.calls| && r.Now(|r.calls|) + 60000 < WRAP
    ensures PenaltiesRead(r, 0, k) && PenaltiesHold(r, 0, k) && LockoutsHold(r, 0, k)
  {
    hide Step, Screened, ReadsRight, HoldsBack, Run.Ordered, Run.At, Run.PenaltyDue, Run.LockoutDue;
    forall j | 0 <= j < k
      ensures ReadsRight(r.calls[j].t, r.PenaltyDue(j)) && HoldsBack(r.calls[j].t, r.PenaltyDue(j))
      ensures HoldsBack(r.calls[j].t, r.LockoutDue(j))
    {
      FirstEpochDues(r, j);
      FirstEpochDues(r, j + 1);
      SmallReads(r.calls[j].t, r.PenaltyDue(j));
      SmallReads(r.calls[j].t, r.LockoutDue(j));
    }
  }

  // ---------------------------------------------------------------------------
  // Lockouts

  /** A lockout, once logged, is only ever left by a tick that reads it expired. */
  lemma StepInLockout(c: Snapshot, call: Call)
    ensures c.state == Lockout && (call.Event? || Millis(call.t) < c.lockoutUntilMs) ==> Step(c, call) == (c, NoAction)
    ensures c.state == Lockout && call.Tick? && Millis(call.t) >= c.lockoutUntilMs ==>
              Step(c, call) == (c.(failCount := 0).Enter(Idle, Millis(call.t)), LedLocked)
  {}

  /** After the lockout logged at i, no tick before k has read it expired. */
  ghost predicate StillLocked(r: Run, i: nat, k: nat)
    requires i < k <= |r.calls|
  {
    forall j :: i < j < k && r.calls[j].Tick? ==> Millis(r.calls[j].t) < Millis(r.calls[i].t + 60000)
  }

  /** Once call i logs a lockout, events and early ticks change nothing ... */
  lemma {:induction false} LockoutHolds(r: Run, i: nat, k: nat)
    requires i < k <= |r.calls| && r.ActionAt(i) == LogLockout && StillLocked(r, i, k)
    ensures r.At(k) == r.At(i + 1) && r.At(k).state == Lockout
    ensures r.LockoutDue(k) == r.calls[i].t + 60000
    ensures k > i + 1 ==> r.ActionAt(k - 1) == NoAction
  {
    hide Step, Sound, Millis, Muted, Screened;
    LockoutInvariant(r, k - 1);
    StepDeadlines(r.At(k - 1), r.calls[k - 1]);
    if k > i + 1 {
      LockoutHolds(r, i, k - 1);
      DeadlinesAre(r, k - 1);
      StepInLockout(r.At(k - 1), r.calls[k - 1]);
    }
  }

  /** ... and the first tick to read 60000 ms later or more ends it and clears the
      count: in true time exactly when the deadline reads right there. */
  lemma LockoutEnds(r: Run, i: nat, k: nat)
    requires i < k < |r.calls| && r.ActionAt(i) == LogLockout && StillLocked(r, i, k) && r.calls[k].Tick?
    ensures var due := r.calls[i].t + 60000;
      (r.At(k + 1).state == Idle <==> r.calls[k].t >= due) <==> ReadsRight(r.calls[k].t, due)
    ensures r.At(k + 1).state != Idle ==> r.At(k + 1) == r.At(i + 1)
    ensures r.At(k + 1).state == Idle ==> r.At(k + 1).failCount == 0 && r.LockoutEndsAt(k)
  {
    hide Step, Millis;
    LockoutHolds(r, i, k);
    DeadlinesAre(r, k);
    StepInLockout(r.At(k), r.calls[k]);
  }

  // ---------------------------------------------------------------------------
  // Failure rate

  predicate Third(i: nat) { i % 3 == 0 }

  function MinGap(i: nat): nat {
    if Third(i) then 60000 else 5000
  }

  /** Gaps between failures: 60 s after every third, 5 s otherwise. */
  ghost predicate Spaced(f: seq<nat>) {
    forall i :: 0 < i < |f| ==> f[i - 1] + MinGap(i) <= f[i]
  }

  /** How the true deadlines hold the next failure off. */
  ghost predicate HoldsOff(c: Snapshot, f: seq<nat>, now: nat, penaltyDue: nat, lockoutDue: nat) {
    var n := |f|;
    && Spaced(f)
    && (n > 0 ==> f[n - 1] <= now)
    && if !Third(n) then
         c.failCount == n % 3 && penaltyDue == f[n - 1] + 5000
       else
         && penaltyDue <= now
         && if c.state == Lockout then n > 0 && c.failCount == 3 && lockoutDue == f[n - 1] + 60000
            else c.failCount == 0 && (n > 0 ==> f[n - 1] + 60000 <= now)
  }

  lemma FailuresGrow(r: Run, k: nat)
    requires k < |r.calls|
    ensures r.Failures(k + 1) ==
              if r.FailureAt(k) then r.Failures(k) + [r.calls[k].t]
              else if r.ActionAt(k) == PulseUnlock then [] else r.Failures(k)
  {
    hide Step;
  }

  lemma SpacedExtends(f: seq<nat>, t: nat)
    requires Spaced(f)
    requires |f| > 0 ==> f[|f| - 1] + MinGap(|f|) <= t
    ensures Spaced(f + [t])
  {
    hide MinGap;
  }

  /** A failure, an unlock or the end of a lockout comes when what held it off is
      truly over. */
  lemma ServedAt(r: Run, p: nat, j: nat)
    requires p <= j < |r.calls| && PenaltiesHold(r, p, j + 1) && LockoutsHold(r, p, j + 1)
    ensures r.FailureAt(j) || r.ActionAt(j) == PulseUnlock ==> r.PenaltyDue(j) <= r.calls[j].t
    ensures r.At(j).state == Lockout && r.At(j + 1).state != Lockout ==> r.LockoutDue(j) <= r.calls[j].t
    ensures PenaltiesHold(r, p, j) && LockoutsHold(r, p, j)
  {
    hide Step, Sound, Millis, Screened, Fails;
    LockoutInvariant(r, j);
    DeadlinesAre(r, j);
    StepDeadlines(r.At(j), r.calls[j]);
  }

  /** The last unlocking call, 0 before the first. */
  function FailuresFrom(r: Run, k: nat): nat
    requires k <= |r.calls|
  {
    if k == 0 then 0
    else if r.ActionAt(k - 1) == PulseUnlock then k - 1
    else FailuresFrom(r, k - 1)
  }

  lemma {:induction false} FailuresFromEarlier(r: Run, k: nat)
    requires k <= |r.calls|
    ensures FailuresFrom(r, k) <= k && (k > 0 ==> FailuresFrom(r, k) < k)
  {
    hide Step;
    if k > 0 {
      FailuresFromEarlier(r, k - 1);
    }
  }

  /** Since the last unlocking call, no deadline is taken for passed before it is. */
  ghost predicate DeadlinesHold(r: Run, k: nat)
    requires k <= |r.calls|
  {
    PenaltiesHold(r, FailuresFrom(r, k), k) && LockoutsHold(r, FailuresFrom(r, k), k)
  }

  lemma {:induction false} FailuresHeldOff(r: Run, k: nat)
    requires r.Ordered() && k <= |r.calls| && DeadlinesHold(r, k)
    ensures HoldsOff(r.At(k), r.Failures(k), r.Now(k), r.PenaltyDue(k), r.LockoutDue(k))
  {
    hide HoldsOff, Run.Failures, Run.Ordered, PenaltiesHold, LockoutsHold, Step, Fails, Run.PenaltyDue, Run.LockoutDue;
    if k == 0 {
      NoFailuresYet(r);
    } else {
      var j, p := k - 1, FailuresFrom(r, k);
      FailuresFromEarlier(r, k);
      ServedAt(r, p, j);
      OrderedAt(r, j);
      if r.ActionAt(j) == PulseUnlock {
        UnlockClears(r, j);
      } else {
        FailuresHeldOff(r, j);
        StepHeldOff(r, p, j);
      }
    }
  }

  /** An unlock starts the count of failures afresh. */
  lemma UnlockClears(r: Run, j: nat)
    requires j < |r.calls| && r.ActionAt(j) == PulseUnlock && r.PenaltyDue(j) <= r.calls[j].t
    ensures HoldsOff(r.At(j + 1), r.Failures(j + 1), r.calls[j].t, r.PenaltyDue(j + 1), r.LockoutDue(j + 1))
  {
    hide Step, Spaced, Third, MinGap, Muted, Screened, Run.Failures;
    LockoutInvariant(r, j);
    StepCounts(r.At(j), r.calls[j]);
    FailuresGrow(r, j);
    UnlockAnswers(r.At(j), r.calls[j]);
    ThirdsGrow(0);
    NoGaps();
  }

  lemma StepHeldOff(r: Run, p: nat, j: nat)
    requires p <= j < |r.calls| && r.Now(j) <= r.calls[j].t && PenaltiesHold(r, p, j + 1) && LockoutsHold(r, p, j + 1)
    requires HoldsOff(r.At(j), r.Failures(j), r.Now(j), r.PenaltyDue(j), r.LockoutDue(j))
    ensures HoldsOff(r.At(j + 1), r.Failures(j + 1), r.calls[j].t, r.PenaltyDue(j + 1), r.LockoutDue(j + 1))
  {
    hide Step, Spaced, Third, MinGap, Fails, Muted, Screened, Run.Failures, PenaltiesHold, LockoutsHold;
    var f := r.Failures(j);
    ServedAt(r, p, j);
    LockoutInvariant(r, j);
    StepDeadlines(r.At(j), r.calls[j]);
    StepCounts(r.At(j), r.calls[j]);
    FailuresGrow(r, j);
    ThirdsGrow(|f|);
    NoGaps();
    if r.FailureAt(j) {
      SpacedExtends(f, r.calls[j].t);
    }
  }

  lemma ThirdsGrow(n: nat)
    ensures Third(n) <==> n % 3 == 0
    ensures Third(0)
    ensures (n + 1) % 3 == if n % 3 == 2 then 0 else n % 3 + 1
    ensures Third(n + 1) <==> n % 3 == 2
    ensures MinGap(n) == if n % 3 == 0 then 60000 else 5000
  {}

  lemma NoGaps()
    ensures Spaced([])
  {}

  lemma NoFailuresYet(r: Run)
    ensures HoldsOff(r.At(0), r.Failures(0), r.Now(0), r.PenaltyDue(0), r.LockoutDue(0))
  {}

  lemma {:induction false} SpacedSpan(f: seq<nat>, i: nat, m: nat)
    requires Spaced(f) && i + 3 * m < |f|
    ensures f[i + 3 * m] - f[i] >= 70000 * m
  {
    hide Spaced;
    if m > 0 {
      SpacedSpan(f, i, m - 1);
      ThreeGaps(f, i + 3 * (m - 1));
    }
  }

  lemma Gap(f: seq<nat>, i: nat)
    requires Spaced(f) && 0 < i < |f|
    ensures f[i - 1] + MinGap(i) <= f[i] && MinGap(i) >= 5000
  {}

  /** Of any three gaps in a row, one is a third one. */
  lemma MinGaps(j: nat)
    ensures MinGap(j + 1) + MinGap(j + 2) + MinGap(j + 3) == 70000
  {
    ThirdsGrow(j);
    ThirdsGrow(j + 1);
    ThirdsGrow(j + 2);
    ThirdsGrow(j + 3);
    hide Third, MinGap;
  }

  lemma ThreeGaps(f: seq<nat>, j: nat)
    requires Spaced(f) && j + 3 < |f|
    ensures f[j] + 70000 <= f[j + 3]
  {
    hide Spaced, MinGap;
    Gap(f, j + 1);
    Gap(f, j + 2);
    Gap(f, j + 3);
    MinGaps(j);
  }

  lemma {:induction false} SpacedSorted(f: seq<nat>, i: nat, j: nat)
    requires Spaced(f) && i <= j < |f|
    ensures f[i] <= f[j]
  {
    hide Spaced;
    if i < j {
      SpacedSorted(f, i, j - 1);
      Gap(f, j);
    }
  }

  /** Any two are at least 5000 ms apart, any one and the third after it at least
      70000 ms apart, and a span of T ms holds at most 3 * (T / 70000 + 1). */
  ghost predicate WithinRate(f: seq<nat>, i: nat, j: nat)
    requires i <= j < |f|
  {
    && (i < j ==> f[i] + 5000 <= f[j])
    && (i + 3 <= j ==> f[i] + 70000 <= f[j])
    && j - i + 1 <= 3 * ((f[j] - f[i]) / 70000 + 1)
  }

  lemma SpacedRate(f: seq<nat>, i: nat, j: nat)
    requires Spaced(f) && i <= j < |f|
    ensures WithinRate(f, i, j)
  {
    hide Spaced, MinGap;
    if i < j {
      SpacedSorted(f, i + 1, j);
      Gap(f, i + 1);
    }
    var m := (j - i) / 3;
    SpacedSpan(f, i, m);
    SpacedSorted(f, i + 3 * m, j);
    QuotientAtLeast(f[j] - f[i], m);
  }

  lemma QuotientAtLeast(span: int, m: nat)
    requires span >= 70000 * m
    ensures span / 70000 >= m
  {}

  /** The failure-rate bound, over the failures since the last unlock. */
  lemma FailureRate(r: Run, k: nat, i: nat, j: nat)
    requires r.Ordered() && k <= |r.calls| && DeadlinesHold(r, k)
    requires i <= j < |r.Failures(k)|
    ensures WithinRate(r.Failures(k), i, j)
  {
    hide Step, Run.Ordered, WithinRate, Run.Failures, DeadlinesHold;
    FailuresHeldOff(r, k);
    SpacedRate(r.Failures(k), i, j);
  }

  /** The true rule for a connect: no attempt under way, no lockout and, unless the
      failures so far have just been paid for by a lockout, 5000 ms since the last. */
  predicate MayConnect(r: Run, k: nat)
    requires k < |r.calls|
  {
    var f := r.Failures(k);
    && r.At(k).state in {Idle, Locked}
    && (!Third(|f|) ==> r.calls[k].t >= f[|f| - 1] + 5000)
  }

  /** It is followed at call k exactly when none is possible anyway or the last
      penalty reads right there. */
  lemma ConnectAcceptedIff(r: Run, k: nat)
    requires r.Ordered() && k < |r.calls| && DeadlinesHold(r, k) && r.Is(k, BleConnect)
    ensures (r.ActionAt(k) == LedAuthenticating <==> MayConnect(r, k))
       <==> (r.At(k).state in {Idle, Locked} ==> ReadsRight(r.calls[k].t, r.PenaltyDue(k)))
  {
    hide Step, Run.Ordered, Millis, Spaced, Third, Run.Failures, Run.At, DeadlinesHold, Run.PenaltyDue;
    ThirdsGrow(0);
    OrderedAt(r, k);
    FailuresHeldOff(r, k);
    DeadlinesAre(r, k);
    StepConnect(r.At(k), r.calls[k]);
  }

  lemma StepConnect(c: Snapshot, call: Call)
    requires Delivers(call, {BleConnect})
    ensures Step(c, call).1 == LedAuthenticating <==> c.state in {Idle, Locked} && !Muted(c, call)
  {}

  // ---------------------------------------------------------------------------
  // Unlock trace safety

  /** Nothing that should have stopped the attempt was delivered: no failed tap
      before the good one, no far reading after it, no failed response after the
      near reading. */
  ghost predicate Clean(r: Run, c: nat, n: nat, w: nat, u: nat) {
    forall i :: c < i < u && i < |r.calls| ==> !Spoils(r, n, w, i)
  }

  predicate Spoils(r: Run, n: nat, w: nat, i: nat)
    requires i < |r.calls|
  {
    || (i < n && r.Is(i, NfcFail))
    || (n < i && r.Is(i, ZoneFar))
    || (w < i && r.Is(i, AuthFail))
  }

  /** Unlock trace safety.  Behind every unlock, at any times, stand a connect, a
      tap, a near reading and a verified response in this order, with no lock
      request, disconnect or timeout since the connect; and the attempt was clean
      exactly when no spoiling call in it was muted, so in particular whenever
      penalties read right from the connect on. */
  lemma UnlockTraceSafety(r: Run, u: nat) returns (c: nat, n: nat, w: nat)
    requires u < |r.calls| && r.ActionAt(u) == PulseUnlock
    ensures c < n < w < u
    ensures r.Is(c, BleConnect) && r.Is(n, NfcOk) && r.Is(w, ZoneNear) && r.Is(u, AuthOk)
    ensures forall i :: c < i < u ==>
              && !r.Is(i, UserLock) && !r.Is(i, BleDisconnect)
              && !(r.calls[i].Tick? && r.ActionAt(i) == LedLocked)
    ensures r.UnlockHistory(c, n, w, u, true)
    ensures Clean(r, c, n, w, u) <==> forall i :: c < i < u && r.MutedAt(i) ==> !Spoils(r, n, w, i)
    ensures r.Ordered() && PenaltiesRead(r, c, u) ==> Clean(r, c, n, w, u)
  {
    hide Step, Muted, Run.At, Run.Ordered, PenaltiesRead;
    UnlockIffHeard(r, u);
    c, n, w :| r.UnlockHistory(c, n, w, u, true);
    forall i | c < i < u
      ensures && !r.Is(i, UserLock) && !r.Is(i, BleDisconnect)
              && !(r.calls[i].Tick? && r.ActionAt(i) == LedLocked)
      ensures Spoils(r, n, w, i) ==> r.MutedAt(i)
    {
      HeardMeansSpoilersMuted(r, c, n, w, u, i);
    }
    if r.Ordered() && PenaltiesRead(r, c, u) {
      AttemptUnmuted(r, c, n, w, u);
      assert Clean(r, c, n, w, u);
    }
  }

  lemma HeardMeansSpoilersMuted(r: Run, c: nat, n: nat, w: nat, u: nat, i: nat)
    requires r.UnlockHistory(c, n, w, u, true) && c < i < u
    ensures !r.Abandons(i)
    ensures Spoils(r, n, w, i) ==> r.MutedAt(i)
  {
    hide Step, Muted, Run.At, Run.Abandons;
    assert i == n ==> r.Counts(n, NfcOk, true);
    assert i == w ==> r.Counts(w, ZoneNear, true);
    assert c < i < n ==> !r.Counts(i, NfcFail, true);
    assert n < i < w ==> !r.Counts(i, ZoneFar, true);
    assert w < i < u ==> !r.Counts(i, ZoneFar, true) && !r.Counts(i, AuthFail, true);
    UnabandonedAt(r, n, i);
    UnabandonedAt(r, w, i);
  }

  /** Taps and near readings are not what abandons. */
  lemma UnabandonedAt(r: Run, n: nat, i: nat)
    requires n < |r.calls|
    ensures i == n && (r.Is(n, NfcOk) || r.Is(n, ZoneNear)) ==> !r.Abandons(i)
  {
    hide Step, Run.At;
  }

  /** Call c was a connect that opened an attempt. */
  predicate Opens(r: Run, c: nat)
    requires c < |r.calls|
  {
    r.Is(c, BleConnect) && r.ActionAt(c) == LedAuthenticating
  }

  /** After the connect at c, up to call i, the attempt is under way. */
  ghost predicate UnderWay(r: Run, c: nat, i: nat) {
    && c < i <= |r.calls| && Opens(r, c)
    && forall m :: c < m <= i ==> r.At(m).Transient()
  }

  lemma TapUnderWay(r: Run, c: nat, k: nat)
    requires r.AwaitingTap(c, k, true)
    ensures UnderWay(r, c, k)
  {
    hide Step, Muted, Run.At, Run.Abandons, Run.Counts;
    forall m | c < m <= k
      ensures r.At(m).Transient()
    {
      assert r.AwaitingTap(c, m, true);
      TapHistoryGivesState(r, c, m);
    }
  }

  lemma NearUnderWay(r: Run, c: nat, n: nat, k: nat)
    requires r.AwaitingNear(c, n, k, true)
    ensures UnderWay(r, c, k)
  {
    hide Step, Muted, Run.At, Run.Abandons, Run.Counts;
    TapUnderWay(r, c, n);
    forall m | n < m <= k
      ensures r.At(m).Transient()
    {
      assert r.AwaitingNear(c, n, m, true);
      NearHistoryGivesState(r, c, n, m);
    }
  }

  lemma AuthUnderWay(r: Run, c: nat, n: nat, w: nat, k: nat)
    requires r.AwaitingAuth(c, n, w, k, true)
    ensures UnderWay(r, c, k)
  {
    hide Step, Muted, Run.At, Run.Abandons, Run.Counts;
    NearUnderWay(r, c, n, w);
    forall m | w < m <= k
      ensures r.At(m).Transient()
    {
      assert r.AwaitingAuth(c, n, w, m, true);
      AuthHistoryGivesState(r, c, n, w, m);
    }
  }

  /** A connect that opens an attempt and reads the last penalty right finds it
      served, and no failure of the attempt sets another. */
  lemma {:induction false} ServedInAttempt(r: Run, c: nat, i: nat)
    requires UnderWay(r, c, i) && ReadsRight(r.calls[c].t, r.PenaltyDue(c))
    ensures r.PenaltyDue(i) <= r.calls[c].t
    ensures Screened(r.At(c), r.calls[c])
  {
    hide Step, Sound, Millis, Snapshot.Transient;
    var j := i - 1;
    LockoutInvariant(r, j);
    StepDeadlines(r.At(j), r.calls[j]);
    FailedIsNotTransient(r.At(i));
    if c < j {
      ServedInAttempt(r, c, j);
    } else {
      DeadlinesAre(r, c);
      StepAttempt(r.At(c), r.calls[c]);
    }
  }

  lemma FailedIsNotTransient(c: Snapshot)
    ensures c.state in {Idle, Lockout, Locked} ==> !c.Transient()
  {}

  /** So no call of the attempt that reads the penalty right is muted. */
  lemma UnmutedInAttempt(r: Run, c: nat, i: nat)
    requires r.Ordered() && UnderWay(r, c, i) && i < |r.calls|
    requires PenaltiesRead(r, c, i + 1)
    ensures !r.MutedAt(i)
  {
    hide Step, Millis, Run.Ordered, Run.At, Run.PenaltyDue;
    AcceptedIsScreened(r, c);
    ServedInAttempt(r, c, i);
    DeadlinesAre(r, i);
    OrderedBetween(r, c, i);
  }

  lemma AcceptedIsScreened(r: Run, c: nat)
    requires c < |r.calls| && Opens(r, c)
    ensures Screened(r.At(c), r.calls[c]) && r.At(c).state in {Idle, Locked}
  {
    hide Step, Sound, Muted, Run.At;
    LockoutInvariant(r, c);
    StepAttempt(r.At(c), r.calls[c]);
  }

  lemma ReadsShorter(r: Run, c: nat, i: nat, k: nat)
    requires i <= k <= |r.calls| && PenaltiesRead(r, c, k)
    ensures PenaltiesRead(r, c, i)
  {
    hide Step, ReadsRight, Screened;
  }

  /** While penalties read right from its connect on, no call of an attempt is
      muted. */
  lemma AttemptUnmuted(r: Run, c: nat, n: nat, w: nat, u: nat)
    requires r.Ordered() && u <= |r.calls| && r.AwaitingAuth(c, n, w, u, true) && PenaltiesRead(r, c, u)
    ensures forall i :: c < i < u ==> !r.MutedAt(i)
  {
    hide Step, Run.MutedAt, Run.At, Run.Ordered, Screened, PenaltiesRead, Run.AwaitingAuth, Snapshot.Transient;
    AuthUnderWay(r, c, n, w, u);
    forall i | c < i < u
      ensures !r.MutedAt(i)
    {
      ReadsShorter(r, c, i + 1, u);
      UnmutedInAttempt(r, c, i);
    }
  }

  /** While penalties read right from its connect to its end, a history of calls is
      a heard one. */
  lemma HistoryIsHeard(r: Run, c: nat, n: nat, w: nat, u: nat)
    requires r.Ordered() && u < |r.calls| && PenaltiesRead(r, c, u + 1)
    ensures r.UnlockHistory(c, n, w, u, false) <==> r.UnlockHistory(c, n, w, u, true)
  {
    hide Step, Muted, Run.At, Run.Ordered, PenaltiesRead, Run.Abandons, Run.None, UnderWay;
    NoneHeard(r);
    if r.UnlockHistory(c, n, w, u, false) {
      assert r.AwaitingTap(c, n, true);
      TapUnderWay(r, c, n);
      ReadsShorter(r, c, n + 1, u + 1);
      UnmutedInAttempt(r, c, n);
      assert r.AwaitingNear(c, n, w, true);
      NearUnderWay(r, c, n, w);
      ReadsShorter(r, c, w + 1, u + 1);
      UnmutedInAttempt(r, c, w);
      assert r.AwaitingAuth(c, n, w, u, true);
      AuthUnderWay(r, c, n, w, u);
      UnmutedInAttempt(r, c, u);
    }
    if r.UnlockHistory(c, n, w, u, true) {
      ReadsShorter(r, c, u, u + 1);
      AttemptUnmuted(r, c, n, w, u);
      NoneDelivered(r, c, u);
    }
  }

  lemma NoneHeard(r: Run)
    ensures forall ev, a: nat, b: nat :: r.None(ev, a, b, false) ==> r.None(ev, a, b, true)
  {
    hide Step, Run.MutedAt;
    forall ev, a: nat, b: nat | r.None(ev, a, b, false)
      ensures r.None(ev, a, b, true)
    {
      forall i | a < i < b && i < |r.calls|
        ensures !r.Counts(i, ev, true)
      {
        assert !r.Counts(i, ev, false);
      }
    }
  }

  lemma NoneDelivered(r: Run, c: nat, u: nat)
    requires u <= |r.calls| && forall i :: c < i < u ==> !r.MutedAt(i)
    ensures forall ev, a: nat, b: nat :: c <= a && b <= u && r.None(ev, a, b, true) ==> r.None(ev, a, b, false)
  {
    hide Step, Run.MutedAt;
    forall ev, a: nat, b: nat | c <= a && b <= u && r.None(ev, a, b, true)
      ensures r.None(ev, a, b, false)
    {
      forall i | a < i < b && i < |r.calls|
        ensures !r.Counts(i, ev, false)
      {
        assert !r.Counts(i, ev, true);
      }
    }
  }

  /** Call c opened the attempt under way before call u. */
  ghost predicate LastOpened(r: Run, c: nat, u: nat) {
    && c < u <= |r.calls| && Opens(r, c)
    && forall i :: c < i < u ==> !Opens(r, i)
  }

  lemma HistoryLastOpened(r: Run, c: nat, n: nat, w: nat, u: nat)
    requires r.UnlockHistory(c, n, w, u, true)
    ensures LastOpened(r, c, u)
  {
    hide Step, Muted, Run.At, Run.Abandons, Run.Counts, Opens, Snapshot.Transient;
    AuthUnderWay(r, c, n, w, u);
    forall i | c < i < u
      ensures !Opens(r, i)
    {
      if Opens(r, i) {
        AcceptedIsScreened(r, i);
        FailedIsNotTransient(r.At(i));
      }
    }
  }

  /** Both ways: while penalties read right from call c on, call u unlocks in the
      attempt opened at c exactly when it completes an ordered history from there,
      counting every call delivered. */
  lemma UnlockIffHistory(r: Run, c: nat, u: nat)
    requires r.Ordered() && u < |r.calls| && PenaltiesRead(r, c, u + 1)
    ensures (exists n, w :: r.UnlockHistory(c, n, w, u, false)) <==> r.ActionAt(u) == PulseUnlock && LastOpened(r, c, u)
  {
    hide Step, Muted, Run.At, Run.Ordered, PenaltiesRead, Run.UnlockHistory, LastOpened;
    UnlockIffHeard(r, u);
    forall n, w
      ensures r.UnlockHistory(c, n, w, u, false) <==> r.UnlockHistory(c, n, w, u, true)
      ensures r.UnlockHistory(c, n, w, u, true) ==> LastOpened(r, c, u)
    {
      HistoryIsHeard(r, c, n, w, u);
      if r.UnlockHistory(c, n, w, u, true) {
        HistoryLastOpened(r, c, n, w, u);
      }
    }
    if r.ActionAt(u) == PulseUnlock && LastOpened(r, c, u) {
      var d, n, w :| r.UnlockHistory(d, n, w, u, true);
      HistoryLastOpened(r, d, n, w, u);
      OneOpener(r, c, d, u);
    }
  }

  lemma OneOpener(r: Run, c: nat, d: nat, u: nat)
    requires LastOpened(r, c, u) && LastOpened(r, d, u)
    ensures c == d
  {
    hide Opens;
  }

  /** Every unlock ends an attempt some call opened. */
  lemma UnlockHasOpener(r: Run, u: nat) returns (c: nat)
    requires u < |r.calls| && r.ActionAt(u) == PulseUnlock
    ensures LastOpened(r, c, u)
  {
    hide Step, Muted, Run.At, Run.UnlockHistory, LastOpened;
    UnlockIffHeard(r, u);
    var n, w;
    c, n, w :| r.UnlockHistory(c, n, w, u, true);
    HistoryLastOpened(r, c, n, w, u);
  }

  // ---------------------------------------------------------------------------
  // Stage timeouts

  /** Call a entered the stage the controller is still in after k calls. */
  ghost predicate EnteredAt(r: Run, a: nat, k: nat) {
    || r.AwaitingTap(a, k, true)
    || (exists c :: r.AwaitingNear(c, a, k, true))
    || (exists c, n :: r.AwaitingAuth(c, n, a, k, true))
  }

  lemma EnteredGivesState(r: Run, a: nat, k: nat)
    requires EnteredAt(r, a, k)
    ensures a < k <= |r.calls| && r.calls[a].Event?
    ensures r.At(k).Transient() && r.At(k).enteredMs == Millis(r.calls[a].t)
  {
    hide Step, Muted, Millis;
    if r.AwaitingTap(a, k, true) {
      TapHistoryGivesState(r, a, k);
    } else if c :| r.AwaitingNear(c, a, k, true) {
      NearHistoryGivesState(r, c, a, k);
    } else {
      var c, n :| r.AwaitingAuth(c, n, a, k, true);
      AuthHistoryGivesState(r, c, n, a, k);
    }
  }

  lemma StepTick(c: Snapshot, call: Call)
    requires call.Tick? && c.Transient()
    ensures Step(c, call).1 == LedLocked <==> Elapsed(Millis(call.t), c.enteredMs) > 10000
  {}

  /** A tick abandons a stage truly more than 10000 ms old, and no other, exactly
      when that age has not come back round to a small residue; in particular for
      every age below 2^32 ms. */
  lemma StageTimeout(r: Run, a: nat, k: nat)
    requires EnteredAt(r, a, k) && k < |r.calls| && r.calls[k].Tick? && r.calls[a].t <= r.calls[k].t
    ensures var age := r.calls[k].t - r.calls[a].t;
      && ((r.Abandons(k) <==> age > 10000) <==> (age <= 10000 || age % WRAP > 10000))
      && (age < WRAP ==> (r.Abandons(k) <==> age > 10000))
  {
    hide Step, EnteredAt, Millis, Elapsed, Snapshot.Transient, Run.At;
    EnteredGivesState(r, a, k);
    StepTick(r.At(k), r.calls[k]);
    AgeTestExact(r.calls[a].t, r.calls[k].t, 10000);
  }

  /** Every event is preceded by a tick at most d ms earlier, as in the
      controller task's loop. */
  ghost predicate TickedWithin(r: Run, d: nat) {
    forall i :: 0 < i < |r.calls| && r.calls[i].Event? ==>
      r.calls[i - 1].Tick? && r.calls[i].t <= r.calls[i - 1].t + d
  }

  /** From call c to call u, calls are less than gap ms apart. */
  ghost predicate CallsWithin(r: Run, c: nat, u: nat, gap: int) {
    forall k :: c < k <= u && k < |r.calls| ==> r.calls[k].t - r.calls[k - 1].t < gap
  }

  /** While a stage lasts, its ticks come at most 10000 ms after it was entered,
      and its events at most d ms later. */
  lemma {:induction false} StageAge(r: Run, d: nat, a: nat, b: nat, j: nat)
    requires r.Ordered() && TickedWithin(r, d) && CallsWithin(r, a, b, WRAP - 10000 - d)
    requires a < j <= b < |r.calls| && r.calls[b].Event?
    requires forall k :: a < k <= b ==> EnteredAt(r, a, k)
    requires r.Undisturbed(a, b)
    ensures r.calls[j].t - r.calls[a].t <= 10000 + if r.calls[j].Tick? then 0 else d
  {
    hide Step, Run.Ordered, EnteredAt, Run.Abandons;
    assert EnteredAt(r, a, a + 1);
    EnteredGivesState(r, a, a + 1);
    if a < j - 1 {
      StageAge(r, d, a, b, j - 1);
    }
    if r.calls[j].Tick? {
      OrderedBetween(r, a, j);
      assert EnteredAt(r, a, j) && !r.Abandons(j);
      StageTimeout(r, a, j);
    }
  }

  lemma OrderedBetween(r: Run, a: nat, b: nat)
    requires r.Ordered() && a <= b < |r.calls|
    ensures r.calls[a].t <= r.calls[b].t
  {
    assert r.Now(a + 1) <= r.Now(b + 1);
  }

  /** An unlock comes at most 30000 + 3d ms after the connect that opened its
      attempt, on any uptime. */
  lemma UnlockLatency(r: Run, d: nat, c: nat, n: nat, w: nat, u: nat)
    requires r.Ordered() && TickedWithin(r, d) && CallsWithin(r, c, u, WRAP - 10000 - d)
    requires r.UnlockHistory(c, n, w, u, true)
    ensures r.calls[u].t - r.calls[c].t <= 30000 + 3 * d
  {
    hide Step, Run.Ordered, TickedWithin, Run.At, Muted, Run.Abandons;
    forall k | c < k <= n ensures EnteredAt(r, c, k) {
      assert r.AwaitingTap(c, k, true);
    }
    forall k | n < k <= w ensures EnteredAt(r, n, k) {
      assert r.AwaitingNear(c, n, k, true);
    }
    forall k | w < k <= u ensures EnteredAt(r, w, k) {
      assert r.AwaitingAuth(c, n, w, k, true);
    }
    hide EnteredAt;
    StageAge(r, d, c, n, n);
    StageAge(r, d, n, w, w);
    StageAge(r, d, w, u, u);
  }

  // ---------------------------------------------------------------------------
  // Where the clock wraps

  /** A failure at true time `since` is followed by a correct penalty or lockout
      at true time t exactly when t and the deadline share a 2^32 ms epoch. */
  lemma DeadlinesExact(c: Snapshot, since: nat, t: nat)
    requires since <= t < since + WRAP && c.failCount < 3
    ensures var (c', a) := c.RegisterFailure(Millis(since));
      if a == LogLockout then
        (c'.Tick(Millis(t)).0.state == Idle <==> t >= since + 60000)
          <==> t / WRAP == (since + 60000) / WRAP
      else
        (c'.HandleEvent(BleConnect, Millis(t)).0.state == BleConnected <==> t >= since + 5000)
          <==> t / WRAP == (since + 5000) / WRAP
  {
    DeadlineTestExact(since, t, 60000);
    DeadlineTestExact(since, t, 5000);
  }

  /** Three failures just before the clock wraps, a tick, and another failure. */
  function LockoutCutRun(): Run {
    var b := WRAP - 20000;
    Run(0, [Event(BleConnect, b), Event(NfcFail, b),
            Event(BleConnect, b + 5000), Event(NfcFail, b + 5000),
            Event(BleConnect, b + 10000), Event(NfcFail, b + 10000),
            Tick(b + 10001), Event(BleConnect, b + 10002), Event(NfcFail, b + 10003)])
  }

  lemma LockoutCutStates()
    ensures var r, b := LockoutCutRun(), WRAP - 20000;
      && r.At(1) == Snapshot(BleConnected, b, 0, 0, 0)
      && r.At(2) == Snapshot(Idle, b, b + 5000, 0, 1)
      && r.At(3) == Snapshot(BleConnected, b + 5000, b + 5000, 0, 1)
      && r.At(4) == Snapshot(Idle, b + 5000, b + 10000, 0, 2)
      && r.At(5) == Snapshot(BleConnected, b + 10000, b + 10000, 0, 2)
      && r.At(6) == Snapshot(Lockout, b + 10000, b + 10000, 50000, 3)
  {}

  lemma LockoutCutLast()
    ensures var r, b := LockoutCutRun(), WRAP - 20000;
      && r.At(7) == Snapshot(Idle, b + 10001, b + 10000, 50000, 0)
      && r.At(8) == Snapshot(BleConnected, b + 10002, b + 10000, 50000, 0)
  {
    hide Run.At;
    var r := LockoutCutRun();
    LockoutCutStates();
    NextState(r, 6);
    NextState(r, 7);
  }

  lemma NextState(r: Run, k: nat)
    requires k < |r.calls|
    ensures r.At(k + 1) == Step(r.At(k), r.calls[k]).0
  {
    hide Step;
  }

  /** A run that shows it: the lockout is over one millisecond after it began. */
  lemma LockoutCutShortByWrap()
    ensures var r := LockoutCutRun();
      r.ActionAt(5) == LogLockout && r.LockoutEndsAt(6) && r.calls[6].t == r.calls[5].t + 1
  {
    hide Run.At;
    LockoutCutStates();
  }

  /** And so the failure rate is broken: the next failure comes 3 ms after the one
      that locked out. */
  lemma FailureRateBrokenByWrap()
    ensures var r, b := LockoutCutRun(), WRAP - 20000;
      && r.Failures(9) == [b, b + 5000, b + 10000, b + 10003]
      && !WithinRate(r.Failures(9), 2, 3)
  {
    hide Run.At, Run.Failures;
    var r := LockoutCutRun();
    LockoutCutStates();
    LockoutCutLast();
    StartOf(r);
    FailuresGrow(r, 0);
    FailuresGrow(r, 1);
    FailuresGrow(r, 2);
    FailuresGrow(r, 3);
    FailuresGrow(r, 4);
    FailuresGrow(r, 5);
    FailuresGrow(r, 6);
    FailuresGrow(r, 7);
    FailuresGrow(r, 8);
  }

  lemma StartOf(r: Run)
    ensures r.At(0) == Booted(Millis(r.bootMs)) && r.Failures(0) == []
  {}

  function FailureLostRun(): Run {
    var b := WRAP - 10000;
    Run(0, [Event(BleConnect, b + 1000), Event(NfcFail, b + 6000), Event(BleConnect, b + 9900),
            Event(NfcFail, b + 10500), Event(NfcOk, b + 11200), Event(ZoneNear, b + 11300),
            Event(AuthOk, b + 11400)])
  }

  lemma FailureLostStates()
    ensures var r, b := FailureLostRun(), WRAP - 10000;
      && r.At(2) == Snapshot(Idle, b + 6000, 1000, 0, 1)
      && r.At(3) == Snapshot(BleConnected, b + 9900, 1000, 0, 1) == r.At(4)
      && r.At(5) == Snapshot(NfcVerified, 1200, 1000, 0, 1)
      && r.At(6) == Snapshot(UwbNear, 1300, 1000, 0, 1)
  {
    var r, b := FailureLostRun(), WRAP - 10000;
    assert r.At(1) == Snapshot(BleConnected, b + 1000, 0, 0, 0);
  }

  /** Another: a penalty that straddles the wrap lets the next attempt start too
      early, comes back while it runs and mutes a failed tap, and the door unlocks
      with no history of calls delivered that justifies it. */
  lemma FailureLostByWrap()
    ensures var r := FailureLostRun();
      && r.ActionAt(6) == PulseUnlock && r.Is(3, NfcFail) && r.MutedAt(3)
      && !exists c, n, w :: r.UnlockHistory(c, n, w, 6, false)
  {
    FailureLostStates();
    NoHistoryDelivered();
    hide Run.UnlockHistory;
  }

  lemma NoHistoryDelivered()
    ensures !exists c, n, w :: FailureLostRun().UnlockHistory(c, n, w, 6, false)
  {
    hide Step, Run.At;
    var r := FailureLostRun();
    assert r.Counts(3, NfcFail, false);
    forall c, n, w
      ensures r.UnlockHistory(c, n, w, 6, false) ==> n == 4 && c < 3
    {}
  }

}
