/** Every answer of the access state machine explained by the calls before it, at
    any times: what each answer leaves behind, and exactly which history earns it. */
module AccessAnswers {
  import opened Clock
  import opened AccessController
  import opened AccessRuns
  import opened AccessTimes

  // ---------------------------------------------------------------------------
  // What an answer leaves behind

  /** The state an answer stands for, if it changes any. */
  predicate Leaves(a: Action, s: AccessState) {
    match a
    case LedAuthenticating => s in {BleConnected, NfcVerified, UwbNear}
    case LedLocked => s == Idle
    case PulseUnlock => s == Unlocked
    case DriveLock => s == Locked
    case LogLockout => s == Lockout
    case LedUnlocked => false
    case NoAction => true
  }

  lemma StepLeaves(c: Snapshot, call: Call)
    requires Sound(c)
    ensures var (c', a) := Step(c, call);
      && Leaves(a, c'.state)
      && (a == NoAction ==> c' == c)
      && (a != NoAction ==> c'.enteredMs == Millis(call.t))
  {}

  /** An answer tells the state it leaves, entered at that call; no answer means that
      nothing has changed; and the green LED is never asked for by itself. */
  lemma AnswerTellsState(r: Run, k: nat)
    requires k < |r.calls|
    ensures Leaves(r.ActionAt(k), r.At(k + 1).state)
    ensures r.ActionAt(k) == NoAction ==> r.At(k + 1) == r.At(k)
    ensures r.ActionAt(k) != NoAction ==> r.At(k + 1).enteredMs == Millis(r.calls[k].t)
    ensures r.ActionAt(k) != LedUnlocked
  {
    hide Step, Sound;
    LockoutInvariant(r, k);
    StepLeaves(r.At(k), r.calls[k]);
  }

  // ---------------------------------------------------------------------------
  // The state, read off the history

  ghost predicate Connected(r: Run, k: nat) { exists c :: r.AwaitingTap(c, k, true) }

  ghost predicate Tapped(r: Run, k: nat) { exists c, n :: r.AwaitingNear(c, n, k, true) }

  ghost predicate Near(r: Run, k: nat) { exists c, n, w :: r.AwaitingAuth(c, n, w, k, true) }

  /** Call u unlocked the door and nothing has locked it since. */
  ghost predicate OpenSince(r: Run, u: nat, k: nat) {
    u < k <= |r.calls| && r.ActionAt(u) == PulseUnlock && forall i :: u < i < k ==> !LocksDoor(r, i)
  }

  ghost predicate Open(r: Run, k: nat) { exists u :: OpenSince(r, u, k) }

  ghost predicate LockedOut(r: Run, k: nat)
    requires k <= |r.calls|
  {
    r.Streak(k) == 3
  }

  /** Nothing is under way. */
  ghost predicate Waiting(r: Run, k: nat)
    requires k <= |r.calls|
  {
    !Connected(r, k) && !Tapped(r, k) && !Near(r, k) && !Open(r, k) && !LockedOut(r, k)
  }

  lemma StageIff(r: Run, k: nat)
    requires k <= |r.calls|
    ensures r.At(k).state == BleConnected <==> Connected(r, k)
    ensures r.At(k).state == NfcVerified <==> Tapped(r, k)
    ensures r.At(k).state == UwbNear <==> Near(r, k)
  {
    hide Step, Run.AwaitingTap, Run.AwaitingNear, Run.AwaitingAuth;
    var c, n, w := StateHasHistory(r, k);
    if c :| r.AwaitingTap(c, k, true) {
      TapHistoryGivesState(r, c, k);
    }
    if c, n :| r.AwaitingNear(c, n, k, true) {
      NearHistoryGivesState(r, c, n, k);
    }
    if c, n, w :| r.AwaitingAuth(c, n, w, k, true) {
      AuthHistoryGivesState(r, c, n, w, k);
    }
  }

  lemma StepOpens(c: Snapshot, call: Call)
    requires Sound(c)
    ensures Step(c, call).0.state == Unlocked <==>
              || Step(c, call).1 == PulseUnlock
              || (c.state == Unlocked && !Heard(c, call, {UserLock, BleDisconnect, ZoneFar}))
  {}

  lemma {:induction false} OpenIff(r: Run, k: nat)
    requires k <= |r.calls|
    ensures r.At(k).state == Unlocked <==> Open(r, k)
  {
    hide Step, Sound;
    if k > 0 {
      var j := k - 1;
      OpenIff(r, j);
      LockoutInvariant(r, j);
      StepOpens(r.At(j), r.calls[j]);
      if r.ActionAt(j) == PulseUnlock {
        assert OpenSince(r, j, k);
      } else if !LocksDoor(r, j) {
        if u :| OpenSince(r, u, j) {
          assert OpenSince(r, u, k);
        }
      }
      if u :| OpenSince(r, u, k) {
        assert u == j || (OpenSince(r, u, j) && !LocksDoor(r, j));
      }
    }
  }

  /** The state is what the history says: each stage of an attempt, an open door, a
      lockout, or waiting in IDLE or LOCKED. */
  lemma StateIffHistory(r: Run, k: nat)
    requires k <= |r.calls|
    ensures r.At(k).state == BleConnected <==> Connected(r, k)
    ensures r.At(k).state == NfcVerified <==> Tapped(r, k)
    ensures r.At(k).state == UwbNear <==> Near(r, k)
    ensures r.At(k).state == Unlocked <==> Open(r, k)
    ensures r.At(k).state == Lockout <==> LockedOut(r, k)
    ensures r.At(k).state in {Idle, Locked} <==> Waiting(r, k)
  {
    hide Step, Connected, Tapped, Near, Open;
    StageIff(r, k);
    OpenIff(r, k);
    LockoutInvariant(r, k);
  }

  // ---------------------------------------------------------------------------
  // What earns an answer

  lemma StepFails(c: Snapshot, call: Call)
    requires Sound(c)
    ensures Fails(call, Step(c, call).1) <==>
              || (c.state == BleConnected && Heard(c, call, {NfcFail}))
              || (c.state == UwbNear && Heard(c, call, {AuthFail}))
  {}

  /** A failure is registered exactly for a failed tap heard while an attempt awaits
      its tap, or a failed response heard while it awaits its response. */
  lemma FailureIffHeard(r: Run, k: nat)
    requires k < |r.calls|
    ensures r.FailureAt(k) <==>
              || (r.Counts(k, NfcFail, true) && Connected(r, k))
              || (r.Counts(k, AuthFail, true) && Near(r, k))
  {
    hide Step, Sound, Muted, Fails, Connected, Near;
    LockoutInvariant(r, k);
    StageIff(r, k);
    StepFails(r.At(k), r.calls[k]);
  }

  lemma StepAnswers(c: Snapshot, call: Call)
    requires Sound(c)
    ensures var a := Step(c, call).1;
      && (a == LedAuthenticating <==>
            || (c.state in {Idle, Locked} && Heard(c, call, {BleConnect}))
            || (c.state == BleConnected && Heard(c, call, {NfcOk}))
            || (c.state == NfcVerified && Heard(c, call, {ZoneNear})))
      && (a == DriveLock <==>
            || (c.state != Lockout && Delivers(call, {UserLock, BleDisconnect}))
            || (c.state == Unlocked && Heard(c, call, {ZoneFar})))
      && (a == LogLockout <==> Fails(call, a) && c.failCount == 2)
      && (a == LedLocked <==>
            || (Fails(call, a) && c.failCount != 2)
            || (c.state in {NfcVerified, UwbNear} && Heard(c, call, {ZoneFar}))
            || (call.Tick? && c.state == Lockout && Millis(call.t) >= c.lockoutUntilMs)
            || (call.Tick? && c.Transient() && Elapsed(Millis(call.t), c.enteredMs) > 10000))
  {}

  /** The clock reads more than 10000 ms since the stage was entered. */
  ghost predicate TimesOut(r: Run, k: nat)
    requires k < |r.calls|
  {
    r.calls[k].Tick? &&
    exists a: nat :: EnteredAt(r, a, k) && a < |r.calls| && Elapsed(Millis(r.calls[k].t), Millis(r.calls[a].t)) > 10000
  }

  lemma TimesOutIff(r: Run, k: nat)
    requires k < |r.calls| && r.calls[k].Tick?
    ensures TimesOut(r, k) <==> r.At(k).Transient() && Elapsed(Millis(r.calls[k].t), r.At(k).enteredMs) > 10000
  {
    hide Step, Elapsed, Millis, EnteredAt, Sound;
    if a: nat :| EnteredAt(r, a, k) && a < |r.calls| && Elapsed(Millis(r.calls[k].t), Millis(r.calls[a].t)) > 10000 {
      EnteredGivesState(r, a, k);
    }
    if r.At(k).Transient() {
      LockoutInvariant(r, k);
      TransientIs(r.At(k));
      var a := StageEntry(r, k);
      EnteredGivesState(r, a, k);
    }
  }

  lemma TransientIs(c: Snapshot)
    requires c.Transient() && Sound(c)
    ensures c.state in {BleConnected, NfcVerified, UwbNear}
  {}

  lemma StageEntry(r: Run, k: nat) returns (a: nat)
    requires k <= |r.calls| && r.At(k).state in {BleConnected, NfcVerified, UwbNear}
    ensures EnteredAt(r, a, k)
  {
    hide Step, Run.AwaitingTap, Run.AwaitingNear, Run.AwaitingAuth;
    var c, n, w := StateHasHistory(r, k);
    a := if r.At(k).state == BleConnected then c else if r.At(k).state == NfcVerified then n else w;
  }

  /** The last lockout reads expired. */
  predicate LockoutReadsOver(r: Run, k: nat)
    requires k < |r.calls|
  {
    r.calls[k].Tick? && Millis(r.calls[k].t) >= Millis(r.LockoutDue(k))
  }

  /** Which calls earn which answer, for every call of every run: a step of an
      attempt, an unlock, a lock, a lockout, or a fall back to IDLE. */
  lemma AnswersExplained(r: Run, k: nat)
    requires k < |r.calls|
    ensures r.ActionAt(k) == LedAuthenticating <==>
              || (r.Counts(k, BleConnect, true) && Waiting(r, k))
              || (r.Counts(k, NfcOk, true) && Connected(r, k))
              || (r.Counts(k, ZoneNear, true) && Tapped(r, k))
    ensures r.ActionAt(k) == PulseUnlock <==> r.Counts(k, AuthOk, true) && Near(r, k)
    ensures r.ActionAt(k) == DriveLock <==>
              || ((r.Is(k, UserLock) || r.Is(k, BleDisconnect)) && !LockedOut(r, k))
              || (r.Counts(k, ZoneFar, true) && Open(r, k))
    ensures r.ActionAt(k) == LogLockout <==> r.FailureAt(k) && r.Streak(k) == 2
    ensures r.ActionAt(k) == LedLocked <==>
              || (r.FailureAt(k) && r.Streak(k) != 2)
              || (r.Counts(k, ZoneFar, true) && (Tapped(r, k) || Near(r, k)))
              || (LockedOut(r, k) && LockoutReadsOver(r, k))
              || TimesOut(r, k)
  {
    hide Step, Sound, Muted, Fails, Connected, Tapped, Near, Open, Waiting, TimesOut, Elapsed, Millis, Run.Streak;
    hide Snapshot.Transient;
    LockoutInvariant(r, k);
    StateIffHistory(r, k);
    StepAnswers(r.At(k), r.calls[k]);
    StepAttempt(r.At(k), r.calls[k]);
    DeadlinesAre(r, k);
    if r.calls[k].Tick? {
      TimesOutIff(r, k);
    } else {
      NoTimeout(r, k);
    }
  }

  lemma NoTimeout(r: Run, k: nat)
    requires k < |r.calls| && r.calls[k].Event?
    ensures !TimesOut(r, k)
  {}
}
