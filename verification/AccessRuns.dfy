/** Whole runs of the access state machine: construct, reset once at boot, then
    any sequence of `handle_event` and `tick` calls.  What the machine does is
    told here for calls at any times at all; where the clock is read, a run may
    find a call muted by a penalty deadline, and AccessTimes says when it should. */
module AccessRuns {
  import opened Clock
  import opened AccessController

  /** One call on the controller, at its true time in milliseconds. */
  datatype Call = Event(ev: AccessEvent, t: nat) | Tick(t: nat)

  function Step(c: Snapshot, call: Call): (Snapshot, Action) {
    match call
    case Event(ev, t) => c.HandleEvent(ev, Millis(t))
    case Tick(t) => c.Tick(Millis(t))
  }

  predicate Delivers(call: Call, evs: set<AccessEvent>) {
    call.Event? && call.ev in evs
  }

  /** The call is one the penalty deadline is compared for. */
  predicate Screened(c: Snapshot, call: Call) {
    call.Event? && call.ev !in {UserLock, BleDisconnect} && c.state != Lockout
  }

  /** ... and it is ignored because the clock reads less than the deadline. */
  predicate Muted(c: Snapshot, call: Call) {
    Screened(c, call) && Millis(call.t) < c.penaltyUntilMs
  }

  predicate Heard(c: Snapshot, call: Call, evs: set<AccessEvent>) {
    Delivers(call, evs) && !Muted(c, call)
  }

  /** A failed attempt, as the call and its answer show it. */
  predicate Fails(call: Call, a: Action) {
    Delivers(call, {NfcFail, AuthFail}) && a in {LedLocked, LogLockout}
  }

  datatype Run = Run(bootMs: nat, calls: seq<Call>) {
    /** The controller after the first k calls. */
    function At(k: nat): Snapshot
      requires k <= |calls|
    {
      if k == 0 then Booted(Millis(bootMs)) else Step(At(k - 1), calls[k - 1]).0
    }

    /** What call k returned. */
    function ActionAt(k: nat): Action
      requires k < |calls|
    {
      Step(At(k), calls[k]).1
    }

    predicate Is(k: nat, ev: AccessEvent)
      requires k < |calls|
    {
      calls[k].Event? && calls[k].ev == ev
    }

    predicate MutedAt(k: nat)
      requires k < |calls|
    {
      Muted(At(k), calls[k])
    }

    // ----- failures, as an observer of the calls and answers sees them -----

    predicate FailureAt(k: nat)
      requires k < |calls|
    {
      Fails(calls[k], ActionAt(k))
    }

    /** Call k ended a lockout. */
    predicate LockoutEndsAt(k: nat)
      requires k < |calls|
    {
      calls[k].Tick? && At(k).state == Lockout && ActionAt(k) == LedLocked
    }

    /** Failures among the first k calls since the last unlock or lockout expiry. */
    function Streak(k: nat): nat
      requires k <= |calls|
    {
      if k == 0 then 0
      else if FailureAt(k - 1) then Streak(k - 1) + 1
      else if ActionAt(k - 1) == PulseUnlock || LockoutEndsAt(k - 1) then 0
      else Streak(k - 1)
    }

    /** Times of the failures among the first k calls since the last unlock. */
    function Failures(k: nat): seq<nat>
      requires k <= |calls|
    {
      if k == 0 then []
      else if FailureAt(k - 1) then Failures(k - 1) + [calls[k - 1].t]
      else if ActionAt(k - 1) == PulseUnlock then []
      else Failures(k - 1)
    }

    // ----- true time -----

    /** True time after the first k calls. */
    function Now(k: nat): nat
      requires k <= |calls|
    {
      if k == 0 then bootMs else calls[k - 1].t
    }

    /** Times never decrease. */
    ghost predicate Ordered() {
      forall j, k :: 0 <= j <= k <= |calls| ==> Now(j) <= Now(k)
    }

    /** When the last penalty is truly over, 0 before the first. */
    function PenaltyDue(k: nat): nat
      requires k <= |calls|
    {
      if k == 0 then 0
      else if FailureAt(k - 1) && ActionAt(k - 1) != LogLockout then calls[k - 1].t + 5000
      else PenaltyDue(k - 1)
    }

    /** When the last lockout is truly over, 0 before the first. */
    function LockoutDue(k: nat): nat
      requires k <= |calls|
    {
      if k == 0 then 0
      else if ActionAt(k - 1) == LogLockout then calls[k - 1].t + 60000
      else LockoutDue(k - 1)
    }

    // ----- the ordered history behind an unlock -----

    /** Call i counts as delivering ev: whenever it does, or only if heard. */
    predicate Counts(i: nat, ev: AccessEvent, heard: bool)
      requires i < |calls|
    {
      Is(i, ev) && (heard ==> !MutedAt(i))
    }

    /** No call strictly between a and b counts as delivering ev. */
    ghost predicate None(ev: AccessEvent, a: nat, b: nat, heard: bool) {
      forall i :: a < i < b && i < |calls| ==> !Counts(i, ev, heard)
    }

    /** Call i abandons an attempt: a lock request, a disconnect or a timeout. */
    predicate Abandons(i: nat)
      requires i < |calls|
    {
      Is(i, UserLock) || Is(i, BleDisconnect) || (calls[i].Tick? && ActionAt(i) == LedLocked)
    }

    ghost predicate Undisturbed(a: nat, b: nat) {
      forall i :: a < i < b && i < |calls| ==> !Abandons(i)
    }

    /** Call c opened an attempt that is still waiting for its NFC tap after k calls. */
    ghost predicate AwaitingTap(c: nat, k: nat, heard: bool) {
      && c < k <= |calls|
      && Is(c, BleConnect) && ActionAt(c) == LedAuthenticating
      && Undisturbed(c, k)
      && None(NfcOk, c, k, heard) && None(NfcFail, c, k, heard)
    }

    /** ... tapped at n, and waiting to come near. */
    ghost predicate AwaitingNear(c: nat, n: nat, k: nat, heard: bool) {
      && n < k <= |calls|
      && AwaitingTap(c, n, heard) && Counts(n, NfcOk, heard)
      && Undisturbed(n, k)
      && None(ZoneNear, n, k, heard) && None(ZoneFar, n, k, heard)
    }

    /** ... near since w, and waiting for a verified response. */
    ghost predicate AwaitingAuth(c: nat, n: nat, w: nat, k: nat, heard: bool) {
      && w < k <= |calls|
      && AwaitingNear(c, n, w, heard) && Counts(w, ZoneNear, heard)
      && Undisturbed(w, k)
      && None(ZoneFar, w, k, heard) && None(AuthOk, w, k, heard) && None(AuthFail, w, k, heard)
    }

    /** Connect at c, tap at n, near at w, verified at u, each the first of its
        kind, with nothing between them that abandons the attempt. */
    ghost predicate UnlockHistory(c: nat, n: nat, w: nat, u: nat, heard: bool) {
      u < |calls| && AwaitingAuth(c, n, w, u, heard) && Counts(u, AuthOk, heard)
    }
  }

  // ---------------------------------------------------------------------------
  // What every reachable state satisfies

  ghost predicate Sound(c: Snapshot) {
    && c.state != Authenticated
    && c.failCount <= 3
    && (c.state == Lockout <==> c.failCount == 3)
  }

  /** How one call moves the failure count, told by its answer. */
  lemma StepCounts(c: Snapshot, call: Call)
    requires Sound(c)
    ensures var (c', a) := Step(c, call);
      && Sound(c')
      && c'.failCount ==
          (if Fails(call, a) then c.failCount + 1
           else if a == PulseUnlock || (call.Tick? && c.state == Lockout && a == LedLocked) then 0
           else c.failCount)
      && (c.state == Lockout && call.Event? ==> c' == c && a == NoAction)
  {}

  /** The lockout invariant, for calls at any times: AUTHENTICATED is never
      visible, the failure count is the observed streak, LOCKOUT holds exactly at
      three, and in it every event is a no-op. */
  lemma {:induction false} LockoutInvariant(r: Run, k: nat)
    requires k <= |r.calls|
    ensures Sound(r.At(k))
    ensures r.At(k).failCount == r.Streak(k)
    ensures r.At(k).state == Lockout <==> r.Streak(k) == 3
    ensures k < |r.calls| && r.calls[k].Event? && r.At(k).state == Lockout ==>
              r.At(k + 1) == r.At(k) && r.ActionAt(k) == NoAction
  {
    hide Step;
    if k > 0 {
      LockoutInvariant(r, k - 1);
      StepCounts(r.At(k - 1), r.calls[k - 1]);
    }
    if k < |r.calls| && r.At(k).state == Lockout {
      StepCounts(r.At(k), r.calls[k]);
    }
  }

  // ---------------------------------------------------------------------------
  // Unlocks and their history, at any times

  /** How one call moves an attempt along its four stages. */
  lemma StepAttempt(c: Snapshot, call: Call)
    requires Sound(c)
    ensures var (c', a) := Step(c, call);
      var quiet := !Delivers(call, {UserLock, BleDisconnect}) && !(call.Tick? && a == LedLocked);
      var opens := Delivers(call, {BleConnect}) && a == LedAuthenticating;
      var taps := c.state == BleConnected && Heard(c, call, {NfcOk});
      var nears := c.state == NfcVerified && Heard(c, call, {ZoneNear});
      && (c'.state == BleConnected <==>
            opens || (c.state == BleConnected && quiet && !Heard(c, call, {NfcOk, NfcFail})))
      && (c'.state == NfcVerified <==>
            taps || (c.state == NfcVerified && quiet && !Heard(c, call, {ZoneNear, ZoneFar})))
      && (c'.state == UwbNear <==>
            nears || (c.state == UwbNear && quiet && !Heard(c, call, {ZoneFar, AuthOk, AuthFail})))
      && (a == PulseUnlock <==> c.state == UwbNear && Heard(c, call, {AuthOk}))
      && (opens ==> c.state in {Idle, Locked} && !Muted(c, call))
      && (c'.Transient() ==> c'.enteredMs == if opens || taps || nears then Millis(call.t) else c.enteredMs)
  {}

  /** How the patterns start and grow by call j. */
  lemma PatternsGrow(r: Run, c: nat, n: nat, w: nat, j: nat)
    requires j < |r.calls|
    ensures r.Is(j, BleConnect) && r.ActionAt(j) == LedAuthenticating ==> r.AwaitingTap(j, j + 1, true)
    ensures r.AwaitingTap(c, j, true) && r.Counts(j, NfcOk, true) ==> r.AwaitingNear(c, j, j + 1, true)
    ensures r.AwaitingNear(c, n, j, true) && r.Counts(j, ZoneNear, true) ==> r.AwaitingAuth(c, n, j, j + 1, true)
    ensures r.AwaitingTap(c, j, true) && !r.Abandons(j) && !r.Counts(j, NfcOk, true) && !r.Counts(j, NfcFail, true)
            ==> r.AwaitingTap(c, j + 1, true)
    ensures r.AwaitingNear(c, n, j, true) && !r.Abandons(j)
            && !r.Counts(j, ZoneNear, true) && !r.Counts(j, ZoneFar, true)
            ==> r.AwaitingNear(c, n, j + 1, true)
    ensures r.AwaitingAuth(c, n, w, j, true) && !r.Abandons(j)
            && !r.Counts(j, ZoneFar, true) && !r.Counts(j, AuthOk, true) && !r.Counts(j, AuthFail, true)
            ==> r.AwaitingAuth(c, n, w, j + 1, true)
  {
    hide Step, Run.Abandons, Run.Counts;
  }

  /** Reading the state back into history: each intermediate state was reached
      through exactly its awaiting pattern. */
  lemma {:induction false} StateHasHistory(r: Run, k: nat) returns (c: nat, n: nat, w: nat)
    requires k <= |r.calls|
    ensures r.At(k).state == BleConnected ==> r.AwaitingTap(c, k, true)
    ensures r.At(k).state == NfcVerified ==> r.AwaitingNear(c, n, k, true)
    ensures r.At(k).state == UwbNear ==> r.AwaitingAuth(c, n, w, k, true)
  {
    hide Step, Sound, Muted, Run.AwaitingTap, Run.AwaitingNear, Run.AwaitingAuth;
    c, n, w := 0, 0, 0;
    if k > 0 {
      var j := k - 1;
      c, n, w := StateHasHistory(r, j);
      LockoutInvariant(r, j);
      StepAttempt(r.At(j), r.calls[j]);
      PatternsGrow(r, c, n, w, j);
      if r.Is(j, BleConnect) && r.ActionAt(j) == LedAuthenticating {
        c := j;
      } else if r.Counts(j, NfcOk, true) && r.At(j).state == BleConnected {
        n := j;
      } else if r.Counts(j, ZoneNear, true) && r.At(j).state == NfcVerified {
        w := j;
      }
    }
  }

  /** Reading history forward into the state. */
  lemma {:induction false} TapHistoryGivesState(r: Run, c: nat, k: nat)
    requires r.AwaitingTap(c, k, true)
    ensures r.At(k).state == BleConnected && r.At(k).enteredMs == Millis(r.calls[c].t)
  {
    hide Step, Sound, Muted;
    LockoutInvariant(r, k - 1);
    StepAttempt(r.At(k - 1), r.calls[k - 1]);
    if c + 1 < k {
      TapHistoryGivesState(r, c, k - 1);
      assert !r.Abandons(k - 1) && !r.Counts(k - 1, NfcOk, true) && !r.Counts(k - 1, NfcFail, true);
    }
  }

  lemma {:induction false} NearHistoryGivesState(r: Run, c: nat, n: nat, k: nat)
    requires r.AwaitingNear(c, n, k, true)
    ensures r.At(k).state == NfcVerified && r.At(k).enteredMs == Millis(r.calls[n].t)
  {
    hide Step, Sound, Muted;
    LockoutInvariant(r, k - 1);
    StepAttempt(r.At(k - 1), r.calls[k - 1]);
    if n + 1 < k {
      NearHistoryGivesState(r, c, n, k - 1);
      assert !r.Abandons(k - 1) && !r.Counts(k - 1, ZoneNear, true) && !r.Counts(k - 1, ZoneFar, true);
    } else {
      TapHistoryGivesState(r, c, n);
    }
  }

  lemma {:induction false} AuthHistoryGivesState(r: Run, c: nat, n: nat, w: nat, k: nat)
    requires r.AwaitingAuth(c, n, w, k, true)
    ensures r.At(k).state == UwbNear && r.At(k).enteredMs == Millis(r.calls[w].t)
  {
    hide Step, Sound, Muted;
    LockoutInvariant(r, k - 1);
    StepAttempt(r.At(k - 1), r.calls[k - 1]);
    if w + 1 < k {
      AuthHistoryGivesState(r, c, n, w, k - 1);
      assert !r.Abandons(k - 1) && !r.Counts(k - 1, ZoneFar, true);
      assert !r.Counts(k - 1, AuthOk, true) && !r.Counts(k - 1, AuthFail, true);
    } else {
      NearHistoryGivesState(r, c, n, w);
    }
  }

  /** For calls at any times, a call unlocks exactly when it completes an ordered
      history of connect, tap, near and verified response, as the machine heard it. */
  lemma UnlockIffHeard(r: Run, u: nat)
    requires u < |r.calls|
    ensures r.ActionAt(u) == PulseUnlock <==> exists c, n, w :: r.UnlockHistory(c, n, w, u, true)
  {
    hide Step, Sound, Muted;
    LockoutInvariant(r, u);
    StepAttempt(r.At(u), r.calls[u]);
    if r.ActionAt(u) == PulseUnlock {
      var c, n, w := StateHasHistory(r, u);
      assert r.UnlockHistory(c, n, w, u, true);
    }
    if c, n, w :| r.UnlockHistory(c, n, w, u, true) {
      AuthHistoryGivesState(r, c, n, w, u);
    }
  }

  /** Call i locks an unlocked door. */
  predicate LocksDoor(r: Run, i: nat)
    requires i < |r.calls|
  {
    r.Is(i, UserLock) || r.Is(i, BleDisconnect) || r.Counts(i, ZoneFar, true)
  }

  lemma StepUnlocked(c: Snapshot, call: Call)
    requires c.state == Unlocked
    ensures if Heard(c, call, {UserLock, BleDisconnect, ZoneFar})
            then Step(c, call).0.state == Locked && Step(c, call).1 == DriveLock
            else Step(c, call) == (c, NoAction)
  {}

  lemma UnlockAnswers(c: Snapshot, call: Call)
    ensures Step(c, call).1 == PulseUnlock ==> Step(c, call).0.state == Unlocked
  {}

  /** An unlocked door stays unlocked until the first lock request, disconnect or
      heard far reading, and that one locks it. */
  lemma {:induction false} UnlockedUntilLocked(r: Run, u: nat, k: nat)
    requires u < k <= |r.calls| && r.ActionAt(u) == PulseUnlock
    requires forall i :: u < i < k ==> !LocksDoor(r, i)
    ensures r.At(k).state == Unlocked
    ensures k < |r.calls| && LocksDoor(r, k) ==> r.ActionAt(k) == DriveLock && r.At(k + 1).state == Locked
  {
    hide Step;
    if u + 1 < k {
      UnlockedUntilLocked(r, u, k - 1);
      assert !LocksDoor(r, k - 1);
      StepUnlocked(r.At(k - 1), r.calls[k - 1]);
    } else {
      UnlockAnswers(r.At(u), r.calls[u]);
    }
    if k < |r.calls| {
      StepUnlocked(r.At(k), r.calls[k]);
    }
  }
}
