/** A run in which a lost disconnect breaks the end-to-end binding: a full queue
    swallows the end of connection 1 and the start of connection 2, and a response
    verified on 2 finishes the attempt that 1 opened. */
module Overflow {
  import opened Clock
  import opened AccessController
  import opened AccessRuns
  import opened ControllerLoop
  import opened AuthRing
  import opened Uwb
  import opened Firmware
  import opened Binding

  const CLOSE_BY: UwbSample := UwbSample(10.0, 0, 1)

  /** Connect, thirteen wrong answers, a tap and a near reading fill the queue; then
      the reconnect is lost, the queue is handled and the new challenge answered. */
  function StepOf(i: nat, t: nat, mac: Mac, n1: Bytes, n2: Bytes, bad: Bytes): SysStep {
    if i == 0 then Connect(1, t, n1)
    else if i < 14 then Respond(t, n1, bad)
    else if i == 14 then Tap(true)
    else if i == 15 then Range(CLOSE_BY)
    else if i == 16 then Disconnect
    else if i == 17 then Connect(2, t, n2)
    else if i < 34 then Dequeue(t, t)
    else if i == 34 then Respond(t, n2, mac(n2))
    else Dequeue(t, t)
  }

  function OverflowRun(start: Sys, t: nat, mac: Mac, n1: Bytes, n2: Bytes, bad: Bytes): SysRun {
    SysRun(t, start, mac, seq(36, i requires 0 <= i < 36 => StepOf(i, t, mac, n1, n2, bad)))
  }

  /** The events sent first, in order. */
  function EventOf(i: nat): Evt {
    if i == 0 then Evt(BleConnect, 1)
    else if i < 14 then Evt(AuthFail, 1)
    else if i == 14 then Evt(NfcOk, 0)
    else Evt(ZoneNear, 0)
  }

  function Events(from: nat, to: nat): (es: seq<Evt>)
    requires from <= to
    ensures |es| == to - from
    ensures forall i :: 0 <= i < |es| ==> es[i] == EventOf(from + i)
  {
    seq(to - from, i requires 0 <= i < to - from => EventOf(from + i))
  }

  /** The controller after handling the first i of them, all at time t. */
  function Handling(i: nat, t: nat): Snapshot {
    Snapshot(if i == 0 then Idle else if i < 15 then BleConnected else if i == 15 then NfcVerified else UwbNear,
             Millis(t), 0, 0, 0)
  }

  // ---------------------------------------------------------------------------
  // Filling the queue

  /** The ring once connection 1 has its challenge. */
  function RingOne(start: Sys, t: nat, n1: Bytes): (r: Ring)
    requires start.ring.Valid()
    ensures r.Valid()
  {
    start.ring.Issue(1, Millis(t), n1)
  }

  lemma WrongAnswer(start: Sys, b: nat, t: nat, mac: Bytes, n1: Bytes, bad: Bytes)
    requires Fresh(start, b) && bad != mac
    ensures RingOne(start, t, n1).Verify(mac, 1, Millis(t), n1, bad) == (RingOne(start, t, n1), BadHmac)
  {
    hide Millis;
    var pool := RingOne(start, t, n1).pool;
    assert pool[0] == NonceRecord(n1, Millis(t), 1, false, true);
    assert FindFrom(pool, n1, 0) == 0;
  }

  lemma RightAnswer(start: Sys, b: nat, t: nat, mac: Bytes, n1: Bytes, n2: Bytes)
    requires Fresh(start, b) && n1 != n2
    ensures RingOne(start, t, n1).Issue(2, Millis(t), n2).Verify(mac, 2, Millis(t), n2, mac).1 == OK
  {
    hide Millis;
    var ring := RingOne(start, t, n1);
    assert FindFrom(ring.pool, n2, 0) == NONCE_POOL_SIZE;
    FreshNonceAccepted(ring, mac, 2, Millis(t), n2);
  }

  /** What the run has reached once its first k events are queued. */
  ghost predicate Filling(s: Sys, start: Sys, t: nat, n1: Bytes, k: nat)
    requires start.ring.Valid()
  {
    && s.ring == RingOne(start, t, n1)
    && s.link == 1 && s.queue == Events(0, k) && s.loop == start.loop
    && s.prevZone == Far && s.tracker == Tracker(UwbSample(0.0, 0, 0), Far, false, false)
  }

  lemma FillStep(s: Sys, start: Sys, t: nat, mac: Mac, n1: Bytes, n2: Bytes, bad: Bytes, k: nat)
    requires Fresh(start, t) && bad != mac(n1) && 0 < k < 14 && s.Valid()
    requires Filling(s, start, t, n1, k) && !s.tapped
    ensures var s' := SysNext(s, mac, StepOf(k, t, mac, n1, n2, bad));
      Filling(s', start, t, n1, k + 1) && !s'.tapped
  {
    hide RingOne, Fresh, Ring.Verify, Millis;
    WrongAnswer(start, t, t, mac(n1), n1, bad);
    assert Events(0, k) + [EventOf(k)] == Events(0, k + 1);
  }

  lemma {:induction false} Filled(start: Sys, t: nat, mac: Mac, n1: Bytes, n2: Bytes, bad: Bytes, k: nat)
    requires Fresh(start, t) && bad != mac(n1) && 0 < k <= 14
    ensures var r := OverflowRun(start, t, mac, n1, n2, bad);
      Filling(r.At(k), start, t, n1, k) && !r.At(k).tapped && r.Log(k) == []
  {
    hide SysNext, Filling, RingOne, Millis;
    var r := OverflowRun(start, t, mac, n1, n2, bad);
    if k == 1 {
      FirstStep(start, t, mac, n1);
      assert r.At(0) == start && r.steps[0] == Connect(1, t, n1);
    } else {
      Filled(start, t, mac, n1, n2, bad, k - 1);
      FillStep(r.At(k - 1), start, t, mac, n1, n2, bad, k - 1);
    }
  }

  lemma FirstStep(start: Sys, t: nat, mac: Mac, n1: Bytes)
    requires Fresh(start, t)
    ensures Filling(SysNext(start, mac, Connect(1, t, n1)), start, t, n1, 1)
    ensures !SysNext(start, mac, Connect(1, t, n1)).tapped
  {
    hide Millis, Ring.Issue;
    assert Events(0, 1) == [EventOf(0)];
  }

  /** Tap and near reading fill it; the disconnect and the next connect are lost. */
  lemma LastIn(s: Sys, start: Sys, t: nat, mac: Mac, n1: Bytes)
    requires start.ring.Valid() && s.Valid() && Filling(s, start, t, n1, 14) && !s.tapped
    ensures var s2 := SysNext(SysNext(s, mac, Tap(true)), mac, Range(CLOSE_BY));
      s2.queue == Events(0, 16) && s2.loop == start.loop && s2.ring == RingOne(start, t, n1) && s2.link == 1
  {
    hide RingOne, Millis;
    assert Events(0, 14) + [EventOf(14)] + [EventOf(15)] == Events(0, 16);
  }

  lemma Lost(s: Sys, mac: Mac, t: nat, n2: Bytes)
    requires s.Valid() && |s.queue| == EVENT_QUEUE_LEN
    ensures var s2 := SysNext(SysNext(s, mac, Disconnect), mac, Connect(2, t, n2));
      s2.queue == s.queue && s2.loop == s.loop && s2.ring == s.ring.Issue(2, Millis(t), n2) && s2.link == 2
  {
    hide Ring.Issue, Millis;
  }

  lemma NoCall(s: Sys, step: SysStep)
    requires !step.Dequeue? && !step.Service?
    ensures LoopStepsOf(s, step) == []
  {}

  /** What the run has reached once it has handled i of them. */
  ghost predicate Draining(s: Sys, log: seq<LoopStep>, start: Sys, t: nat, n1: Bytes, n2: Bytes, i: nat)
    requires start.ring.Valid() && i <= 16
  {
    && s.ring == RingOne(start, t, n1).Issue(2, Millis(t), n2) && s.link == 2
    && s.queue == Events(i, 16) && s.loop.c == Handling(i, t)
    && |log| == i && forall j :: 0 <= j < i ==> log[j] == Handle(EventOf(j), t, t)
  }

  lemma Full(start: Sys, t: nat, mac: Mac, n1: Bytes, n2: Bytes, bad: Bytes)
    requires Fresh(start, t) && bad != mac(n1)
    ensures var r := OverflowRun(start, t, mac, n1, n2, bad);
      Draining(r.At(18), r.Log(18), start, t, n1, n2, 0)
  {
    hide SysNext, Filling, RingOne, Millis, Ring.Issue, LoopStepsOf;
    var r := OverflowRun(start, t, mac, n1, n2, bad);
    Filled(start, t, mac, n1, n2, bad, 14);
    var s := r.At(14);
    LastIn(s, start, t, mac, n1);
    assert r.At(15) == SysNext(s, mac, Tap(true)) && r.At(16) == SysNext(r.At(15), mac, Range(CLOSE_BY));
    Lost(r.At(16), mac, t, n2);
    assert r.At(17) == SysNext(r.At(16), mac, Disconnect) && r.At(18) == SysNext(r.At(17), mac, Connect(2, t, n2));
    forall k | 14 <= k < 18
      ensures LoopStepsOf(r.At(k), r.steps[k]) == []
    {
      NoCall(r.At(k), r.steps[k]);
    }
    assert r.Log(15) == r.Log(16) == r.Log(17) == r.Log(18) == [];
  }

  // ---------------------------------------------------------------------------
  // Handling it

  lemma HandlingStep(i: nat, t: nat)
    requires i < 16
    ensures Step(Handling(i, t), Event(EventOf(i).kind, t)).0 == Handling(i + 1, t)
  {
    hide Millis;
  }

  lemma DrainStep(s: Sys, log: seq<LoopStep>, start: Sys, t: nat, mac: Mac, n1: Bytes, n2: Bytes, i: nat)
    requires start.ring.Valid() && i < 16 && s.Valid() && Draining(s, log, start, t, n1, n2, i)
    ensures Draining(SysNext(s, mac, Dequeue(t, t)), log + LoopStepsOf(s, Dequeue(t, t)), start, t, n1, n2, i + 1)
  {
    hide RingOne, Millis, Ring.Issue, Step, Apply, Handling, EventOf;
    HandlingStep(i, t);
    assert s.queue[0] == EventOf(i) && s.queue[1..] == Events(i + 1, 16);
  }

  lemma {:induction false} Drained(start: Sys, t: nat, mac: Mac, n1: Bytes, n2: Bytes, bad: Bytes, i: nat)
    requires Fresh(start, t) && bad != mac(n1) && i <= 16
    ensures var r := OverflowRun(start, t, mac, n1, n2, bad);
      Draining(r.At(18 + i), r.Log(18 + i), start, t, n1, n2, i)
  {
    hide SysNext, Draining, RingOne, Millis, Ring.Issue, LoopStepsOf;
    var r := OverflowRun(start, t, mac, n1, n2, bad);
    if i == 0 {
      Full(start, t, mac, n1, n2, bad);
    } else {
      Drained(start, t, mac, n1, n2, bad, i - 1);
      DrainStep(r.At(17 + i), r.Log(17 + i), start, t, mac, n1, n2, i - 1);
    }
  }

  /** The response on connection 2 reaches the controller and unlocks. */
  lemma LastTwo(s: Sys, log: seq<LoopStep>, start: Sys, t: nat, mac: Mac, n1: Bytes, n2: Bytes)
    requires Fresh(start, t) && n1 != n2 && s.Valid() && Draining(s, log, start, t, n1, n2, 16)
    ensures var s2 := SysNext(s, mac, Respond(t, n2, mac(n2)));
      && s2.queue == [Evt(AuthOk, 2)] && s2.loop == s.loop
      && LoopNext(s2.loop, Handle(Evt(AuthOk, 2), t, t)).1 == PulseUnlock
  {
    hide RingOne, Millis, Ring.Issue, Ring.Verify, Apply, Fresh;
    RightAnswer(start, t, t, mac(n2), n1, n2);
  }

  lemma RunAlternates(start: Sys, t: nat, mac: Mac, n1: Bytes, n2: Bytes, bad: Bytes)
    requires Fresh(start, t) && bad != mac(n1)
    ensures OverflowRun(start, t, mac, n1, n2, bad).LinksAlternate()
  {
    hide RingOne, Millis, Ring.Issue, LoopNext, VerifyAt, Tracker.Push;
    var r := OverflowRun(start, t, mac, n1, n2, bad);
    assert r.At(0) == start;
    forall k | 0 < k <= 17
      ensures r.At(k).link == if k <= 16 then 1 else INVALID_HANDLE
    {
      LinkOfRun(start, t, mac, n1, n2, bad, k);
    }
  }

  lemma {:induction false} LinkOfRun(start: Sys, t: nat, mac: Mac, n1: Bytes, n2: Bytes, bad: Bytes, k: nat)
    requires Fresh(start, t) && 0 < k <= 17
    ensures OverflowRun(start, t, mac, n1, n2, bad).At(k).link == if k <= 16 then 1 else INVALID_HANDLE
  {
    hide RingOne, Millis, Ring.Issue, LoopNext, VerifyAt, Tracker.Push;
    if k > 1 {
      LinkOfRun(start, t, mac, n1, n2, bad, k - 1);
    }
  }

  /** Overflow can break the binding, from boot, whatever the MAC and the nonces:
      the last event handled is an AUTH_OK of connection 2, it unlocks, and the
      attempt was opened by connection 1, whose end was lost. */
  lemma OverflowBreaksBinding(start: Sys, t: nat, mac: Mac, n1: Bytes, n2: Bytes, bad: Bytes)
    requires Fresh(start, t) && n1 != n2 && bad != mac(n1)
    ensures var r := OverflowRun(start, t, mac, n1, n2, bad);
      && r.Valid() && r.LinksAlternate()
      && |r.Log(36)| == 17 && r.LoopOf(36).ActionAt(16) == PulseUnlock
      && r.Log(36)[0] == Handle(Evt(BleConnect, 1), t, t)
      && r.Log(36)[16] == Handle(Evt(AuthOk, 2), t, t)
      && r.steps[16].Disconnect? && !RoomAt(r, 16)
  {
    hide SysNext, RingOne, Millis, Ring.Issue, LoopNext, Step, Draining, Fresh;
    var r := OverflowRun(start, t, mac, n1, n2, bad);
    RunAlternates(start, t, mac, n1, n2, bad);
    Drained(start, t, mac, n1, n2, bad, 16);
    LastTwo(r.At(34), r.Log(34), start, t, mac, n1, n2);
    assert r.At(35) == SysNext(r.At(34), mac, Respond(t, n2, mac(n2)));
    assert r.Log(35) == r.Log(34);
    assert r.Log(36) == r.Log(35) + [Handle(Evt(AuthOk, 2), t, t)];
    LogIsLoop(r, 35);
    DrainedLog(start, t, mac, n1, n2, bad);
    LoopPrefix(r.LoopOf(35), Handle(Evt(AuthOk, 2), t, t), 16);
    QueueFull(start, t, mac, n1, n2, bad);
  }

  lemma DrainedLog(start: Sys, t: nat, mac: Mac, n1: Bytes, n2: Bytes, bad: Bytes)
    requires Fresh(start, t) && bad != mac(n1)
    ensures var log := OverflowRun(start, t, mac, n1, n2, bad).Log(34);
      |log| == 16 && log[0] == Handle(Evt(BleConnect, 1), t, t)
  {
    hide SysNext, RingOne, Millis, Ring.Issue, LoopNext, LoopStepsOf;
    Drained(start, t, mac, n1, n2, bad, 16);
  }

  lemma QueueFull(start: Sys, t: nat, mac: Mac, n1: Bytes, n2: Bytes, bad: Bytes)
    requires Fresh(start, t) && bad != mac(n1)
    ensures !RoomAt(OverflowRun(start, t, mac, n1, n2, bad), 16)
  {
    hide SysNext, Filling, RingOne, Millis, Ring.Issue, LoopStepsOf;
    var r := OverflowRun(start, t, mac, n1, n2, bad);
    Filled(start, t, mac, n1, n2, bad, 14);
    LastIn(r.At(14), start, t, mac, n1);
    assert r.At(15) == SysNext(r.At(14), mac, Tap(true)) && r.At(16) == SysNext(r.At(15), mac, Range(CLOSE_BY));
  }
}
