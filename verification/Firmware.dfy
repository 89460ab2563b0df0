/** The firmware as a whole (firmware/src/main.cpp): BLE callbacks, the UWB and
    NFC tasks and the controller task, interleaved in any order, talking through
    one bounded event queue that drops what it cannot hold. */
module Firmware {
  import opened Clock
  import opened AccessController
  import opened ControllerLoop
  import opened AuthRing
  import AuthRuns
  import opened Uwb

  const EVENT_QUEUE_LEN: nat := 16
  const INVALID_HANDLE: u16 := 0xFFFF

  /** The whole firmware.  `dropped` records whether the queue ever overflowed. */
  datatype Sys = Sys(
    ring: Ring, link: u16, queue: seq<Evt>, dropped: bool, loop: Loop,
    tracker: Tracker, prevZone: Zone, tapped: bool)
  {
    predicate Valid() {
      ring.Valid() && |queue| <= EVENT_QUEUE_LEN
    }

    predicate Connected() {
      link != INVALID_HANDLE
    }

    /** A non-blocking send. */
    function Post(e: Evt): Sys {
      if |queue| < EVENT_QUEUE_LEN then this.(queue := queue + [e]) else this.(dropped := true)
    }

    function PostAll(es: seq<Evt>): Sys
      requires |es| <= 1
    {
      if es == [] then this else Post(es[0])
    }
  }

  /** One atomic step of one task or callback, with the times it reads. */
  datatype SysStep =
    | Connect(handle: u16, t: nat, nonce: Bytes)
    | Disconnect
    | Respond(t: nat, nonce: Bytes, response: Bytes)
    | Range(sample: UwbSample)
    | Tap(authorised: bool)
    | Dequeue(t: nat, appliedMs: nat)
    | Service(t: nat, appliedMs: nat, serviceMs: nat)

  function VerifyAt(s: Sys, mac: Mac, step: SysStep): (r: (Ring, AuthResult))
    requires s.Valid() && step.Respond?
    ensures r.0.Valid()
  {
    s.ring.Verify(mac(step.nonce), s.link, Millis(step.t), step.nonce, step.response)
  }

  /** The step the controller's loop takes, if any. */
  function LoopStepsOf(s: Sys, step: SysStep): (ls: seq<LoopStep>)
    ensures |ls| <= 1
  {
    match step
    case Dequeue(t, a) => if s.queue == [] then [] else [Handle(s.queue[0], t, a)]
    case Service(t, a, v) => [Timers(t, a, v)]
    case _ => []
  }

  function ZoneEvent(z: Zone): (es: seq<Evt>)
    ensures |es| <= 1
  {
    match z
    case Near => [Evt(ZoneNear, 0)]
    case Far => [Evt(ZoneFar, 0)]
    case Medium => []
  }

  /** The event a step sends, if any. */
  function Sends(s: Sys, mac: Mac, step: SysStep): (es: seq<Evt>)
    requires s.Valid()
    ensures |es| <= 1
  {
    match step
    case Connect(h, _, _) => [Evt(BleConnect, h)]
    case Disconnect => [Evt(BleDisconnect, s.link)]
    case Respond(_, _, _) => [Evt(if VerifyAt(s, mac, step).1 == OK then AuthOk else AuthFail, s.link)]
    case Range(sample) =>
      var z := s.tracker.Push(sample).0.zone;
      if z == s.prevZone then [] else ZoneEvent(z)
    case Tap(authorised) =>
      if s.Connected() && !s.tapped then [Evt(if authorised then NfcOk else NfcFail, 0)] else []
    case _ => []
  }

  /** A step's own effect, then its send. */
  function SysNext(s: Sys, mac: Mac, step: SysStep): (s': Sys)
    requires s.Valid()
    ensures s'.Valid()
  {
    Own(s, mac, step).PostAll(Sends(s, mac, step))
  }

  function Own(s: Sys, mac: Mac, step: SysStep): (s': Sys)
    requires s.Valid()
    ensures s'.Valid()
  {
    match step
    case Connect(h, t, nonce) => s.(link := h, ring := s.ring.Issue(h, Millis(t), nonce))
    case Disconnect => s.(link := INVALID_HANDLE)
    case Respond(_, _, _) => s.(ring := VerifyAt(s, mac, step).0)
    case Range(sample) =>
      var tracker := s.tracker.Push(sample).0;
      s.(tracker := tracker, prevZone := tracker.zone)
    case Tap(_) => s.(tapped := s.Connected())
    case Dequeue(t, a) =>
      if s.queue == [] then s
      else s.(queue := s.queue[1..], loop := LoopNext(s.loop, Handle(s.queue[0], t, a)).0)
    case Service(t, a, v) => s.(loop := LoopNext(s.loop, Timers(t, a, v)).0)
  }

  ghost predicate Fresh(s: Sys, bootMs: nat)
    ensures Fresh(s, bootMs) ==> s.Valid()
  {
    && Blank(s.ring) && s.link == INVALID_HANDLE && s.queue == [] && !s.dropped
    && s.loop == LoopBooted(bootMs) && s.prevZone == Far && !s.tapped
    && s.tracker == Tracker(UwbSample(0.0, 0, 0), Far, false, false)
  }

  datatype SysRun = SysRun(bootMs: nat, start: Sys, mac: Mac, steps: seq<SysStep>) {
    ghost predicate Valid() {
      Fresh(start, bootMs)
    }

    function At(k: nat): (s: Sys)
      requires start.Valid() && k <= |steps|
      ensures s.Valid()
    {
      if k == 0 then start else SysNext(At(k - 1), mac, steps[k - 1])
    }

    /** What the controller's loop has done in the first k steps. */
    function Log(k: nat): seq<LoopStep>
      requires start.Valid() && k <= |steps|
    {
      if k == 0 then [] else Log(k - 1) + LoopStepsOf(At(k - 1), steps[k - 1])
    }

    function LoopOf(k: nat): LoopRun
      requires start.Valid() && k <= |steps|
    {
      LoopRun(bootMs, Log(k))
    }

    function TallyAt(k: nat): Tally
      requires start.Valid() && k <= |steps|
    {
      if k == 0 then Tally(0, 0, 0, 0, 0) else TallyAt(k - 1).Count(At(k - 1), mac, steps[k - 1])
    }

    /** The BLE stack connects only when disconnected and the other way round, and
        never hands out the reserved handle. */
    ghost predicate LinksAlternate()
      requires start.Valid()
    {
      forall k :: 0 <= k < |steps| ==>
        && (steps[k].Connect? ==> !At(k).Connected() && steps[k].handle != INVALID_HANDLE)
        && (steps[k].Disconnect? ==> At(k).Connected())
    }
  }

  // ---------------------------------------------------------------------------
  // Conservation

  /** What an observer of the run counts: BLE connects, moves of the ring's
      cursor, accepted responses, AUTH_OK events handled and unlocks answered. */
  datatype Tally = Tally(connects: nat, challenges: nat, oks: nat, authOks: nat, unlocks: nat) {
    function Count(s: Sys, mac: Mac, step: SysStep): Tally
      requires s.Valid()
    {
      var ls := LoopStepsOf(s, step);
      Tally(connects + One(step.Connect?),
            challenges + One(SysNext(s, mac, step).ring.nextSlot != s.ring.nextSlot),
            oks + One(step.Respond? && VerifyAt(s, mac, step).1 == OK),
            authOks + One(step.Dequeue? && s.queue != [] && s.queue[0].kind == AuthOk),
            unlocks + One(ls != [] && LoopNext(s.loop, ls[0]).1 == PulseUnlock))
    }
  }

  function One(b: bool): nat {
    if b then 1 else 0
  }

  function AuthOks(queue: seq<Evt>): nat {
    if queue == [] then 0 else One(queue[0].kind == AuthOk) + AuthOks(queue[1..])
  }

  lemma {:induction false} AuthOksAppend(queue: seq<Evt>, e: Evt)
    ensures AuthOks(queue + [e]) == AuthOks(queue) + One(e.kind == AuthOk)
  {
    if queue == [] {
      assert queue + [e] == [e];
    } else {
      assert (queue + [e])[1..] == queue[1..] + [e];
      AuthOksAppend(queue[1..], e);
    }
  }

  ghost predicate Conserved(s: Sys, y: Tally) {
    && s.Valid()
    && y.unlocks <= y.authOks
    && y.authOks + AuthOks(s.queue) <= y.oks
    && y.oks + CountActive(s.ring.pool) <= y.challenges
    && y.challenges == y.connects
  }

  lemma UnlockNeedsAuthOk(s: Loop, step: LoopStep)
    ensures LoopNext(s, step).1 == PulseUnlock ==> step.Handle? && step.evt.kind == AuthOk
  {}

  lemma StepRing(s: Sys, mac: Mac, step: SysStep)
    requires s.Valid()
    ensures var ring := SysNext(s, mac, step).ring;
      && CountActive(ring.pool) + One(step.Respond? && VerifyAt(s, mac, step).1 == OK)
           <= CountActive(s.ring.pool) + One(step.Connect?)
      && (ring.nextSlot != s.ring.nextSlot <==> step.Connect?)
  {
    hide LoopNext, CountActive, Tracker.Push;
    match step
    case Connect(h, t, nonce) => AuthRuns.StepCounts(s.ring, mac, Issue(h, t, nonce));
    case Respond(t, nonce, response) => AuthRuns.StepCounts(s.ring, mac, Verify(s.link, t, nonce, response));
    case _ =>
  }

  /** The queue after a step: its head gone if one was dequeued, and what the step
      sends at its end if there was room. */
  lemma StepQueue(s: Sys, mac: Mac, step: SysStep)
    requires s.Valid()
    ensures var q := SysNext(s, mac, step).queue;
      if step.Dequeue? then q == if s.queue == [] then [] else s.queue[1..]
      else q == s.queue + if |s.queue| < EVENT_QUEUE_LEN then Sends(s, mac, step) else []
    ensures step.Dequeue? ==> Sends(s, mac, step) == []
  {
    hide LoopNext, VerifyAt, Tracker.Push, ZoneEvent;
    var es := Sends(s, mac, step);
    assert s.queue + [] == s.queue;
    if es != [] {
      assert es == [es[0]];
    }
  }

  lemma SendsAuthOk(s: Sys, mac: Mac, step: SysStep)
    requires s.Valid()
    ensures AuthOks(Sends(s, mac, step)) == One(step.Respond? && VerifyAt(s, mac, step).1 == OK)
  {
    hide VerifyAt, Tracker.Push;
  }

  lemma StepConserves(s: Sys, y: Tally, mac: Mac, step: SysStep)
    requires Conserved(s, y)
    ensures Conserved(SysNext(s, mac, step), y.Count(s, mac, step))
  {
    hide LoopNext, CountActive, VerifyAt, SysNext, Sends;
    StepRing(s, mac, step);
    StepQueue(s, mac, step);
    SendsAuthOk(s, mac, step);
    var es := Sends(s, mac, step);
    if es != [] {
      assert es == [es[0]] && AuthOks([es[0]]) == One(es[0].kind == AuthOk);
      AuthOksAppend(s.queue, es[0]);
    }
    assert s.queue + [] == s.queue;
    var ls := LoopStepsOf(s, step);
    if ls != [] {
      UnlockNeedsAuthOk(s.loop, ls[0]);
    }
  }

  lemma FreshConserves(s: Sys, bootMs: nat)
    requires Fresh(s, bootMs)
    ensures Conserved(s, Tally(0, 0, 0, 0, 0))
  {
    AuthRuns.NoneActive(s.ring.pool);
  }

  lemma ConservedMeans(s: Sys, y: Tally)
    requires Conserved(s, y)
    ensures y.unlocks <= y.authOks <= y.oks <= y.challenges == y.connects
  {}

  /** Unlock conservation: in every interleaving, whatever the queue drops, unlocks
      are at most the AUTH_OK events handled, these at most the accepted
      responses, these at most the challenges issued, one for each connection. */
  lemma {:induction false} UnlocksConserved(r: SysRun, k: nat)
    requires r.Valid() && k <= |r.steps|
    ensures Conserved(r.At(k), r.TallyAt(k))
    ensures var y := r.TallyAt(k); y.unlocks <= y.authOks <= y.oks <= y.challenges == y.connects
  {
    hide SysNext, Tally.Count, Conserved, Fresh;
    if k == 0 {
      FreshConserves(r.start, r.bootMs);
    } else {
      UnlocksConserved(r, k - 1);
      StepConserves(r.At(k - 1), r.TallyAt(k - 1), r.mac, r.steps[k - 1]);
    }
    ConservedMeans(r.At(k), r.TallyAt(k));
  }
}
