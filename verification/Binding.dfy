/** End-to-end binding: the response that unlocks was verified on the very
    connection that opened the attempt, exactly when the queue lost no disconnect
    between the two. */
module Binding {
  import opened Clock
  import opened AccessController
  import opened AccessRuns
  import opened AccessTimes
  import opened ControllerLoop
  import opened AuthRing
  import opened Uwb
  import opened Firmware

  /** The connection the last of these events leaves open, if any. */
  function LinkAfter(evts: seq<Evt>): Option<u16> {
    if evts == [] then None
    else
      var e := evts[|evts| - 1];
      if e.kind == BleConnect then Some(e.handle)
      else if e.kind == BleDisconnect then None
      else LinkAfter(evts[..|evts| - 1])
  }

  function HandledBy(step: LoopStep): seq<Evt> {
    if step.Handle? then [step.evt] else []
  }

  /** The events the controller has handled, in order. */
  function Handled(log: seq<LoopStep>): seq<Evt> {
    if log == [] then [] else Handled(log[..|log| - 1]) + HandledBy(log[|log| - 1])
  }

  function LinkOf(s: Sys): Option<u16> {
    if s.Connected() then Some(s.link) else None
  }

  ghost predicate EventBound(sent: seq<Evt>, i: nat)
    requires i < |sent|
  {
    && (sent[i].kind == AuthOk ==> LinkAfter(sent[..i]) == Some(sent[i].handle))
    && (sent[i].kind == BleConnect ==> LinkAfter(sent[..i]) == None)
  }

  /** Every AUTH_OK in the stream carries the handle of the connection open at
      that point of the stream, and connects follow disconnects. */
  ghost predicate Bound(sent: seq<Evt>) {
    forall i :: 0 <= i < |sent| ==> EventBound(sent, i)
  }

  lemma BoundAppend(sent: seq<Evt>, e: Evt)
    requires Bound(sent)
    requires e.kind == AuthOk ==> LinkAfter(sent) == Some(e.handle)
    requires e.kind == BleConnect ==> LinkAfter(sent) == None
    ensures Bound(sent + [e])
    ensures LinkAfter(sent + [e]) ==
              if e.kind == BleConnect then Some(e.handle)
              else if e.kind == BleDisconnect then None else LinkAfter(sent)
  {
    var all := sent + [e];
    assert all[..|sent|] == sent;
    hide LinkAfter;
    forall i | 0 <= i < |all|
      ensures EventBound(all, i)
    {
      if i < |sent| {
        assert EventBound(sent, i) && all[..i] == sent[..i];
      }
    }
  }

  ghost predicate HandlesReal(ring: Ring) {
    forall s :: 0 <= s < |ring.pool| && ring.pool[s].valid ==> ring.pool[s].handle != INVALID_HANDLE
  }

  /** What every reachable state keeps until the queue overflows: `sent` is
      everything posted so far, handled or still queued. */
  ghost predicate Tied(s: Sys, log: seq<LoopStep>) {
    && s.Valid()
    && HandlesReal(s.ring)
    && (!s.dropped ==> Bound(Handled(log) + s.queue) && LinkAfter(Handled(log) + s.queue) == LinkOf(s))
  }

  lemma IssueKeepsHandles(ring: Ring, h: u16, now: u32, nonce: Bytes)
    requires ring.Valid() && HandlesReal(ring) && h != INVALID_HANDLE
    ensures HandlesReal(ring.Issue(h, now, nonce))
  {}

  /** An accepted response came over a real connection: the one its challenge was
      issued on. */
  lemma OkMeansConnected(ring: Ring, mac: Bytes, h: u16, now: u32, nonce: Bytes, response: Bytes)
    requires ring.Valid() && HandlesReal(ring)
    ensures HandlesReal(ring.Verify(mac, h, now, nonce, response).0)
    ensures ring.Verify(mac, h, now, nonce, response).1 == OK ==> h != INVALID_HANDLE
  {
    VerifyChanges(ring, mac, h, now, nonce, response);
    hide Ring.Verify, FindFrom;
  }

  lemma HandledAppend(log: seq<LoopStep>, step: LoopStep)
    ensures Handled(log + [step]) == Handled(log) + HandledBy(step)
  {
    assert (log + [step])[..|log|] == log;
  }

  lemma DequeueTied(s: Sys, log: seq<LoopStep>, step: LoopStep)
    requires step.Handle? && s.queue != [] && step.evt == s.queue[0]
    ensures Handled(log + [step]) + s.queue[1..] == Handled(log) + s.queue
  {
    hide Handled;
    HandledAppend(log, step);
    assert s.queue == [s.queue[0]] + s.queue[1..];
  }

  /** What a step sends, and the connection it leaves. */
  lemma StepLink(s: Sys, mac: Mac, step: SysStep)
    requires s.Valid() && HandlesReal(s.ring)
    requires step.Connect? ==> step.handle != INVALID_HANDLE
    ensures var s', es := SysNext(s, mac, step), Sends(s, mac, step);
      && HandlesReal(s'.ring)
      && LinkOf(s') == (if step.Connect? then Some(step.handle) else if step.Disconnect? then None else LinkOf(s))
      && (step.Connect? ==> es == [Evt(BleConnect, step.handle)])
      && (step.Disconnect? ==> es == [Evt(BleDisconnect, s.link)])
      && (!step.Connect? && !step.Disconnect? ==>
            forall e :: e in es ==> e.kind != BleConnect && e.kind != BleDisconnect)
      && (forall e :: e in es && e.kind == AuthOk ==> step.Respond? && LinkOf(s) == Some(e.handle))
  {
    hide LoopNext, HandlesReal, Tracker.Push;
    match step
    case Connect(h, t, nonce) => IssueKeepsHandles(s.ring, h, Millis(t), nonce);
    case Respond(t, nonce, response) => OkMeansConnected(s.ring, mac(nonce), s.link, Millis(t), nonce, response);
    case _ =>
  }

  /** Everything sent up to a step, and how it goes on. */
  lemma StepStream(s: Sys, log: seq<LoopStep>, mac: Mac, step: SysStep)
    requires s.Valid()
    ensures Handled(log + LoopStepsOf(s, step)) + SysNext(s, mac, step).queue
         == Handled(log) + s.queue + if |s.queue| < EVENT_QUEUE_LEN then Sends(s, mac, step) else []
  {
    hide SysNext, Sends, Handled;
    StepQueue(s, mac, step);
    var ls, es := LoopStepsOf(s, step), if |s.queue| < EVENT_QUEUE_LEN then Sends(s, mac, step) else [];
    if step.Dequeue? {
      Nothing(log, Handled(log) + s.queue);
      if s.queue != [] {
        DequeueTied(s, log, ls[0]);
      }
    } else {
      Nothing(log, Handled(log));
      if step.Service? {
        HandledAppend(log, ls[0]);
      }
      Regroup(Handled(log), s.queue, es);
    }
  }

  lemma Nothing(log: seq<LoopStep>, es: seq<Evt>)
    ensures log + [] == log && es + [] == es
  {}

  lemma Regroup(a: seq<Evt>, b: seq<Evt>, c: seq<Evt>)
    ensures a + (b + c) == a + b + c
  {}

  lemma StepTied(s: Sys, log: seq<LoopStep>, mac: Mac, step: SysStep)
    requires Tied(s, log)
    requires step.Connect? ==> !s.Connected() && step.handle != INVALID_HANDLE
    ensures Tied(SysNext(s, mac, step), log + LoopStepsOf(s, step))
  {
    hide SysNext, Sends, Bound, LinkAfter, HandlesReal, LoopStepsOf, Handled;
    var sent, es := Handled(log) + s.queue, Sends(s, mac, step);
    StepLink(s, mac, step);
    StepStream(s, log, mac, step);
    StepDrops(s, mac, step);
    assert sent + [] == sent;
    if es != [] && !s.dropped {
      assert es == [es[0]];
      BoundAppend(sent, es[0]);
    }
  }

  lemma StepDrops(s: Sys, mac: Mac, step: SysStep)
    requires s.Valid()
    ensures SysNext(s, mac, step).dropped <==>
              s.dropped || (|s.queue| == EVENT_QUEUE_LEN && Sends(s, mac, step) != [])
  {
    hide LoopNext, Tracker.Push, VerifyAt;
  }

  lemma FreshTied(s: Sys, bootMs: nat)
    requires Fresh(s, bootMs)
    ensures Tied(s, [])
  {}

  lemma {:induction false} AlwaysTied(r: SysRun, k: nat)
    requires r.Valid() && k <= |r.steps| && r.LinksAlternate()
    ensures Tied(r.At(k), r.Log(k))
  {
    hide SysNext, Tied, Fresh, LoopStepsOf, Sys.Connected;
    if k == 0 {
      FreshTied(r.start, r.bootMs);
    } else {
      AlwaysTied(r, k - 1);
      StepTied(r.At(k - 1), r.Log(k - 1), r.mac, r.steps[k - 1]);
    }
  }

  /** The connection open, as the controller has seen it, before log entry u. */
  function LinkBefore(log: seq<LoopStep>, u: nat): Option<u16>
    requires u <= |log|
  {
    LinkAfter(Handled(log[..u]))
  }

  lemma {:induction false} HandledPrefix(log: seq<LoopStep>, u: nat)
    requires u <= |log|
    ensures Handled(log[..u]) <= Handled(log)
  {
    if u == |log| {
      assert log[..u] == log;
    } else {
      HandledPrefix(log[..|log| - 1], u);
      assert log[..|log| - 1][..u] == log[..u];
    }
  }

  lemma HandledNext(log: seq<LoopStep>, u: nat)
    requires u < |log|
    ensures Handled(log[..u + 1]) == Handled(log[..u]) + HandledBy(log[u])
  {
    assert log[..u + 1][..u] == log[..u];
  }

  lemma LinkStep(log: seq<LoopStep>, u: nat)
    requires u < |log|
    ensures LinkBefore(log, u + 1) ==
              if log[u].Handle? && log[u].evt.kind == BleConnect then Some(log[u].evt.handle)
              else if log[u].Handle? && log[u].evt.kind == BleDisconnect then None
              else LinkBefore(log, u)
  {
    HandledNext(log, u);
    hide Handled;
    var before := Handled(log[..u]);
    if log[u].Handle? {
      assert (before + [log[u].evt])[..|before|] == before;
    } else {
      assert before + [] == before;
    }
  }

  /** From a connect on, until the next connect or disconnect handled, its link
      stays the open one. */
  lemma {:induction false} LinkStays(log: seq<LoopStep>, c: nat, u: nat)
    requires c < u <= |log| && log[c].Handle? && log[c].evt.kind == BleConnect
    requires forall i :: c < i < u && log[i].Handle? ==> log[i].evt.kind !in {BleConnect, BleDisconnect}
    ensures LinkBefore(log, u) == Some(log[c].evt.handle)
  {
    hide LinkBefore;
    LinkStep(log, u - 1);
    if c + 1 < u {
      LinkStays(log, c, u - 1);
    }
  }

  // ---------------------------------------------------------------------------
  // The steps behind the events

  /** An event that reached the queue, and the step that sent it. */
  datatype Posted = Posted(step: nat, evt: Evt)

  function Stamped(k: nat, es: seq<Evt>): seq<Posted>
    requires |es| <= 1
  {
    if es == [] then [] else [Posted(k, es[0])]
  }

  function SendsAt(r: SysRun, j: nat): (es: seq<Evt>)
    requires r.start.Valid() && j < |r.steps|
    ensures |es| <= 1
  {
    Sends(r.At(j), r.mac, r.steps[j])
  }

  predicate RoomAt(r: SysRun, j: nat)
    requires r.start.Valid() && j < |r.steps|
  {
    |r.At(j).queue| < EVENT_QUEUE_LEN
  }

  /** What reached the queue in the first k steps. */
  function Stream(r: SysRun, k: nat): seq<Posted>
    requires r.start.Valid() && k <= |r.steps|
  {
    if k == 0 then []
    else Stream(r, k - 1) + if RoomAt(r, k - 1) then Stamped(k - 1, SendsAt(r, k - 1)) else []
  }

  function Evts(ps: seq<Posted>): (es: seq<Evt>)
    ensures |es| == |ps|
    ensures forall i :: 0 <= i < |ps| ==> es[i] == ps[i].evt
  {
    seq(|ps|, i requires 0 <= i < |ps| => ps[i].evt)
  }

  lemma EvtsAppend(ps: seq<Posted>, k: nat, es: seq<Evt>)
    requires |es| <= 1
    ensures Evts(ps + Stamped(k, es)) == Evts(ps) + es
    ensures Evts(ps + []) == Evts(ps) + []
  {}

  /** It is what the controller has handled and what is still queued. */
  lemma {:induction false} StreamIs(r: SysRun, k: nat)
    requires r.Valid() && k <= |r.steps|
    ensures Evts(Stream(r, k)) == Handled(r.Log(k)) + r.At(k).queue
  {
    hide SysNext, Sends, Evts, Handled, LoopStepsOf, Fresh, Stamped;
    if k == 0 {
      FreshStream(r.start, r.bootMs);
    } else {
      StreamIs(r, k - 1);
      EvtsAppend(Stream(r, k - 1), k - 1, SendsAt(r, k - 1));
      StepStream(r.At(k - 1), r.Log(k - 1), r.mac, r.steps[k - 1]);
    }
  }

  lemma FreshStream(s: Sys, bootMs: nat)
    requires Fresh(s, bootMs)
    ensures Evts([]) == Handled([]) + s.queue
  {}

  lemma {:induction false} StreamSent(r: SysRun, k: nat, p: nat)
    requires r.start.Valid() && k <= |r.steps| && p < |Stream(r, k)|
    ensures var x := Stream(r, k)[p];
      x.step < k && RoomAt(r, x.step) && SendsAt(r, x.step) == [x.evt]
  {
    hide SendsAt, RoomAt;
    if p < |Stream(r, k - 1)| {
      StreamSent(r, k - 1, p);
    }
  }

  lemma {:induction false} StreamInOrder(r: SysRun, k: nat, p: nat, q: nat)
    requires r.start.Valid() && k <= |r.steps| && p < q < |Stream(r, k)|
    ensures Stream(r, k)[p].step < Stream(r, k)[q].step
  {
    hide SendsAt, RoomAt;
    if q < |Stream(r, k - 1)| {
      StreamInOrder(r, k - 1, p, q);
    } else {
      StreamSent(r, k - 1, p);
    }
  }

  lemma {:induction false} StreamHas(r: SysRun, k: nat, j: nat) returns (p: nat)
    requires r.start.Valid() && j < k <= |r.steps| && RoomAt(r, j) && SendsAt(r, j) != []
    ensures p < |Stream(r, k)| && Stream(r, k)[p].step == j
  {
    hide SendsAt, RoomAt;
    if j == k - 1 {
      p := |Stream(r, k - 1)|;
    } else {
      p := StreamHas(r, k - 1, j);
    }
  }

  /** How many events the controller handled before log entry i. */
  function PlaceOf(log: seq<LoopStep>, i: nat): nat
    requires i <= |log|
  {
    |Handled(log[..i])|
  }

  lemma PlaceHolds(log: seq<LoopStep>, i: nat)
    requires i < |log| && log[i].Handle?
    ensures PlaceOf(log, i) < |Handled(log)| && Handled(log)[PlaceOf(log, i)] == log[i].evt
  {
    HandledPrefix(log, i + 1);
    HandledNext(log, i);
    hide Handled;
  }

  lemma {:induction false} PlacesInOrder(log: seq<LoopStep>, i: nat, j: nat)
    requires i < j <= |log|
    ensures PlaceOf(log, i) + |HandledBy(log[i])| <= PlaceOf(log, j)
  {
    HandledNext(log, j - 1);
    hide Handled;
    if i < j - 1 {
      PlacesInOrder(log, i, j - 1);
    }
  }

  lemma {:induction false} EntryAt(log: seq<LoopStep>, p: nat) returns (i: nat)
    requires p < |Handled(log)|
    ensures i < |log| && log[i].Handle? && PlaceOf(log, i) == p
  {
    var n := |log| - 1;
    if p < |Handled(log[..n])| {
      i := EntryAt(log[..n], p);
      assert log[..n][..i] == log[..i];
    } else {
      i := n;
    }
  }

  /** The step that sent the event of log entry i. */
  ghost predicate SentBy(r: SysRun, k: nat, i: nat, j: nat)
    requires r.start.Valid() && k <= |r.steps|
  {
    && i < |r.Log(k)| && r.Log(k)[i].Handle?
    && PlaceOf(r.Log(k), i) < |Stream(r, k)|
    && j == Stream(r, k)[PlaceOf(r.Log(k), i)].step
  }

  lemma SenderOf(r: SysRun, k: nat, i: nat) returns (j: nat)
    requires r.Valid() && k <= |r.steps| && i < |r.Log(k)| && r.Log(k)[i].Handle?
    ensures SentBy(r, k, i, j)
    ensures j < k && RoomAt(r, j) && SendsAt(r, j) == [r.Log(k)[i].evt]
  {
    hide SysNext, SendsAt, RoomAt, Stream, Evts, Handled, PlaceOf, Fresh;
    var p := PlaceOf(r.Log(k), i);
    PlaceHolds(r.Log(k), i);
    StreamIs(r, k);
    StreamSent(r, k, p);
    j := Stream(r, k)[p].step;
  }

  lemma SendersInOrder(r: SysRun, k: nat, a: nat, b: nat, ja: nat, jb: nat)
    requires r.Valid() && k <= |r.steps| && a < b && SentBy(r, k, a, ja) && SentBy(r, k, b, jb)
    ensures ja < jb
  {
    hide SysNext, SendsAt, RoomAt, Stream, Handled, Fresh, PlaceOf;
    PlacesInOrder(r.Log(k), a, b);
    StreamInOrder(r, k, PlaceOf(r.Log(k), a), PlaceOf(r.Log(k), b));
  }

  /** A step that got its event into the queue between the senders of two log
      entries has it handled between them. */
  lemma HandledBetween(r: SysRun, k: nat, a: nat, b: nat, ja: nat, jb: nat, j: nat) returns (i: nat)
    requires r.Valid() && k <= |r.steps| && a < b && SentBy(r, k, a, ja) && SentBy(r, k, b, jb)
    requires ja < j < jb < k && RoomAt(r, j) && SendsAt(r, j) != []
    ensures a < i < b && i < |r.Log(k)| && r.Log(k)[i].Handle? && SendsAt(r, j) == [r.Log(k)[i].evt]
  {
    hide SysNext, SendsAt, RoomAt, Stream, Evts, Handled, Fresh, PlaceOf;
    var log := r.Log(k);
    var p := StreamHas(r, k, j);
    var pa, pb := PlaceOf(log, a), PlaceOf(log, b);
    if p < pa { StreamInOrder(r, k, p, pa); }
    if pb < p { StreamInOrder(r, k, pb, p); }
    PlaceHolds(log, b);
    i := EntryAt(log, p);
    if i < a { PlacesInOrder(log, i, a); }
    if b < i { PlacesInOrder(log, b, i); }
    PlaceHolds(log, i);
    StreamIs(r, k);
    StreamSent(r, k, p);
  }

  /** The controller of the whole run is the one whose loop logged these steps. */
  lemma {:induction false} LoopPrefix(l: LoopRun, step: LoopStep, k: nat)
    requires k <= |l.steps|
    ensures LoopRun(l.bootMs, l.steps + [step]).At(k) == l.At(k)
  {
    hide LoopNext;
    if k > 0 {
      LoopPrefix(l, step, k - 1);
    }
  }

  lemma StepLoop(s: Sys, mac: Mac, step: SysStep)
    requires s.Valid()
    ensures var ls := LoopStepsOf(s, step);
      SysNext(s, mac, step).loop == if ls == [] then s.loop else LoopNext(s.loop, ls[0]).0
  {
    hide LoopNext;
  }

  lemma {:induction false} LogIsLoop(r: SysRun, k: nat)
    requires r.Valid() && k <= |r.steps|
    ensures r.LoopOf(k).At(|r.Log(k)|) == r.At(k).loop
  {
    hide LoopNext, SysNext, Fresh, LoopStepsOf;
    if k == 0 {
      FreshLoop(r.start, r.bootMs);
    } else {
      var s, step, log := r.At(k - 1), r.steps[k - 1], r.Log(k - 1);
      LogIsLoop(r, k - 1);
      StepLoop(s, r.mac, step);
      var ls := LoopStepsOf(s, step);
      if ls == [] {
        assert log + ls == log;
      } else {
        assert ls == [ls[0]];
        LoopPrefix(r.LoopOf(k - 1), ls[0], |log|);
      }
    }
  }

  lemma FreshLoop(s: Sys, bootMs: nat)
    requires Fresh(s, bootMs)
    ensures s.loop == LoopBooted(bootMs)
  {}

  /** The history of an unlock, as the loop that ran the controller sees it. */
  lemma LoopUnlockHistory(l: LoopRun, u: nat) returns (c: nat, n: nat, w: nat)
    requires u < |l.steps| && l.ActionAt(u) == PulseUnlock
    ensures c < n < w < u && l.Controller().UnlockHistory(c, n, w, u, true)
    ensures Delivered(l.steps, c, BleConnect) && Delivered(l.steps, n, NfcOk)
    ensures Delivered(l.steps, w, ZoneNear) && Delivered(l.steps, u, AuthOk)
    ensures forall i :: c < i < u && l.steps[i].Handle? ==> l.steps[i].evt.kind != BleDisconnect
  {
    hide LoopNext, Step, Run.UnlockHistory, Run.At, LoopRun.At, Run.Ordered, PenaltiesRead, Run.MutedAt, Clean;
    var r := l.Controller();
    LoopIsRun(l, u);
    c, n, w := UnlockTraceSafety(r, u);
    DeliveredIs(l, c);
    DeliveredIs(l, n);
    DeliveredIs(l, w);
    DeliveredIs(l, u);
    forall i | c < i < u
      ensures l.steps[i].Handle? ==> l.steps[i].evt.kind != BleDisconnect
    {
      DeliveredIs(l, i);
      assert !r.Is(i, BleDisconnect);
    }
  }

  predicate Delivered(log: seq<LoopStep>, i: nat, ev: AccessEvent) {
    i < |log| && log[i].Handle? && log[i].evt.kind == ev
  }

  lemma DeliveredIs(l: LoopRun, i: nat)
    requires i < |l.steps|
    ensures forall ev :: Delivered(l.steps, i, ev) <==> l.Controller().Is(i, ev)
  {}

  // ---------------------------------------------------------------------------
  // One connection

  /** The connection opened by step a is not closed before step b. */
  ghost predicate StaysOpen(r: SysRun, a: nat, b: nat) {
    forall j :: a < j < b && j < |r.steps| ==> !r.steps[j].Disconnect?
  }

  /** The queue has room for every disconnect between steps a and b. */
  ghost predicate NoDisconnectLost(r: SysRun, a: nat, b: nat)
    requires r.start.Valid()
  {
    forall j :: a < j < b && j < |r.steps| && r.steps[j].Disconnect? ==> RoomAt(r, j)
  }

  /** The invariant of every run: handles in the ring are real. */
  lemma {:induction false} HandlesAlwaysReal(r: SysRun, k: nat)
    requires r.Valid() && k <= |r.steps| && r.LinksAlternate()
    ensures HandlesReal(r.At(k).ring)
  {
    hide SysNext, Fresh, HandlesReal, Sends, Sys.Connected;
    if k == 0 {
      FreshTied(r.start, r.bootMs);
    } else {
      HandlesAlwaysReal(r, k - 1);
      StepLink(r.At(k - 1), r.mac, r.steps[k - 1]);
    }
  }

  lemma {:induction false} LinkWhileOpen(r: SysRun, a: nat, b: nat)
    requires r.Valid() && r.LinksAlternate() && a < b <= |r.steps| && r.steps[a].Connect? && StaysOpen(r, a, b)
    ensures LinkOf(r.At(b)) == Some(r.steps[a].handle)
    ensures b < |r.steps| ==> !r.steps[b].Connect?
  {
    hide SysNext, Fresh, HandlesReal, Sends;
    HandlesAlwaysReal(r, b - 1);
    StepLink(r.At(b - 1), r.mac, r.steps[b - 1]);
    if a < b - 1 {
      LinkWhileOpen(r, a, b - 1);
    }
  }

  lemma OpenUntil(r: SysRun, a: nat, m: nat, b: nat)
    requires StaysOpen(r, a, b) && m <= b
    ensures StaysOpen(r, a, m)
  {}

  /** The steps behind an unlock: the connect, the tap, the near reading, the response. */
  datatype Senders = Senders(connect: nat, tap: nat, near: nat, answer: nat)

  /** End-to-end binding, exactly.  In every interleaving, at any times and
      whatever the queue drops, behind an unlock stand a connect, a tap, a near
      reading and a verified response in this order, and the steps that sent them:
      one opened a connection, one tapped an authorised tag while a link was up, one
      read a plausible distance below 30 cm, and one accepted the response on its own
      connection.  Connect and response are one connection, never closed between, if
      and only if no disconnect was lost between them; and then the tap was made on
      it too and the controller saw it open all along. */
  lemma UnlockBoundToConnection(r: SysRun, k: nat, u: nat)
    returns (c: nat, n: nat, w: nat, sent: Senders)
    requires r.Valid() && k <= |r.steps| && r.LinksAlternate()
    requires u < |r.Log(k)| && r.LoopOf(k).ActionAt(u) == PulseUnlock
    ensures c < n < w < u && r.LoopOf(k).Controller().UnlockHistory(c, n, w, u, true)
    ensures var log := r.Log(k);
      && Delivered(log, c, BleConnect) && Delivered(log, n, NfcOk)
      && Delivered(log, w, ZoneNear) && Delivered(log, u, AuthOk)
    ensures sent.connect < sent.tap < sent.near < sent.answer < k
    ensures r.steps[sent.connect].Connect? && r.steps[sent.connect].handle == r.Log(k)[c].evt.handle
    ensures r.steps[sent.tap] == Tap(true) && r.At(sent.tap).Connected()
    ensures r.steps[sent.near].Range? && NearReading(r.At(sent.near).tracker, r.steps[sent.near].sample)
    ensures r.steps[sent.answer].Respond? && VerifyAt(r.At(sent.answer), r.mac, r.steps[sent.answer]).1 == OK
    ensures r.At(sent.answer).link == r.Log(k)[u].evt.handle
    ensures StaysOpen(r, sent.connect, sent.answer) <==> NoDisconnectLost(r, sent.connect, sent.answer)
    ensures StaysOpen(r, sent.connect, sent.answer) ==>
              && r.Log(k)[u].evt.handle == r.Log(k)[c].evt.handle == r.At(sent.tap).link
              && forall i :: c < i <= u ==> LinkBefore(r.Log(k), i) == Some(r.Log(k)[c].evt.handle)
  {
    hide SysNext, LoopNext, LoopStepsOf, LinkBefore, Fresh, LoopRun.ActionAt, Run.UnlockHistory, SendsAt, RoomAt, SentBy;
    hide SysRun.LinksAlternate, StaysOpen, NoDisconnectLost, VerifyAt;
    c, n, w := LoopUnlockHistory(r.LoopOf(k), u);
    var jc := SenderOf(r, k, c);
    var jn := SenderOf(r, k, n);
    var jw := SenderOf(r, k, w);
    var ju := SenderOf(r, k, u);
    sent := Senders(jc, jn, jw, ju);
    SendersInOrder(r, k, c, n, jc, jn);
    SendersInOrder(r, k, n, w, jn, jw);
    SendersInOrder(r, k, w, u, jw, ju);
    SendersInOrder(r, k, c, u, jc, ju);
    ConnectSender(r, jc);
    TapSender(r, jn);
    ZoneSender(r, jw);
    AuthOkSender(r, ju);
    OpenIffNoneLost(r, k, c, u, jc, ju);
    if StaysOpen(r, jc, ju) {
      LinkWhileOpen(r, jc, ju);
      OpenUntil(r, jc, jn, ju);
      LinkWhileOpen(r, jc, jn);
      forall i | c < i <= u
        ensures LinkBefore(r.Log(k), i) == Some(r.Log(k)[c].evt.handle)
      {
        SeenOpen(r, k, r.Log(k), c, u, jc, ju, i);
      }
    }
  }

  lemma ConnectSender(r: SysRun, j: nat)
    requires r.Valid() && j < |r.steps| && r.LinksAlternate()
    ensures forall e :: SendsAt(r, j) == [e] && e.kind == BleConnect ==>
              r.steps[j].Connect? && r.steps[j].handle == e.handle
    ensures forall e :: SendsAt(r, j) == [e] && e.kind == BleDisconnect ==> r.steps[j].Disconnect?
    ensures r.steps[j].Disconnect? ==> |SendsAt(r, j)| == 1 && SendsAt(r, j)[0].kind == BleDisconnect
  {
    hide SysNext, HandlesReal, Fresh, Sends;
    HandlesAlwaysReal(r, j);
    StepLink(r.At(j), r.mac, r.steps[j]);
  }

  lemma AuthOkSender(r: SysRun, j: nat)
    requires r.start.Valid() && j < |r.steps|
    ensures forall e :: SendsAt(r, j) == [e] && e.kind == AuthOk ==>
              && r.steps[j].Respond? && VerifyAt(r.At(j), r.mac, r.steps[j]).1 == OK
              && e.handle == r.At(j).link
  {
    hide SysNext, VerifyAt, Tracker.Push;
  }

  /** Tap events are what the NFC task saw while the link was up. */
  lemma TapSender(r: SysRun, j: nat)
    requires r.start.Valid() && j < |r.steps|
    ensures forall e :: SendsAt(r, j) == [e] && e.kind == NfcOk ==>
              r.steps[j] == Tap(true) && r.At(j).Connected() && !r.At(j).tapped
    ensures forall e :: SendsAt(r, j) == [e] && e.kind == NfcFail ==>
              r.steps[j] == Tap(false) && r.At(j).Connected() && !r.At(j).tapped
  {
    hide SysNext, VerifyAt, Tracker.Push;
  }

  /** Zone events are what the UWB task's filter has just changed to. */
  lemma ZoneSender(r: SysRun, j: nat)
    requires r.start.Valid() && j < |r.steps|
    ensures forall e :: SendsAt(r, j) == [e] && e.kind == ZoneNear ==>
              && r.steps[j].Range? && r.At(j).prevZone != Near
              && NearReading(r.At(j).tracker, r.steps[j].sample) && r.At(j + 1).tracker.zone == Near
    ensures forall e :: SendsAt(r, j) == [e] && e.kind == ZoneFar ==>
              r.steps[j].Range? && r.At(j).prevZone != Far && r.At(j + 1).tracker.zone == Far
  {
    hide VerifyAt, LoopNext, Tracker.Implausible;
  }

  /** A sample closer than 30 cm, plausible, to a filter that suspects nothing. */
  predicate NearReading(t: Tracker, sample: UwbSample) {
    !t.relaySuspected && !t.Implausible(sample) && sample.distanceCm < 30.0
  }

  lemma OpenIffNoneLost(r: SysRun, k: nat, c: nat, u: nat, jc: nat, ju: nat)
    requires r.Valid() && k <= |r.steps| && r.LinksAlternate() && c < u
    requires SentBy(r, k, c, jc) && SentBy(r, k, u, ju) && ju < k
    requires u < |r.Log(k)|
    requires forall i :: c < i < u && r.Log(k)[i].Handle? ==> r.Log(k)[i].evt.kind != BleDisconnect
    ensures StaysOpen(r, jc, ju) <==> NoDisconnectLost(r, jc, ju)
  {
    hide SysNext, SendsAt, RoomAt, SentBy, Fresh, SysRun.LinksAlternate;
    if NoDisconnectLost(r, jc, ju) {
      forall j | jc < j < ju
        ensures !r.steps[j].Disconnect?
      {
        ConnectSender(r, j);
        if r.steps[j].Disconnect? {
          var i := HandledBetween(r, k, c, u, jc, ju, j);
        }
      }
    }
  }

  lemma SeenOpen(r: SysRun, k: nat, log: seq<LoopStep>, c: nat, u: nat, jc: nat, ju: nat, i: nat)
    requires r.Valid() && k <= |r.steps| && r.LinksAlternate() && log == r.Log(k)
    requires c < i <= u < |log| && jc < ju < |r.steps|
    requires SentBy(r, k, c, jc) && SentBy(r, k, u, ju) && Delivered(log, c, BleConnect)
    requires r.steps[jc].Connect? && StaysOpen(r, jc, ju)
    ensures LinkBefore(log, i) == Some(log[c].evt.handle)
  {
    hide SysNext, SendsAt, RoomAt, SentBy, Fresh, SysRun.LinksAlternate, LinkBefore;
    forall x | c < x < i && log[x].Handle?
      ensures log[x].evt.kind !in {BleConnect, BleDisconnect}
    {
      var j := SenderOf(r, k, x);
      SendersInOrder(r, k, c, x, jc, j);
      SendersInOrder(r, k, x, u, j, ju);
      ConnectSender(r, j);
      LinkWhileOpen(r, jc, j);
    }
    LinkStays(log, c, i);
  }

  /** While penalties read right from its connect on, that history counts every
      call delivered. */
  lemma UnlockHistoryDelivered(r: SysRun, k: nat, u: nat, c: nat, n: nat, w: nat)
    requires r.Valid() && k <= |r.steps| && r.LoopOf(k).Ordered()
    requires u < |r.Log(k)| && PenaltiesRead(r.LoopOf(k).Controller(), c, u + 1)
    requires r.LoopOf(k).Controller().UnlockHistory(c, n, w, u, true)
    ensures r.LoopOf(k).Controller().UnlockHistory(c, n, w, u, false)
  {
    hide SysNext, LoopNext, LoopStepsOf, Fresh, LoopRun.Ordered, PenaltiesRead, Run.UnlockHistory, Run.Ordered;
    LoopIsOrdered(r.LoopOf(k));
    HistoryIsHeard(r.LoopOf(k).Controller(), c, n, w, u);
  }

  /** At every point of every interleaving, at any times and whatever the queue
      drops, the actuator follows the controller's state. */
  lemma FirmwareActuatorFollowsState(r: SysRun, k: nat)
    requires r.Valid() && k <= |r.steps|
    ensures Coupled(r.At(k).loop)
  {
    hide SysNext, LoopNext, LoopStepsOf, Fresh, Coupled;
    LogIsLoop(r, k);
    ActuatorFollowsState(r.LoopOf(k), |r.Log(k)|);
  }
}
