/** What in the world stands behind the events the firmware's tasks send: taps,
    distance readings, and answers to challenges. */
module Causes {
  import opened Clock
  import opened AccessController
  import opened ControllerLoop
  import opened AuthRing
  import opened Uwb
  import opened Firmware
  import opened Binding

  ghost predicate SendsKind(r: SysRun, j: nat, kind: AccessEvent)
    requires r.start.Valid() && j < |r.steps|
  {
    exists e :: SendsAt(r, j) == [e] && e.kind == kind
  }

  /** Exactly when each event is sent: a tap once per link, by the reader's verdict;
      a zone when the filter has just changed to it; a verdict for every response;
      the link's comings and goings; and nobody sends a lock request. */
  lemma SentExactlyWhen(r: SysRun, j: nat)
    requires r.start.Valid() && j < |r.steps|
    ensures var s, s', step := r.At(j), r.At(j + 1), r.steps[j];
      && (SendsKind(r, j, NfcOk) <==> step == Tap(true) && s.Connected() && !s.tapped)
      && (SendsKind(r, j, NfcFail) <==> step == Tap(false) && s.Connected() && !s.tapped)
      && (SendsKind(r, j, ZoneNear) <==> step.Range? && s.prevZone != Near && s'.tracker.zone == Near)
      && (SendsKind(r, j, ZoneFar) <==> step.Range? && s.prevZone != Far && s'.tracker.zone == Far)
      && (SendsKind(r, j, AuthOk) <==> step.Respond? && VerifyAt(s, r.mac, step).1 == OK)
      && (SendsKind(r, j, AuthFail) <==> step.Respond? && VerifyAt(s, r.mac, step).1 != OK)
      && (SendsKind(r, j, BleConnect) <==> step.Connect?)
      && (SendsKind(r, j, BleDisconnect) <==> step.Disconnect?)
      && !SendsKind(r, j, UserLock)
  {
    hide VerifyAt, LoopNext, Tracker.Push;
    var es := SendsAt(r, j);
    if es != [] {
      assert es == [es[0]];
    }
  }

  // ---------------------------------------------------------------------------
  // Taps

  /** Step m was a pass of the NFC task that saw the link down. */
  ghost predicate SawLinkDown(r: SysRun, m: nat)
    requires r.start.Valid() && m < |r.steps|
  {
    r.steps[m].Tap? && !r.At(m).Connected()
  }

  predicate SendsTap(r: SysRun, j: nat)
    requires r.start.Valid() && j < |r.steps|
  {
    r.steps[j].Tap? && SendsAt(r, j) != []
  }

  lemma StepTapped(s: Sys, mac: Mac, step: SysStep)
    requires s.Valid()
    ensures var s' := SysNext(s, mac, step);
      && (step.Tap? ==> (s'.tapped <==> s.Connected()) && (Sends(s, mac, step) != [] ==> s.Connected() && !s.tapped))
      && (!step.Tap? ==> s'.tapped == s.tapped)
  {
    hide VerifyAt, LoopNext, Tracker.Push;
  }

  lemma {:induction false} TappedUntilDown(r: SysRun, i: nat, j: nat)
    requires r.start.Valid() && i < j <= |r.steps| && SendsTap(r, i)
    ensures r.At(j).tapped || exists m :: i < m < j && SawLinkDown(r, m)
  {
    hide SysNext, Sends;
    StepTapped(r.At(j - 1), r.mac, r.steps[j - 1]);
    if i < j - 1 {
      TappedUntilDown(r, i, j - 1);
      assert r.At(j - 1).tapped && !r.At(j).tapped ==> SawLinkDown(r, j - 1);
    }
  }

  /** One tap per connection: between two that are sent, the NFC task saw the link
      down. */
  lemma TapsApart(r: SysRun, i: nat, j: nat) returns (m: nat)
    requires r.start.Valid() && i < j < |r.steps| && SendsTap(r, i) && SendsTap(r, j)
    ensures i < m < j && SawLinkDown(r, m)
  {
    hide SysNext, Sends;
    TappedUntilDown(r, i, j);
    StepTapped(r.At(j), r.mac, r.steps[j]);
    m :| i < m < j && SawLinkDown(r, m);
  }

  // ---------------------------------------------------------------------------
  // Zones

  lemma StepZone(s: Sys, mac: Mac, step: SysStep)
    requires s.Valid()
    ensures var s' := SysNext(s, mac, step);
      s'.prevZone == if step.Range? then s'.tracker.zone else s.prevZone
  {
    hide VerifyAt, LoopNext, Tracker.Push;
  }

  /** The UWB task took a reading that left this zone. */
  ghost predicate LeftZone(r: SysRun, m: nat, z: Zone)
    requires r.start.Valid() && m < |r.steps|
  {
    r.steps[m].Range? && r.At(m + 1).tracker.zone != z
  }

  lemma {:induction false} ZoneUntilLeft(r: SysRun, i: nat, j: nat, z: Zone)
    requires r.start.Valid() && i < j <= |r.steps| && r.steps[i].Range? && r.At(i + 1).tracker.zone == z
    ensures r.At(j).prevZone == z || exists m :: i < m < j && LeftZone(r, m, z)
  {
    hide SysNext;
    StepZone(r.At(j - 1), r.mac, r.steps[j - 1]);
    if i < j - 1 {
      ZoneUntilLeft(r, i, j - 1, z);
      assert r.At(j - 1).prevZone == z && r.At(j).prevZone != z ==> LeftZone(r, j - 1, z);
    }
  }

  /** NEAR and FAR are edges: between two of one kind there is a reading in another
      zone. */
  lemma ZonesApart(r: SysRun, i: nat, j: nat, kind: AccessEvent) returns (m: nat)
    requires r.start.Valid() && i < j < |r.steps| && kind in {ZoneNear, ZoneFar}
    requires SendsKind(r, i, kind) && SendsKind(r, j, kind)
    ensures i < m < j && LeftZone(r, m, if kind == ZoneNear then Near else Far)
  {
    hide SysNext, SendsKind, VerifyAt;
    var z := if kind == ZoneNear then Near else Far;
    SentExactlyWhen(r, i);
    SentExactlyWhen(r, j);
    ZoneUntilLeft(r, i, j, z);
    m :| i < m < j && LeftZone(r, m, z);
  }

  /** The samples the UWB task took in the first k steps. */
  function Readings(r: SysRun, k: nat): seq<UwbSample>
    requires k <= |r.steps|
  {
    if k == 0 then []
    else Readings(r, k - 1) + if r.steps[k - 1].Range? then [r.steps[k - 1].sample] else []
  }

  function PushAll(t: Tracker, samples: seq<UwbSample>): Tracker {
    if samples == [] then t else PushAll(t, samples[..|samples| - 1]).Push(samples[|samples| - 1]).0
  }

  lemma StepTracker(s: Sys, mac: Mac, step: SysStep)
    requires s.Valid()
    ensures SysNext(s, mac, step).tracker == if step.Range? then s.tracker.Push(step.sample).0 else s.tracker
  {
    hide VerifyAt, LoopNext, Tracker.Push;
  }

  /** The filter has seen exactly those, in order, and is never reset. */
  lemma {:induction false} TrackerSawReadings(r: SysRun, k: nat)
    requires r.start.Valid() && k <= |r.steps|
    ensures r.At(k).tracker == PushAll(r.start.tracker, Readings(r, k))
  {
    hide SysNext, Tracker.Push;
    if k > 0 {
      TrackerSawReadings(r, k - 1);
      StepTracker(r.At(k - 1), r.mac, r.steps[k - 1]);
      var ss, es := Readings(r, k), Readings(r, k - 1);
      if r.steps[k - 1].Range? {
        assert ss[..|ss| - 1] == es;
      } else {
        assert es + [] == es;
      }
    }
  }

  // ---------------------------------------------------------------------------
  // Responses

  /** A valid record keeps what its challenge was issued with. */
  lemma StepRecords(s: Sys, mac: Mac, step: SysStep, i: nat)
    requires s.Valid() && i < 16
    ensures var rec, rec' := s.ring.pool[i], SysNext(s, mac, step).ring.pool[i];
      || rec' == rec
      || rec' == rec.(consumed := true)
      || (step.Connect? && rec' == NonceRecord(step.nonce, Millis(step.t), step.handle, false, true))
  {
    hide LoopNext, Tracker.Push, FindFrom, Ring.Verify, Millis;
    if step.Respond? {
      VerifyChanges(s.ring, mac(step.nonce), s.link, Millis(step.t), step.nonce, step.response);
    }
  }

  /** Step j connected and issued this record's challenge. */
  ghost predicate Issued(r: SysRun, j: nat, rec: NonceRecord) {
    && j < |r.steps| && r.steps[j].Connect?
    && r.steps[j].nonce == rec.nonce && r.steps[j].handle == rec.handle && Millis(r.steps[j].t) == rec.issuedMs
  }

  lemma {:induction false} RecordIssued(r: SysRun, k: nat, i: nat) returns (j: nat)
    requires r.Valid() && k <= |r.steps| && i < 16 && r.At(k).ring.pool[i].valid
    ensures j < k && Issued(r, j, r.At(k).ring.pool[i])
  {
    hide SysNext, Millis;
    StepRecords(r.At(k - 1), r.mac, r.steps[k - 1], i);
    var rec, rec' := r.At(k - 1).ring.pool[i], r.At(k).ring.pool[i];
    if rec' == rec || rec' == rec.(consumed := true) {
      j := RecordIssued(r, k - 1, i);
    } else {
      j := k - 1;
    }
  }

  /** An accepted response answers the challenge of a connect with its handle, with
      the MAC of that nonce, at a wrapped age of at most 60000 ms. */
  lemma ResponseAnswersConnect(r: SysRun, k: nat) returns (j: nat)
    requires r.Valid() && k < |r.steps| && r.steps[k].Respond? && VerifyAt(r.At(k), r.mac, r.steps[k]).1 == OK
    ensures j < k && r.steps[j].Connect?
    ensures r.steps[j].handle == r.At(k).link && r.steps[j].nonce == r.steps[k].nonce
    ensures r.steps[k].response == r.mac(r.steps[k].nonce)
    ensures Elapsed(Millis(r.steps[k].t), Millis(r.steps[j].t)) <= 60000
  {
    hide SysNext, Millis, Elapsed, Ring.Verify;
    var s, step := r.At(k), r.steps[k];
    VerifyChanges(s.ring, r.mac(step.nonce), s.link, Millis(step.t), step.nonce, step.response);
    j := RecordIssued(r, k, FindFrom(s.ring.pool, step.nonce, 0));
  }
}
