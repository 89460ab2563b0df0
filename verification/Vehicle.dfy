/** The simulated vehicle (simulator/vehicle_sim.py) on its virtual BLE link
    (simulator/ble_sim.py), bound once: handlers that connect, challenge, verify,
    gate and record decisions. */
module Vehicle {
  import opened AuthRing
  import Auth = AuthEngine
  import opened Uwb

  const NFC_WHITELIST: seq<Bytes> := [[0x04, 0xA2, 0x1C, 0x5B], [0x04, 0xDE, 0xAD, 0xBE]]

  datatype Reason =
    Malformed | AuthFailed(result: AuthResult) | NfcNotVerified | RelaySuspected | ZoneNotNear(zone: Zone) | AllPassed

  datatype Decision = Decision(granted: bool, reason: Reason)

  datatype Vehicle = Vehicle(
    conn: Option<nat>, nextHandle: nat, pool: Pool, ranger: Ranger,
    nfcVerified: bool, locked: bool, decisions: seq<Decision>)

  datatype VehStep =
    | Connect(nonce: Bytes, nowS: real)
    | Disconnect
    | Write(value: Bytes, nowS: real)
    | Tap(uid: Bytes)
    | Range(sample: SimSample)
    | ResetRanging

  const NEW_VEHICLE: Vehicle := Vehicle(None, 1, map[], NEW_RANGER, false, true, [])

  /** What the gates decide once the response has been verified. */
  function Gate(v: Vehicle, result: AuthResult): Decision {
    if result != OK then Decision(false, AuthFailed(result))
    else if !v.nfcVerified then Decision(false, NfcNotVerified)
    else if v.ranger.relaySuspected then Decision(false, RelaySuspected)
    else if v.ranger.zone != Near then Decision(false, ZoneNotNear(v.ranger.zone))
    else Decision(true, AllPassed)
  }

  predicate WellFormed(v: Vehicle, step: VehStep) {
    step.Write? && v.conn.Some? && |step.value| == 2 * Auth.NONCE_LEN
  }

  function VerifyWrite(v: Vehicle, mac: Mac, step: VehStep): (Pool, AuthResult)
    requires WellFormed(v, step)
  {
    var nonce, response := step.value[..Auth.NONCE_LEN], step.value[Auth.NONCE_LEN..];
    MapVerify(v.pool, mac(nonce), v.conn.value, nonce, response, step.nowS)
  }

  /** A write without a connection raises an error and changes nothing. */
  function VehNext(v: Vehicle, mac: Mac, step: VehStep): Vehicle {
    match step
    case Connect(nonce, nowS) =>
      v.(conn := Some(v.nextHandle), nextHandle := v.nextHandle + 1, pool := MapIssue(v.pool, v.nextHandle, nowS, nonce))
    case Disconnect =>
      if v.conn.None? then v else v.(conn := None, nfcVerified := false, locked := true)
    case Write(value, nowS) =>
      if v.conn.None? then v
      else if !WellFormed(v, step) then v.(decisions := v.decisions + [Decision(false, Malformed)])
      else
        var (pool, result) := VerifyWrite(v, mac, step);
        var d := Gate(v, result);
        v.(pool := pool, locked := v.locked && !d.granted, decisions := v.decisions + [d])
    case Tap(uid) => v.(nfcVerified := uid in NFC_WHITELIST)
    case Range(sample) => v.(ranger := v.ranger.Push(sample).0)
    case ResetRanging => v.(ranger := NEW_RANGER)
  }

  class VirtualBleLink {
    var connHandle: Option<nat>
    var nextHandle: nat

    constructor ()
      ensures connHandle == None && nextHandle == 1
    {
      connHandle, nextHandle := None, 1;
    }

    /** Assigns the next handle; the caller runs the server's handler. */
    method Connect() returns (handle: nat)
      modifies this
      ensures handle == old(nextHandle) && connHandle == Some(handle) && nextHandle == handle + 1
    {
      connHandle := Some(nextHandle);
      nextHandle := nextHandle + 1;
      handle := connHandle.value;
    }

    method Disconnect() returns (handle: Option<nat>)
      modifies this
      ensures handle == old(connHandle) && connHandle == None && nextHandle == old(nextHandle)
    {
      handle := connHandle;
      connHandle := None;
    }
  }

  class VehicleServer {
    const link: VirtualBleLink
    const auth: Auth.SimAuthEngine
    const uwb: UwbRanger
    var nfcVerified: bool
    var locked: bool
    var decisions: seq<Decision>

    ghost function View(): Vehicle
      reads this, link, auth, uwb
    {
      Vehicle(link.connHandle, link.nextHandle, auth.pool, uwb.View(), nfcVerified, locked, decisions)
    }

    constructor ()
      ensures View() == NEW_VEHICLE && fresh(link) && fresh(auth) && fresh(uwb)
    {
      link := new VirtualBleLink();
      auth := new Auth.SimAuthEngine();
      uwb := new UwbRanger();
      nfcVerified, locked, decisions := false, true, [];
    }

    method ClientConnect(nonce: Bytes, nowS: real)
      modifies link, auth
      ensures View() == VehNext(old(View()), Auth.ExpectedMac, Connect(nonce, nowS))
    {
      hide Auth.ExpectedMac;
      var handle := link.Connect();
      auth.NewChallenge(handle, nowS, nonce);
    }

    method ClientDisconnect()
      modifies this, link
      ensures View() == VehNext(old(View()), Auth.ExpectedMac, Disconnect)
    {
      hide Auth.ExpectedMac;
      var handle := link.Disconnect();
      if handle.Some? {
        nfcVerified := false;
        locked := true;
      }
    }

    /** client_write and _on_response_write; false stands for the RuntimeError. */
    method ClientWrite(value: Bytes, nowS: real) returns (ok: bool)
      modifies this, auth
      ensures View() == VehNext(old(View()), Auth.ExpectedMac, Write(value, nowS))
      ensures ok <==> link.connHandle.Some?
    {
      hide Auth.ExpectedMac, MapVerify;
      if link.connHandle.None? {
        return false;
      }
      ok := true;
      if |value| != 2 * Auth.NONCE_LEN {
        Record(Decision(false, Malformed));
        return;
      }
      var nonce, response := value[..Auth.NONCE_LEN], value[Auth.NONCE_LEN..];
      var result := auth.VerifyResponse(link.connHandle.value, nonce, response, nowS);
      if result != OK {
        Record(Decision(false, AuthFailed(result)));
        return;
      }
      if !nfcVerified {
        Record(Decision(false, NfcNotVerified));
        return;
      }
      if uwb.relaySuspected {
        Record(Decision(false, RelaySuspected));
        return;
      }
      if uwb.zone != Near {
        Record(Decision(false, ZoneNotNear(uwb.zone)));
        return;
      }
      locked := false;
      Record(Decision(true, AllPassed));
    }

    method Record(d: Decision)
      modifies this`decisions
      ensures decisions == old(decisions) + [d]
    {
      decisions := decisions + [d];
    }

    method VerifyNfc(uid: Bytes) returns (authorised: bool)
      modifies this
      ensures View() == VehNext(old(View()), Auth.ExpectedMac, Tap(uid)) && authorised == nfcVerified
    {
      hide Auth.ExpectedMac;
      authorised := uid in NFC_WHITELIST;
      nfcVerified := authorised;
    }

    method RangeUwb(sample: SimSample) returns (accepted: bool)
      modifies uwb
      ensures View() == VehNext(old(View()), Auth.ExpectedMac, Range(sample))
    {
      hide Auth.ExpectedMac, Ranger.Push;
      accepted := uwb.Push(sample);
    }
  }

  // ---------------------------------------------------------------------------
  // Runs

  datatype VehRun = VehRun(mac: Mac, steps: seq<VehStep>) {
    function At(k: nat): Vehicle
      requires k <= |steps|
    {
      if k == 0 then NEW_VEHICLE else VehNext(At(k - 1), mac, steps[k - 1])
    }

    /** Step k is a response accepted on connection h. */
    predicate OkOn(h: nat, k: nat)
      requires k < |steps|
    {
      WellFormed(At(k), steps[k]) && At(k).conn == Some(h) && VerifyWrite(At(k), mac, steps[k]).1 == OK
    }

    /** Step k is a response that is granted. */
    predicate GrantAt(k: nat)
      requires k < |steps|
    {
      WellFormed(At(k), steps[k]) && Gate(At(k), VerifyWrite(At(k), mac, steps[k]).1).granted
    }

    /** Step k ends a connection. */
    predicate EndsAt(k: nat)
      requires k < |steps|
    {
      steps[k].Disconnect? && At(k).conn.Some?
    }

    function OksOn(h: nat, k: nat): nat
      requires k <= |steps|
    {
      if k == 0 then 0 else OksOn(h, k - 1) + if OkOn(h, k - 1) then 1 else 0
    }
  }

  /** Handles are never reused, at most one record is bound to each, and one that
      has had its acceptance has no unused record left. */
  ghost predicate OncePerHandle(v: Vehicle, h: nat, oks: nat) {
    && (forall nonce :: nonce in v.pool ==> v.pool[nonce].handle < v.nextHandle)
    && (v.conn.Some? ==> v.conn.value < v.nextHandle)
    && (forall n1, n2 :: n1 in v.pool && n2 in v.pool && v.pool[n1].handle == h && v.pool[n2].handle == h ==> n1 == n2)
    && oks <= 1
    && (oks == 1 ==> h < v.nextHandle)
    && (oks == 1 ==> forall nonce :: nonce in v.pool && v.pool[nonce].handle == h ==> v.pool[nonce].consumed)
  }

  lemma StepOncePerHandle(v: Vehicle, mac: Mac, step: VehStep, h: nat, oks: nat)
    requires OncePerHandle(v, h, oks)
    ensures var ok := WellFormed(v, step) && v.conn == Some(h) && VerifyWrite(v, mac, step).1 == OK;
      OncePerHandle(VehNext(v, mac, step), h, oks + if ok then 1 else 0)
  {
    hide Ranger.Push, Gate;
  }

  /** At most one response is ever accepted on a connection, over any run, even if
      the random nonces collide. */
  lemma {:induction false} OneOkPerConnection(r: VehRun, h: nat, k: nat)
    requires k <= |r.steps|
    ensures r.OksOn(h, k) <= 1
    ensures OncePerHandle(r.At(k), h, r.OksOn(h, k))
  {
    hide VehNext, VerifyWrite;
    if k > 0 {
      OneOkPerConnection(r, h, k - 1);
      StepOncePerHandle(r.At(k - 1), r.mac, r.steps[k - 1], h, r.OksOn(h, k - 1));
    }
  }

  lemma {:induction false} OksGrow(r: VehRun, h: nat, j: nat, k: nat)
    requires j < k <= |r.steps| && r.OkOn(h, j)
    ensures r.OksOn(h, k) >= 1
  {
    hide VehNext, VerifyWrite;
    if j < k - 1 {
      OksGrow(r, h, j, k - 1);
    }
  }

  /** A connection whose accepted response was turned down by the NFC or UWB gate
      is never granted later; nor is one that was granted. */
  lemma DeniedOnceDeniedForever(r: VehRun, h: nat, j: nat, k: nat)
    requires j < k < |r.steps| && r.OkOn(h, j) && r.At(k).conn == Some(h)
    ensures !r.GrantAt(k)
  {
    hide VehNext, VerifyWrite;
    OneOkPerConnection(r, h, k + 1);
    OksGrow(r, h, j, k);
  }

  /** Step j was granted, and no connection has ended since. */
  ghost predicate GrantStands(r: VehRun, j: nat, k: nat) {
    j < k <= |r.steps| && r.GrantAt(j) && forall i :: j < i < k ==> !r.EndsAt(i)
  }

  /** The door is unlocked exactly when something was granted since the last
      connection ended. */
  lemma {:induction false} UnlockedIffGranted(r: VehRun, k: nat)
    requires k <= |r.steps|
    ensures !r.At(k).locked <==> exists j :: GrantStands(r, j, k)
  {
    hide VehNext, VerifyWrite, MapVerify, Gate;
    if k > 0 {
      var p := k - 1;
      UnlockedIffGranted(r, p);
      StepLocks(r.At(k - 1), r.mac, r.steps[k - 1]);
      if r.GrantAt(k - 1) {
        assert GrantStands(r, k - 1, k);
      }
      if j :| GrantStands(r, j, p) {
        assert r.EndsAt(p) || GrantStands(r, j, k);
      }
      if j :| GrantStands(r, j, k) {
        assert j == p || (GrantStands(r, j, p) && !r.EndsAt(p));
      }
    }
  }

  lemma StepLocks(v: Vehicle, mac: Mac, step: VehStep)
    ensures VehNext(v, mac, step).locked ==
            if step.Disconnect? && v.conn.Some? then true
            else v.locked && !(WellFormed(v, step) && Gate(v, VerifyWrite(v, mac, step).1).granted)
  {
    hide MapVerify, Gate;
  }

  // ---------------------------------------------------------------------------
  // What stands behind a grant

  /** Step c opened connection h with this challenge. */
  ghost predicate Opened(r: VehRun, c: nat, h: nat, nonce: Bytes, sinceS: real) {
    c < |r.steps| && r.steps[c] == Connect(nonce, sinceS) && r.At(c).nextHandle == h
  }

  /** Step j tapped a whitelisted tag, and no tap or end of connection came since. */
  ghost predicate TapStands(r: VehRun, j: nat, k: nat) {
    && j < k <= |r.steps|
    && r.steps[j].Tap? && r.steps[j].uid in NFC_WHITELIST
    && forall i :: j < i < k ==> !r.steps[i].Tap? && !r.EndsAt(i)
  }

  /** No connect since step c has been given the same nonce. */
  ghost predicate NotReissued(r: VehRun, nonce: Bytes, c: nat, k: nat) {
    forall i :: c < i < k && i < |r.steps| ==> !(r.steps[i].Connect? && r.steps[i].nonce == nonce)
  }

  ghost predicate NotYetOk(r: VehRun, h: nat, c: nat, k: nat) {
    forall i :: c < i < k && i < |r.steps| ==> !r.OkOn(h, i)
  }

  /** The write at k answers the challenge of the connect at c, on that connection,
      correctly, within 60 s and for the first time, with the tap at j standing and
      the key near and unsuspected. */
  ghost predicate Honest(r: VehRun, c: nat, j: nat, k: nat) {
    && c < k < |r.steps| && WellFormed(r.At(k), r.steps[k])
    && r.steps[c].Connect? && r.At(k).conn == Some(r.At(c).nextHandle)
    && var nonce, value := r.steps[c].nonce, r.steps[k].value;
    && value[..Auth.NONCE_LEN] == nonce && value[Auth.NONCE_LEN..] == r.mac(nonce)
    && r.steps[k].nowS - r.steps[c].nowS <= 60.0
    && NotReissued(r, nonce, c, k) && NotYetOk(r, r.At(c).nextHandle, c, k)
    && TapStands(r, j, k)
    && r.At(k).ranger.zone == Near && !r.At(k).ranger.relaySuspected
  }

  /** How one step moves the record of a nonce. */
  lemma StepRecord(v: Vehicle, mac: Mac, step: VehStep, nonce: Bytes)
    ensures var v' := VehNext(v, mac, step);
      if step.Connect? && step.nonce == nonce then
        nonce in v'.pool && v'.pool[nonce] == MapRecord(step.nowS, v.nextHandle, false)
      else
        && (nonce in v'.pool <==> nonce in v.pool)
        && (nonce in v.pool ==>
              || v'.pool[nonce] == v.pool[nonce]
              || (&& WellFormed(v, step) && VerifyWrite(v, mac, step).1 == OK
                  && v.pool[nonce].handle == v.conn.value
                  && v'.pool[nonce] == v.pool[nonce].(consumed := true)))
  {
    hide Gate, Ranger.Push;
  }

  lemma {:induction false} PoolHasHistory(r: VehRun, k: nat, nonce: Bytes) returns (c: nat)
    requires k <= |r.steps| && nonce in r.At(k).pool
    ensures c < k && NotReissued(r, nonce, c, k)
    ensures r.At(k).pool[nonce].handle >= 0
    ensures Opened(r, c, r.At(k).pool[nonce].handle, nonce, r.At(k).pool[nonce].issuedS)
  {
    hide VehNext, VerifyWrite;
    StepRecord(r.At(k - 1), r.mac, r.steps[k - 1], nonce);
    if r.steps[k - 1].Connect? && r.steps[k - 1].nonce == nonce {
      c := k - 1;
    } else {
      c := PoolHasHistory(r, k - 1, nonce);
    }
  }

  lemma {:induction false} HistoryGivesPool(r: VehRun, c: nat, k: nat)
    requires c < k <= |r.steps| && r.steps[c].Connect?
    requires NotReissued(r, r.steps[c].nonce, c, k) && NotYetOk(r, r.At(c).nextHandle, c, k)
    ensures var nonce := r.steps[c].nonce;
      nonce in r.At(k).pool && r.At(k).pool[nonce] == MapRecord(r.steps[c].nowS, r.At(c).nextHandle, false)
  {
    hide VehNext, VerifyWrite;
    StepRecord(r.At(k - 1), r.mac, r.steps[k - 1], r.steps[c].nonce);
    if c < k - 1 {
      HistoryGivesPool(r, c, k - 1);
      assert !r.OkOn(r.At(c).nextHandle, k - 1);
      assert !(r.steps[k - 1].Connect? && r.steps[k - 1].nonce == r.steps[c].nonce);
    }
  }

  lemma StepTap(v: Vehicle, mac: Mac, step: VehStep)
    ensures VehNext(v, mac, step).nfcVerified ==
            if step.Tap? then step.uid in NFC_WHITELIST
            else v.nfcVerified && !(step.Disconnect? && v.conn.Some?)
  {
    hide MapVerify, Gate, Ranger.Push;
  }

  lemma {:induction false} TapHasHistory(r: VehRun, k: nat) returns (j: nat)
    requires k <= |r.steps| && r.At(k).nfcVerified
    ensures TapStands(r, j, k)
  {
    hide VehNext;
    StepTap(r.At(k - 1), r.mac, r.steps[k - 1]);
    if r.steps[k - 1].Tap? {
      j := k - 1;
    } else {
      j := TapHasHistory(r, k - 1);
    }
  }

  lemma {:induction false} HistoryGivesTap(r: VehRun, j: nat, k: nat)
    requires TapStands(r, j, k)
    ensures r.At(k).nfcVerified
  {
    hide VehNext;
    StepTap(r.At(k - 1), r.mac, r.steps[k - 1]);
    if j < k - 1 {
      HistoryGivesTap(r, j, k - 1);
      assert !r.steps[k - 1].Tap? && !r.EndsAt(k - 1);
    }
  }

  /** The vehicle grants exactly the honest responses. */
  lemma GrantIffHonest(r: VehRun, k: nat)
    requires k < |r.steps|
    ensures r.GrantAt(k) <==> exists c, j :: Honest(r, c, j, k)
  {
    hide VehNext;
    if r.GrantAt(k) {
      var c := PoolHasHistory(r, k, r.steps[k].value[..Auth.NONCE_LEN]);
      var j := TapHasHistory(r, k);
      var h := r.At(c).nextHandle;
      forall i | c < i < k
        ensures !r.OkOn(h, i)
      {
        if r.OkOn(h, i) {
          DeniedOnceDeniedForever(r, h, i, k);
        }
      }
      assert Honest(r, c, j, k);
    }
    if c, j :| Honest(r, c, j, k) {
      HistoryGivesPool(r, c, k);
      HistoryGivesTap(r, j, k);
    }
  }

  // ---------------------------------------------------------------------------
  // The decision log and the ranger

  /** Step k wrote something on an open connection. */
  predicate WritesAt(r: VehRun, k: nat)
    requires k < |r.steps|
  {
    r.steps[k].Write? && r.At(k).conn.Some?
  }

  function Writes(r: VehRun, k: nat): nat
    requires k <= |r.steps|
  {
    if k == 0 then 0 else Writes(r, k - 1) + if WritesAt(r, k - 1) then 1 else 0
  }

  lemma StepDecides(v: Vehicle, mac: Mac, step: VehStep)
    ensures var ds, ds' := v.decisions, VehNext(v, mac, step).decisions;
      if step.Write? && v.conn.Some? then
        ds' == ds + [if WellFormed(v, step) then Gate(v, VerifyWrite(v, mac, step).1) else Decision(false, Malformed)]
      else ds' == ds
  {
    hide MapVerify, Gate, Ranger.Push;
  }

  /** One decision for every write on a connection, and no other. */
  lemma {:induction false} OneDecisionPerWrite(r: VehRun, k: nat)
    requires k <= |r.steps|
    ensures |r.At(k).decisions| == Writes(r, k)
    ensures forall i :: 0 <= i < k ==> r.At(i).decisions <= r.At(k).decisions
  {
    hide VehNext;
    if k > 0 {
      OneDecisionPerWrite(r, k - 1);
      StepDecides(r.At(k - 1), r.mac, r.steps[k - 1]);
    }
  }

  ghost predicate Tapped(r: VehRun, k: nat) { exists j :: TapStands(r, j, k) }

  /** Why a write was decided as it was: it was malformed, its response was refused,
      no whitelisted tap stood, a relay was suspected or the key was not near; in
      this order, and with none of these it was granted. */
  lemma DecisionExplained(r: VehRun, k: nat)
    requires k < |r.steps| && WritesAt(r, k)
    ensures var v, n := r.At(k), |r.At(k).decisions|;
      && |r.At(k + 1).decisions| == n + 1
      && var d := r.At(k + 1).decisions[n];
      var ok := r.OkOn(v.conn.value, k);
      && (d.granted <==> r.GrantAt(k))
      && (d.reason == Malformed <==> |r.steps[k].value| != 64)
      && (d.reason.AuthFailed? <==> |r.steps[k].value| == 64 && !ok)
      && (d.reason.AuthFailed? ==> d.reason.result == VerifyWrite(v, r.mac, r.steps[k]).1)
      && (d.reason == NfcNotVerified <==> ok && !Tapped(r, k))
      && (d.reason == RelaySuspected <==> ok && Tapped(r, k) && v.ranger.relaySuspected)
      && (d.reason.ZoneNotNear? <==> ok && Tapped(r, k) && !v.ranger.relaySuspected && v.ranger.zone != Near)
      && (d.reason == AllPassed <==> d.granted)
  {
    hide VehNext, VerifyWrite;
    StepDecides(r.At(k), r.mac, r.steps[k]);
    if r.At(k).nfcVerified {
      var j := TapHasHistory(r, k);
    }
    if j :| TapStands(r, j, k) {
      HistoryGivesTap(r, j, k);
    }
  }

  /** The samples ranged in the first k steps since the last reset. */
  function Ranged(r: VehRun, k: nat): seq<SimSample>
    requires k <= |r.steps|
  {
    if k == 0 || r.steps[k - 1].ResetRanging? then []
    else if r.steps[k - 1].Range? then Ranged(r, k - 1) + [r.steps[k - 1].sample]
    else Ranged(r, k - 1)
  }

  function PushAll(samples: seq<SimSample>): Ranger {
    if samples == [] then NEW_RANGER else PushAll(samples[..|samples| - 1]).Push(samples[|samples| - 1]).0
  }

  /** The filter has seen exactly those, in order. */
  lemma {:induction false} RangerSawRanged(r: VehRun, k: nat)
    requires k <= |r.steps|
    ensures r.At(k).ranger == PushAll(Ranged(r, k))
  {
    if k > 0 {
      RangerSawRanged(r, k - 1);
      StepRanger(r.At(k - 1), r.mac, r.steps[k - 1]);
      hide VehNext;
      if r.steps[k - 1].Range? {
        var s := Ranged(r, k);
        assert s[..|s| - 1] == Ranged(r, k - 1);
      }
    }
  }

  lemma StepRanger(v: Vehicle, mac: Mac, step: VehStep)
    ensures VehNext(v, mac, step).ranger ==
            if step.Range? then v.ranger.Push(step.sample).0
            else if step.ResetRanging? then NEW_RANGER else v.ranger
  {
    hide MapVerify, Gate, Ranger.Push;
  }
}
