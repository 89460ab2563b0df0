/** The access state machine (firmware/src/access_controller.cpp): a class that
    updates its fields as the firmware does, specified by functions on a
    snapshot of those fields. */
module AccessController {
  import opened Clock

  const STATE_TIMEOUT_MS: u32 := 10000
  const FAIL_PENALTY_MS: u32 := 5000
  const MAX_CONSECUTIVE_FAILS: u8 := 3
  const LOCKOUT_MS: u32 := 60000

  datatype AccessState =
    Idle | BleConnected | NfcVerified | UwbNear | Authenticated | Unlocked | Locked | Lockout

  datatype AccessEvent =
    BleConnect | BleDisconnect | NfcOk | NfcFail | ZoneNear | ZoneFar | AuthOk | AuthFail | UserLock

  datatype Action =
    NoAction | LedAuthenticating | LedLocked | LedUnlocked | PulseUnlock | DriveLock | LogLockout

  datatype Snapshot = Snapshot(
    state: AccessState, enteredMs: u32, penaltyUntilMs: u32, lockoutUntilMs: u32, failCount: u8)
  {
    function Enter(s: AccessState, now: u32): Snapshot {
      this.(state := s, enteredMs := now)
    }

    /** The states that fall back to IDLE after STATE_TIMEOUT_MS. */
    predicate Transient() {
      state in {BleConnected, NfcVerified, UwbNear, Authenticated}
    }

    function RegisterFailure(now: u32): (Snapshot, Action) {
      var fails: u8 := (failCount + 1) % 0x100;
      var c := this.(failCount := fails);
      if fails >= MAX_CONSECUTIVE_FAILS then
        (c.(lockoutUntilMs := After(now, LOCKOUT_MS)).Enter(Lockout, now), LogLockout)
      else
        (c.(penaltyUntilMs := After(now, FAIL_PENALTY_MS)).Enter(Idle, now), LedLocked)
    }

    function HandleEvent(ev: AccessEvent, now: u32): (Snapshot, Action) {
      if ev == UserLock || ev == BleDisconnect then
        if state == Lockout then (this, NoAction) else (Enter(Locked, now), DriveLock)
      else if state == Lockout || now < penaltyUntilMs then
        (this, NoAction)
      else
        match (state, ev)
        case (Idle, BleConnect) => (Enter(BleConnected, now), LedAuthenticating)
        case (Locked, BleConnect) => (Enter(BleConnected, now), LedAuthenticating)
        case (BleConnected, NfcOk) => (Enter(NfcVerified, now), LedAuthenticating)
        case (BleConnected, NfcFail) => RegisterFailure(now)
        case (NfcVerified, ZoneNear) => (Enter(UwbNear, now), LedAuthenticating)
        case (NfcVerified, ZoneFar) => (Enter(Idle, now), LedLocked)
        case (UwbNear, AuthOk) => (this.(failCount := 0).Enter(Unlocked, now), PulseUnlock)
        case (UwbNear, AuthFail) => RegisterFailure(now)
        case (UwbNear, ZoneFar) => (Enter(Idle, now), LedLocked)
        case (Unlocked, ZoneFar) => (Enter(Locked, now), DriveLock)
        case _ => (this, NoAction)
    }

    function Tick(now: u32): (Snapshot, Action) {
      if state == Lockout then
        if now >= lockoutUntilMs then (this.(failCount := 0).Enter(Idle, now), LedLocked)
        else (this, NoAction)
      else if Transient() && Elapsed(now, enteredMs) > STATE_TIMEOUT_MS then
        (Enter(Idle, now), LedLocked)
      else
        (this, NoAction)
    }
  }

  /** The controller as constructed and then reset once at boot. */
  function Booted(now: u32): Snapshot {
    Snapshot(Idle, now, 0, 0, 0)
  }

  class AccessController {
    var state: AccessState
    var stateEnteredMs: u32
    var penaltyUntilMs: u32
    var lockoutUntilMs: u32
    var failCount: u8

    ghost function View(): Snapshot
      reads this
    {
      Snapshot(state, stateEnteredMs, penaltyUntilMs, lockoutUntilMs, failCount)
    }

    constructor ()
      ensures View() == Snapshot(Idle, 0, 0, 0, 0)
    {
      state, stateEnteredMs, penaltyUntilMs, lockoutUntilMs, failCount := Idle, 0, 0, 0, 0;
    }

    method Reset(now: u32)
      modifies this
      ensures View() == old(View()).Enter(Idle, now)
    {
      Enter(Idle, now);
    }

    method Enter(s: AccessState, now: u32)
      modifies this
      ensures View() == old(View()).Enter(s, now)
    {
      state := s;
      stateEnteredMs := now;
    }

    method RegisterFailure(now: u32) returns (action: Action)
      modifies this
      ensures (View(), action) == old(View()).RegisterFailure(now)
    {
      failCount := (failCount + 1) % 0x100;
      if failCount >= MAX_CONSECUTIVE_FAILS {
        lockoutUntilMs := After(now, LOCKOUT_MS);
        Enter(Lockout, now);
        return LogLockout;
      }
      penaltyUntilMs := After(now, FAIL_PENALTY_MS);
      Enter(Idle, now);
      return LedLocked;
    }

    method HandleEvent(ev: AccessEvent, now: u32) returns (action: Action)
      modifies this
      ensures (View(), action) == old(View()).HandleEvent(ev, now)
    {
      if ev == UserLock || ev == BleDisconnect {
        if state == Lockout {
          return NoAction;
        }
        Enter(Locked, now);
        return DriveLock;
      }
      if state == Lockout {
        return NoAction;
      }
      if now < penaltyUntilMs {
        return NoAction;
      }
      match state {
        case Idle | Locked =>
          if ev == BleConnect {
            Enter(BleConnected, now);
            return LedAuthenticating;
          }
        case BleConnected =>
          if ev == NfcOk {
            Enter(NfcVerified, now);
            return LedAuthenticating;
          }
          if ev == NfcFail {
            action := RegisterFailure(now);
            return;
          }
        case NfcVerified =>
          if ev == ZoneNear {
            Enter(UwbNear, now);
            return LedAuthenticating;
          }
          if ev == ZoneFar {
            Enter(Idle, now);
            return LedLocked;
          }
        case UwbNear =>
          if ev == AuthOk {
            Enter(Authenticated, now);
            failCount := 0;
            Enter(Unlocked, now);
            return PulseUnlock;
          }
          if ev == AuthFail {
            action := RegisterFailure(now);
            return;
          }
          if ev == ZoneFar {
            Enter(Idle, now);
            return LedLocked;
          }
        case Unlocked =>
          if ev == ZoneFar {
            Enter(Locked, now);
            return DriveLock;
          }
        case _ =>
      }
      return NoAction;
    }

    method Tick(now: u32) returns (action: Action)
      modifies this
      ensures (View(), action) == old(View()).Tick(now)
    {
      if state == Lockout {
        if now >= lockoutUntilMs {
          failCount := 0;
          Enter(Idle, now);
          return LedLocked;
        }
        return NoAction;
      }
      var transient := state == BleConnected || state == NfcVerified || state == UwbNear || state == Authenticated;
      if transient && Elapsed(now, stateEnteredMs) > STATE_TIMEOUT_MS {
        Enter(Idle, now);
        return LedLocked;
      }
      return NoAction;
    }
  }
}
