/** The controller task (firmware/src/main.cpp): the access state machine
    driving the actuator through `apply`. */
module ControllerLoop {
  import opened Clock
  import opened AccessController
  import opened GpioActuator
  import opened AccessRuns

  function Apply(a: Action, o: Outputs, now: u32): Outputs {
    match a
    case LedAuthenticating => o.(led := Blue)
    case LedLocked => o.(led := Red)
    case LedUnlocked => o.(led := Green)
    case PulseUnlock => o.Pulse(now)
    case DriveLock => o.Lock()
    case LogLockout => o.(led := Red)
    case NoAction => o
  }

  method ApplyAction(a: Action, gpio: GpioActuator, now: u32)
    modifies gpio
    ensures gpio.View() == Apply(a, old(gpio.View()), now)
  {
    match a
    case LedAuthenticating => gpio.SetLed(Blue);
    case LedLocked => gpio.SetLed(Red);
    case LedUnlocked => gpio.SetLed(Green);
    case PulseUnlock => gpio.BeginUnlockPulse(now);
    case DriveLock => gpio.Lock();
    case LogLockout => gpio.SetLed(Red);
    case NoAction =>
  }

  /** What the tasks and callbacks post: an access event, with the connection it
      came from when it came over BLE (0 otherwise). */
  datatype Evt = Evt(kind: AccessEvent, handle: u16)

  /** Half a pass of the task's loop: one dequeued event, or the timers.  Every
      `millis()` reading has its own time. */
  datatype LoopStep =
    | Handle(evt: Evt, t: nat, appliedMs: nat)
    | Timers(t: nat, appliedMs: nat, serviceMs: nat)
  {
    function Call(): Call {
      match this
      case Handle(e, t, _) => Event(e.kind, t)
      case Timers(t, _, _) => Tick(t)
    }

    function End(): nat {
      if Handle? then appliedMs else serviceMs
    }

    predicate Ordered() {
      t <= appliedMs <= End()
    }
  }

  datatype Loop = Loop(c: Snapshot, o: Outputs)

  function LoopNext(s: Loop, step: LoopStep): (Loop, Action) {
    var (c, a) := Step(s.c, step.Call());
    var o := Apply(a, s.o, Millis(step.appliedMs));
    (Loop(c, if step.Timers? then o.Service(Millis(step.serviceMs)) else o), a)
  }

  function LoopBooted(bootMs: nat): Loop {
    Loop(Booted(Millis(bootMs)), Outputs(false, 0, Red, SERVO_LOCK_ANGLE))
  }

  function CallsOf(steps: seq<LoopStep>): (calls: seq<Call>)
    ensures |calls| == |steps|
    ensures forall i :: 0 <= i < |steps| ==> calls[i] == steps[i].Call()
  {
    if steps == [] then [] else CallsOf(steps[..|steps| - 1]) + [steps[|steps| - 1].Call()]
  }

  datatype LoopRun = LoopRun(bootMs: nat, steps: seq<LoopStep>) {
    function At(k: nat): Loop
      requires k <= |steps|
    {
      if k == 0 then LoopBooted(bootMs) else LoopNext(At(k - 1), steps[k - 1]).0
    }

    function ActionAt(k: nat): Action
      requires k < |steps|
    {
      LoopNext(At(k), steps[k]).1
    }

    /** The calls this loop makes on the controller. */
    function Controller(): (r: Run)
      ensures |r.calls| == |steps|
    {
      Run(bootMs, CallsOf(steps))
    }

    function Now(k: nat): nat
      requires k <= |steps|
    {
      if k == 0 then bootMs else steps[k - 1].End()
    }

    /** Readings of the clock never go back. */
    ghost predicate Ordered() {
      forall k :: 0 <= k < |steps| ==> Now(k) <= steps[k].t && steps[k].Ordered()
    }

    /** Time of the last service call among the first k steps, or of boot. */
    function LastService(k: nat): nat
      requires k <= |steps|
    {
      if k == 0 then bootMs
      else if steps[k - 1].Timers? then steps[k - 1].serviceMs
      else LastService(k - 1)
    }

    ghost predicate ServicedWithin(d: nat) {
      forall k :: 0 <= k < |steps| && steps[k].Timers? ==> steps[k].serviceMs <= LastService(k) + d
    }

    ghost predicate NoAnswer(a: Action, p: nat, k: nat) {
      forall i :: p < i < k && i < |steps| ==> ActionAt(i) != a
    }
  }

  // ---------------------------------------------------------------------------
  // The loop is a run of the controller

  lemma {:induction false} LoopIsRun(l: LoopRun, k: nat)
    requires k <= |l.steps|
    ensures l.At(k).c == l.Controller().At(k)
    ensures k < |l.steps| ==> l.ActionAt(k) == l.Controller().ActionAt(k)
  {
    hide Step, Apply;
    if k > 0 {
      LoopIsRun(l, k - 1);
    }
  }

  lemma {:induction false} LoopNowMonotone(l: LoopRun, j: nat, k: nat)
    requires l.Ordered() && j <= k <= |l.steps|
    ensures l.Now(j) <= l.Now(k)
  {
    if j < k {
      LoopNowMonotone(l, j, k - 1);
      assert l.steps[k - 1].Ordered();
    }
  }

  lemma LoopIsOrdered(l: LoopRun)
    requires l.Ordered()
    ensures l.Controller().Ordered()
  {
    hide LoopRun.Ordered, LoopRun.Controller;
    var r := l.Controller();
    forall j, k | 0 <= j <= k <= |r.calls|
      ensures r.Now(j) <= r.Now(k)
    {
      CallTime(l, j);
      if j < k {
        CallTime(l, k);
        LoopNowMonotone(l, j, k - 1);
      }
    }
  }

  /** Each call on the controller falls within its step. */
  lemma CallTime(l: LoopRun, k: nat)
    requires l.Ordered() && k <= |l.steps|
    ensures l.Controller().Now(k) <= l.Now(k)
    ensures k > 0 ==> l.Now(k - 1) <= l.Controller().Now(k)
  {
    assert k > 0 ==> l.steps[k - 1].Ordered() && l.Now(k - 1) <= l.steps[k - 1].t;
  }

  // ---------------------------------------------------------------------------
  // The actuator follows the state

  function LedFor(s: AccessState): LedColor {
    match s
    case Unlocked => Green
    case BleConnected | NfcVerified | UwbNear => Blue
    case _ => Red
  }

  ghost predicate Coupled(s: Loop) {
    && s.c.state != Authenticated
    && s.o.servoAngle == (if s.c.state == Unlocked then 90 else 0)
    && (s.o.relayActive ==> s.c.state == Unlocked)
    && s.o.led == LedFor(s.c.state)
  }

  lemma StepCoupled(s: Loop, step: LoopStep)
    requires Coupled(s)
    ensures Coupled(LoopNext(s, step).0)
  {}

  /** At every point of every run of the loop, at any times whatever: the servo is
      at the unlock angle exactly in UNLOCKED, the relay is driven only in
      UNLOCKED, and the LED shows the state. */
  lemma {:induction false} ActuatorFollowsState(l: LoopRun, k: nat)
    requires k <= |l.steps|
    ensures Coupled(l.At(k))
  {
    if k > 0 {
      hide LoopNext;
      ActuatorFollowsState(l, k - 1);
      StepCoupled(l.At(k - 1), l.steps[k - 1]);
    }
  }

  // ---------------------------------------------------------------------------
  // How long the relay is driven

  lemma StepRelay(s: Loop, step: LoopStep)
    ensures var (s', a) := LoopNext(s, step);
      && (a == PulseUnlock ==>
            step.Handle? && s'.o.relayActive && s'.o.pulseUntilMs == After(Millis(step.appliedMs), 500))
      && (a == DriveLock ==> !s'.o.relayActive)
      && (a != PulseUnlock && a != DriveLock ==>
            && (s'.o.relayActive <==>
                  s.o.relayActive &&
                  !(step.Timers? && s.o.pulseUntilMs != 0 && Millis(step.serviceMs) >= s.o.pulseUntilMs))
            && (s'.o.relayActive ==> s'.o.pulseUntilMs == s.o.pulseUntilMs))
  {}

  /** When the pulse begun at step p is truly due to end. */
  function PulseDue(l: LoopRun, p: nat): nat
    requires p < |l.steps|
  {
    l.steps[p].appliedMs + 500
  }

  /** No service call between p and k misreads that: the exact condition of
      `GpioActuator.PulseEndExact`. */
  ghost predicate PulseReads(l: LoopRun, p: nat, k: nat)
    requires p < |l.steps|
  {
    forall j :: p < j < k && j < |l.steps| && l.steps[j].Timers? ==> PulseReadsAt(l.steps[j].serviceMs, PulseDue(l, p))
  }

  predicate PulseReadsAt(t: nat, due: nat) {
    if due % WRAP == 0 then t < due else ReadsRight(t, due)
  }

  lemma ServiceReads(t: nat, due: nat)
    ensures PulseReadsAt(t, due) <==> ((Millis(due) != 0 && Millis(t) >= Millis(due)) <==> t >= due)
  {}

  /** After the unlock answered at step p, and until the next one, the relay is
      driven exactly as long as nothing has locked the door and no service call
      has come 500 ms or more after the pulse began. */
  lemma {:induction false} RelayExact(l: LoopRun, p: nat, k: nat)
    requires l.Ordered() && p < k <= |l.steps| && PulseReads(l, p, k)
    requires l.ActionAt(p) == PulseUnlock && l.NoAnswer(PulseUnlock, p, k)
    ensures l.At(k).o.relayActive <==> l.NoAnswer(DriveLock, p, k) && l.LastService(k) < PulseDue(l, p)
    ensures l.At(k).o.relayActive ==> l.At(k).o.pulseUntilMs == Millis(PulseDue(l, p))
  {
    hide LoopNext, LoopRun.Ordered, Millis, PulseReadsAt;
    var j := k - 1;
    StepRelay(l.At(j), l.steps[j]);
    ServiceMonotone(l, j);
    StepOrdered(l, j);
    if p < j {
      RelayExact(l, p, j);
      assert l.ActionAt(j) != PulseUnlock;
      if l.steps[j].Timers? {
        ServiceReads(l.steps[j].serviceMs, PulseDue(l, p));
      }
    } else {
      AfterIsLater(l.steps[p].appliedMs, 500);
    }
  }

  lemma StepOrdered(l: LoopRun, k: nat)
    requires l.Ordered() && k < |l.steps|
    ensures l.Now(k) <= l.steps[k].t && l.steps[k].Ordered()
  {}

  lemma {:induction false} ServiceMonotone(l: LoopRun, k: nat)
    requires l.Ordered() && k <= |l.steps|
    ensures l.LastService(k) <= l.Now(k)
  {
    if k > 0 {
      ServiceMonotone(l, k - 1);
      assert l.steps[k - 1].Ordered() && l.Now(k - 1) <= l.steps[k - 1].t;
    }
  }

  /** With service calls at most d ms apart, a relay still driven when the next
      one comes is switched off less than 500 + d ms after its pulse began. */
  lemma RelayBound(l: LoopRun, d: nat, p: nat, k: nat)
    requires l.Ordered() && l.ServicedWithin(d) && p < k < |l.steps| && PulseReads(l, p, k + 1)
    requires l.ActionAt(p) == PulseUnlock && l.NoAnswer(PulseUnlock, p, k)
    requires l.At(k).o.relayActive && l.steps[k].Timers?
    ensures l.steps[k].serviceMs < PulseDue(l, p) + d
    ensures l.steps[k].serviceMs >= PulseDue(l, p) ==> !l.At(k + 1).o.relayActive
  {
    hide LoopNext, LoopRun.Ordered, Millis, PulseReadsAt;
    RelayExact(l, p, k);
    ServiceReads(l.steps[k].serviceMs, PulseDue(l, p));
    StepRelay(l.At(k), l.steps[k]);
  }
}
