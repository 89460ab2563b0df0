/** The door actuator (firmware/src/gpio_actuator.cpp), as the host build sees
    it: the requested relay, servo and LED, without the pins behind them. */
module GpioActuator {
  import opened Clock

  const UNLOCK_PULSE_MS: u32 := 500
  const SERVO_LOCK_ANGLE: int := 0
  const SERVO_UNLOCK_ANGLE: int := 90

  datatype LedColor = Off | Red | Green | Blue

  datatype Outputs = Outputs(relayActive: bool, pulseUntilMs: u32, led: LedColor, servoAngle: int) {
    function Pulse(now: u32): Outputs {
      Outputs(true, After(now, UNLOCK_PULSE_MS), Green, SERVO_UNLOCK_ANGLE)
    }

    function Lock(): Outputs {
      Outputs(false, 0, Red, SERVO_LOCK_ANGLE)
    }

    function Service(now: u32): Outputs {
      if relayActive && pulseUntilMs != 0 && now >= pulseUntilMs
      then this.(relayActive := false, pulseUntilMs := 0)
      else this
    }
  }

  class GpioActuator {
    var relayActive: bool
    var pulseUntilMs: u32
    var led: LedColor
    var servoAngle: int

    ghost function View(): Outputs
      reads this
    {
      Outputs(relayActive, pulseUntilMs, led, servoAngle)
    }

    constructor ()
      ensures View() == Outputs(false, 0, Off, SERVO_LOCK_ANGLE)
    {
      relayActive, pulseUntilMs, led, servoAngle := false, 0, Off, SERVO_LOCK_ANGLE;
    }

    /** Leaves the pulse deadline alone, as the source does. */
    method Begin()
      modifies this
      ensures View() == Outputs(false, old(pulseUntilMs), Red, SERVO_LOCK_ANGLE)
    {
      WriteRelay(false);
      WriteServo(SERVO_LOCK_ANGLE);
      SetLed(Red);
    }

    method WriteRelay(active: bool)
      modifies this
      ensures View() == old(View()).(relayActive := active)
    {
      relayActive := active;
    }

    method WriteServo(angle: int)
      modifies this
      ensures View() == old(View()).(servoAngle := angle)
    {
      servoAngle := angle;
    }

    method BeginUnlockPulse(now: u32)
      modifies this
      ensures View() == old(View()).Pulse(now)
    {
      WriteRelay(true);
      WriteServo(SERVO_UNLOCK_ANGLE);
      pulseUntilMs := After(now, UNLOCK_PULSE_MS);
      SetLed(Green);
    }

    method Lock()
      modifies this
      ensures View() == old(View()).Lock()
    {
      WriteRelay(false);
      WriteServo(SERVO_LOCK_ANGLE);
      pulseUntilMs := 0;
      SetLed(Red);
    }

    method SetLed(color: LedColor)
      modifies this
      ensures View() == old(View()).(led := color)
    {
      led := color;
    }

    method Service(now: u32)
      modifies this
      ensures View() == old(View()).Service(now)
    {
      if relayActive && pulseUntilMs != 0 && now >= pulseUntilMs {
        WriteRelay(false);
        pulseUntilMs := 0;
      }
    }
  }

  /** A pulse begun at true time `since` is switched off correctly by a service
      call at true time t exactly when the deadline does not read as "no pulse"
      and t is in the deadline's clock epoch, or the pulse is rightly left on. */
  lemma PulseEndExact(o: Outputs, since: nat, t: nat)
    requires since <= t < since + WRAP
    ensures var due := since + 500;
      (o.Pulse(Millis(since)).Service(Millis(t)).relayActive <==> t < due)
        <==> if due % WRAP == 0 then t < due else t / WRAP == due / WRAP
  {
    DeadlineTestExact(since, t, UNLOCK_PULSE_MS);
  }

  /** At one start time in 2^32 the deadline is 0, and no service call ever ends
      the pulse. */
  lemma PulseStuck(o: Outputs, since: nat, t: nat)
    ensures (since + 500) % WRAP == 0 ==>
              o.Pulse(Millis(since)).Service(Millis(t)) == o.Pulse(Millis(since))
  {}
}
