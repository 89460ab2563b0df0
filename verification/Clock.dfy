/** The firmware's millisecond clock.  `millis()` is a 32-bit counter, so every
    timestamp the firmware keeps is the true time modulo 2^32.  The access code
    compares timestamps in two ways: it subtracts them (wrapping), or it adds a
    delay and compares the sum (wrapping).  This module says exactly when each
    of the two agrees with true time. */
module Clock {

  const WRAP: int := 0x1_0000_0000

  type u32 = x: int | 0 <= x < 0x1_0000_0000
  type u16 = x: int | 0 <= x < 0x1_0000
  type u8 = x: int | 0 <= x < 0x100

  /** What `millis()` shows at true time t. */
  function Millis(t: nat): u32 {
    t % WRAP
  }

  function After(now: u32, delay: u32): u32 {
    (now + delay) % WRAP
  }

  function Elapsed(now: u32, since: u32): u32 {
    (now - since) % WRAP
  }

  /** The subtracting test `now - since > limit` agrees with true age exactly
      when the true age is within the limit or has not come back round to a
      small residue; in particular for every age below 2^32 ms. */
  lemma AgeTestExact(since: nat, t: nat, limit: u32)
    requires since <= t
    ensures (Elapsed(Millis(t), Millis(since)) > limit <==> t - since > limit)
       <==> (t - since <= limit || (t - since) % WRAP > limit)
    ensures t - since < WRAP ==>
              (Elapsed(Millis(t), Millis(since)) > limit <==> t - since > limit)
  {}

  /** The comparing test `now >= since + delay` agrees with true time exactly
      when the clock and the deadline are in the same 2^32 ms epoch. */
  lemma DeadlineTestExact(since: nat, t: nat, delay: u32)
    requires since <= t < since + WRAP
    ensures (Millis(t) >= After(Millis(since), delay) <==> t >= since + delay)
       <==> t / WRAP == (since + delay) / WRAP
  {}

  lemma AfterIsLater(t: nat, delay: u32)
    ensures After(Millis(t), delay) == Millis(t + delay)
  {}

  /** Comparing the readings says what comparing the true times would. */
  predicate ReadsRight(t: nat, due: nat) {
    Millis(t) < Millis(due) <==> t < due
  }

  /** One half of that: the deadline is not taken for passed before it is. */
  predicate HoldsBack(t: nat, due: nat) {
    t < due ==> Millis(t) < Millis(due)
  }

  /** Within one turn of the clock, a deadline reads right exactly from inside its
      own epoch; and from there it does whatever the distance. */
  lemma ReadsRightInEpoch(t: nat, due: nat)
    ensures t / WRAP == due / WRAP ==> ReadsRight(t, due)
    ensures t - WRAP < due < t + WRAP ==> (ReadsRight(t, due) <==> t / WRAP == due / WRAP)
  {}
}
