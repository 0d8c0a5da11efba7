/**
 * The one-second tick: how long the update handler waits before its next
 * redraw, computed from the wall clock so that ticks land on whole seconds.
 */
module TickSchedule {

  /** The tick period in milliseconds (one second). */
  const UpdatePeriodMillis: int := 1000

  /** Java's `/` on `long`: the quotient truncated toward zero. */
  function JavaDiv(a: int, b: int): int
    requires b > 0
  {
    if a >= 0 then a / b else -((-a) / b)
  }

  /**
   * Java's `%` on `long`: what is left after the truncating quotient, so it
   * takes the sign of the dividend.
   */
  function JavaRem(a: int, b: int): (r: int)
    requires b > 0
    ensures a >= 0 ==> 0 <= r < b
    ensures a < 0 ==> -b < r <= 0
    // What is left after a quotient that has the dividend's sign.
    ensures exists q :: a == q * b + r && (a >= 0 ==> q >= 0) && (a < 0 ==> q <= 0)
  {
    var q := JavaDiv(a, b);
    assert a == q * b + (a - b * q);
    a - b * q
  }

  /**
   * The delay the handler posts its next tick with, read at wall-clock time
   * `now` (milliseconds since the epoch).
   */
  function TickDelay(now: int): (delay: int)
    // The tick falls on a whole-second boundary of the wall clock.
    ensures (now + delay) % UpdatePeriodMillis == 0
    // From a non-negative clock the wait is positive and at most one period.
    ensures now >= 0 ==> 1 <= delay <= UpdatePeriodMillis
    // Before the epoch Java's remainder is negative and the wait grows past a period.
    ensures now < 0 ==> UpdatePeriodMillis <= delay < 2 * UpdatePeriodMillis
  {
    var delay := UpdatePeriodMillis - JavaRem(now, UpdatePeriodMillis);
    assert now + delay == UpdatePeriodMillis * (JavaDiv(now, UpdatePeriodMillis) + 1);
    delay
  }

  /**
   * From a non-negative clock the tick lands on the NEXT whole second: no
   * shorter positive wait reaches a boundary.
   */
  lemma TickDelayIsNextBoundary(now: int, d: int)
    requires now >= 0
    requires 0 < d < TickDelay(now)
    ensures (now + d) % UpdatePeriodMillis != 0
  {
  }
}
