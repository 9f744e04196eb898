/**
  The reconnect delay of reopenConnection. Every call starts root_delay at
  MIN_DELAY; before each sleep it is doubled and then capped at MAX_DELAY,
  and the sleep lasts root_delay plus a random amount below root_delay.
 */
module Backoff {

  const MinDelay: int := 100
  const MaxDelay: int := 10000

  /** One step of the loop: double the delay, then cap it at MaxDelay. */
  function NextDelay(d: int): int {
    if d * 2 > MaxDelay then MaxDelay else d * 2
  }

  /** A step keeps a delay within the bounds and grows it until it reaches the cap. */
  lemma NextDelayBounds(d: int)
    ensures NextDelay(d) <= MaxDelay
    ensures MinDelay <= d ==> MinDelay <= NextDelay(d)
    ensures 0 < d <= MaxDelay ==> d < NextDelay(d) || NextDelay(d) == MaxDelay
  {
  }

  /** root_delay after n failed attempts of one reopenConnection call. */
  function Delay(n: nat): (d: int)
    ensures MinDelay <= d <= MaxDelay
  {
    if n == 0 then MinDelay else NextDelay(Delay(n - 1))
  }

  function Pow2(n: nat): (p: nat)
    ensures p >= 1
  {
    if n == 0 then 1 else 2 * Pow2(n - 1)
  }

  function Min(a: int, b: int): int {
    if a <= b then a else b
  }

  /** root_delay is MIN_DELAY doubled once per failed attempt, never above MAX_DELAY. */
  lemma {:induction false} DelayClosedForm(n: nat)
    ensures Delay(n) == Min(MinDelay * Pow2(n), MaxDelay)
  {
    if n > 0 {
      DelayClosedForm(n - 1);
    }
  }

  /** Once the cap is reached it stays: from the seventh failure on, every base is MAX_DELAY. */
  lemma {:induction false} DelaySaturates(n: nat)
    requires n >= 7
    ensures Delay(n) == MaxDelay
  {
    if n > 7 {
      DelaySaturates(n - 1);
    }
  }

  /** The bases of the first sleeps of one call: 200, 400, ..., 6400, then 10000. */
  lemma DelaySchedule()
    ensures Delay(1) == 200 && Delay(2) == 400 && Delay(3) == 800 && Delay(4) == 1600
    ensures Delay(5) == 3200 && Delay(6) == 6400 && Delay(7) == MaxDelay
  {
  }

  /** The base never decreases from one sleep to the next. */
  lemma DelayMonotone(n: nat)
    ensures Delay(n) <= Delay(n + 1)
  {
  }

  /** A sleep drawn for a base: the base plus a jitter in [0, base). */
  predicate JitteredWait(base: int, wait: int) {
    base <= wait < 2 * base
  }
}
