/**
 * The clock of the selection tools' polling loop: the session is read every
 * half second until a selection is seen or fifteen minutes have passed
 * since the tool started.
 */
module Polling {

  /** `timeoutMs`: fifteen minutes. */
  const Timeout := 15 * 60 * 1000

  /** The pause after each check. */
  const PollInterval := 500

  /** The most checks that fit before the deadline. */
  const MaxChecks := 1800

  /**
   * `now(k)` is the clock reading that decides whether check `k` happens;
   * between two readings the loop has slept at least one interval.
   */
  ghost predicate Paced(now: nat -> int)
  {
    forall k: nat :: now(k + 1) >= now(k) + PollInterval
  }

  /** After `k` checks the clock has moved on by at least `k` intervals. */
  lemma {:induction false} ClockAdvances(now: nat -> int, k: nat)
    requires Paced(now)
    ensures now(k) >= now(0) + PollInterval * k
  {
    if k > 0 {
      ClockAdvances(now, k - 1);
      assert now(k) >= now(k - 1) + PollInterval;
    }
  }

  /** No check numbered 1800 or more can happen before the deadline. */
  lemma ChecksBounded(now: nat -> int, start: int, k: nat)
    requires Paced(now) && now(0) >= start && now(k) - start < Timeout
    ensures k < MaxChecks
  {
    ClockAdvances(now, k);
  }
}
