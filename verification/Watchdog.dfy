/** The run watchdog: one re-armed timer that enforces an idle and a hard deadline. */
module Watchdog {
  import opened Prelude

  datatype Cancellation = IdleTimeout | ExecutionTimeout

  const MIN_DELAY: nat := 50
  const MAX_DELAY: nat := 60000

  /** lastActivityMs() as a function of the time of the call. */
  ghost predicate Monotone(activity: nat -> nat) {
    forall s, t :: s <= t ==> activity(s) <= activity(t)
  }

  /**
   * armRunTimer from its start until it cancels the run. The timer armed at `t` fires
   * `late(t)` after its delay, at most `slack` late. Either a hard deadline is set or no
   * activity is later than `lastEver`.
   *
   * Whatever the reason, the run is cancelled less than 50 ms plus the slack after the idle
   * deadline of its latest activity, unless that has passed at the start, and equally soon after
   * the hard deadline; for idleness no earlier than the one, for its execution time no earlier
   * than the other, which takes precedence when both have passed.
   */
  method ArmRunTimer(start: nat, idleTimeout: nat, executionTimeout: Option<nat>, activity: nat -> nat,
                     late: nat -> nat, ghost slack: nat, ghost lastEver: nat)
    returns (at: nat, why: Cancellation)
    requires Monotone(activity) && forall t :: late(t) <= slack
    requires executionTimeout.None? ==> forall t :: activity(t) <= lastEver
    ensures at == start || start < at < activity(at) + idleTimeout + MIN_DELAY + slack
    ensures executionTimeout.Some? ==> at < start + executionTimeout.value + MIN_DELAY + slack
    ensures why == IdleTimeout ==> activity(at) + idleTimeout <= at
    ensures why == ExecutionTimeout <==> executionTimeout.Some? && start + executionTimeout.value <= at
  {
    var hardDeadline := if executionTimeout.Some? then Some(start + executionTimeout.value) else None;
    var now := start;
    ghost var horizon := MIN_DELAY + slack +
      if hardDeadline.Some? then hardDeadline.value else lastEver + idleTimeout;
    while true
      invariant now == start || start < now < activity(now) + idleTimeout + MIN_DELAY + slack
      invariant hardDeadline.Some? ==> now < hardDeadline.value + MIN_DELAY + slack
      decreases horizon - now
    {
      var idleDeadline := activity(now) + idleTimeout;
      if hardDeadline.Some? && now >= hardDeadline.value {
        return now, ExecutionTimeout;
      }
      if now >= idleDeadline {
        return now, IdleTimeout;
      }
      var nextDeadline := if hardDeadline.Some? then Min(idleDeadline, hardDeadline.value) else idleDeadline;
      var delay := Max(MIN_DELAY, Min(nextDeadline - now, MAX_DELAY));
      assert activity(now) <= activity(now + delay + late(now));
      now := now + delay + late(now);
    }
  }

  /** A run whose last activity is at `lastEver` is cancelled within 50 ms and the slack of that idle deadline. */
  method SilentRunIsCancelled(start: nat, idleTimeout: nat, executionTimeout: Option<nat>, activity: nat -> nat,
                              late: nat -> nat, ghost slack: nat, ghost lastEver: nat)
    returns (at: nat, why: Cancellation)
    requires Monotone(activity) && forall t :: late(t) <= slack
    requires forall t :: activity(t) <= lastEver
    requires start < lastEver + idleTimeout
    ensures at < lastEver + idleTimeout + MIN_DELAY + slack
    ensures executionTimeout.Some? ==> at < start + executionTimeout.value + MIN_DELAY + slack
  {
    at, why := ArmRunTimer(start, idleTimeout, executionTimeout, activity, late, slack, lastEver);
  }
}
