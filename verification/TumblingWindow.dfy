// The budget per tumbling window that tcbot/utils/error_reporter uses twice: for the log
// channel (ship.py) and for the owner's DMs (state.py). The window reopens at the first use
// after it has run out.
module TumblingWindow {
  import opened TimeLog

  /** The last `used` of the recorded uses belong to the open window; at most one budget more
      is younger than the start of the window before it. */
  predicate Paced(budget: nat, window: real, start: real, used: nat, clock: real, uses: seq<real>)
    requires budget >= 1 && window > 0.0
  {
    && used <= budget && used <= |uses| && start <= clock
    && Sorted(uses) && UpTo(uses, clock)
    && (forall i :: 0 <= i < |uses| - used ==> uses[i] <= start)
    && (forall i :: 0 <= i < |uses| - used - budget ==> uses[i] <= start - window)
    && Spaced(uses, 2 * budget, window)
  }

  lemma Waiting(budget: nat, window: real, start: real, used: nat, clock: real, uses: seq<real>, now: real)
    requires budget >= 1 && window > 0.0 && Paced(budget, window, start, used, clock, uses) && clock <= now
    ensures Paced(budget, window, start, used, now, uses)
  {
  }

  /** A window that has run out can be forgotten. */
  lemma Reopening(budget: nat, window: real, start: real, used: nat, clock: real, uses: seq<real>)
    requires budget >= 1 && window > 0.0 && Paced(budget, window, start, used, clock, uses)
    requires clock - start >= window
    ensures Paced(budget, window, clock, 0, clock, uses)
  {
  }

  lemma Using(budget: nat, window: real, start: real, used: nat, clock: real, uses: seq<real>)
    requires budget >= 1 && window > 0.0 && Paced(budget, window, start, used, clock, uses) && used < budget
    ensures Paced(budget, window, start, used + 1, clock, uses + [clock])
  {
    if |uses| >= 2 * budget {
      assert uses[|uses| - 2 * budget] <= clock - window;
    }
  }

  /** At most one budget since the window opened, and at most two budgets in any half-open
      span as long as a window. */
  lemma PacedBound(budget: nat, window: real, start: real, used: nat, clock: real, uses: seq<real>, from: real)
    requires budget >= 1 && window > 0.0 && Paced(budget, window, start, used, clock, uses)
    ensures |uses| > budget ==> uses[|uses| - budget - 1] <= start
    ensures CallsIn(uses, from, from + window) <= 2 * budget
  {
    SpacedBound(uses, 2 * budget, window, from);
  }
}
