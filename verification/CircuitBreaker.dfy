// tcbot/utils/circuit_breaker.py. Clock readings come in as arguments.
module CircuitBreaker {

  datatype Circuit = CLOSED | OPEN | HALF_OPEN

  datatype Config = Config(threshold: int, recovery: real)

  /** The mutable part of a breaker. */
  datatype Breaker = Breaker(state: Circuit, failures: nat, openedAt: real, probe: bool)

  const INITIAL := Breaker(CLOSED, 0, 0.0, false)

  /* ----- The operations on values ----- */

  /** Reading `state`. */
  function Observed(b: Breaker, c: Config, now: real): Breaker {
    if b.state == OPEN && now - b.openedAt >= c.recovery then b.(state := HALF_OPEN) else b
  }

  predicate Admits(b: Breaker, c: Config, now: real) {
    var o := Observed(b, c, now);
    o.state == CLOSED || (o.state == HALF_OPEN && !o.probe)
  }

  function Acquired(b: Breaker, c: Config, now: real): Breaker {
    var o := Observed(b, c, now);
    if o.state == HALF_OPEN && !o.probe then o.(probe := true) else o
  }

  function Released(b: Breaker): Breaker {
    b.(probe := false)
  }

  function Succeeded(b: Breaker): Breaker {
    Breaker(CLOSED, 0, b.openedAt, false)
  }

  function Failed(b: Breaker, c: Config, now: real): Breaker {
    if b.state == HALF_OPEN || b.failures + 1 >= c.threshold
    then Breaker(OPEN, b.failures + 1, now, false)
    else Breaker(b.state, b.failures + 1, b.openedAt, false)
  }

  function Reset(b: Breaker): Breaker {
    Breaker(CLOSED, 0, b.openedAt, false)
  }

  /** How an awaited call ends. */
  datatype Ending = Success | Error | Cancelled

  function Ended(b: Breaker, c: Config, ending: Ending, now: real): Breaker {
    match ending
    case Success => Succeeded(b)
    case Error => Failed(b, c, now)
    case Cancelled => Released(b)
  }

  /** Any use of a breaker, by any number of interleaved callers. */
  datatype Use =
    | ReadState(now: real)
    | Acquire(now: real)
    | Finish(ending: Ending, now: real)
    | ResetUse

  function Apply(b: Breaker, c: Config, u: Use): Breaker {
    match u
    case ReadState(now) => Observed(b, c, now)
    case Acquire(now) => Acquired(b, c, now)
    case Finish(ending, now) => Ended(b, c, ending, now)
    case ResetUse => Reset(b)
  }

  function ApplyAll(b: Breaker, c: Config, uses: seq<Use>): Breaker
    decreases |uses|
  {
    if uses == [] then b else ApplyAll(Apply(b, c, uses[0]), c, uses[1..])
  }

  /* ----- The class ----- */

  class CircuitBreaker {
    const config: Config
    var state: Circuit
    var failures: nat
    var openedAt: real
    var probe: bool

    function View(): Breaker
      reads this
    {
      Breaker(state, failures, openedAt, probe)
    }

    constructor (config: Config)
      ensures View() == INITIAL && this.config == config
    {
      this.config := config;
      state, failures, openedAt, probe := CLOSED, 0, 0.0, false;
    }

    /** The `state` property: the OPEN to HALF_OPEN transition is a side effect of reading. */
    method State(now: real) returns (s: Circuit)
      modifies this
      ensures View() == Observed(old(View()), config, now) && s == state
    {
      if state == OPEN && now - openedAt >= config.recovery {
        state := HALF_OPEN;
      }
      s := state;
    }

    method PeekState() returns (s: Circuit)
      ensures s == state
    {
      s := state;
    }

    method TryAcquire(now: real) returns (admitted: bool)
      modifies this
      ensures admitted == Admits(old(View()), config, now)
      ensures View() == Acquired(old(View()), config, now)
    {
      var s := State(now);
      if s == OPEN {
        return false;
      }
      if s == HALF_OPEN {
        if probe {
          return false;
        }
        probe := true;
      }
      return true;
    }

    method ReleaseProbe()
      modifies this
      ensures View() == Released(old(View()))
    {
      probe := false;
    }

    method RecordSuccess()
      modifies this
      ensures View() == Succeeded(old(View()))
    {
      state, failures := CLOSED, 0;
      ReleaseProbe();
    }

    method RecordFailure(now: real)
      modifies this
      ensures View() == Failed(old(View()), config, now)
    {
      failures := failures + 1;
      if state == HALF_OPEN {
        state, openedAt := OPEN, now;
      } else if failures >= config.threshold {
        state, openedAt := OPEN, now;
      }
      ReleaseProbe();
    }

    method ForceReset()
      modifies this
      ensures View() == Reset(old(View()))
    {
      state, failures := CLOSED, 0;
      ReleaseProbe();
    }

    /** One use by another caller. */
    method Perform(u: Use)
      modifies this
      ensures View() == Apply(old(View()), config, u)
    {
      match u
      case ReadState(now) => var s := State(now);
      case Acquire(now) => var admitted := TryAcquire(now);
      case Finish(ending, now) => Record(ending, now);
      case ResetUse => ForceReset();
    }

    /** The end of an awaited call. */
    method Record(ending: Ending, now: real)
      modifies this
      ensures View() == Ended(old(View()), config, ending, now)
    {
      match ending
      case Success => RecordSuccess();
      case Error => RecordFailure(now);
      case Cancelled => ReleaseProbe();
    }

    /** `call`; `meanwhile` is what other callers do while the coroutine is awaited. */
    method Call(start: real, meanwhile: seq<Use>, ending: Ending, finish: real) returns (admitted: bool)
      modifies this
      ensures admitted == Admits(old(View()), config, start)
      ensures var acquired := Acquired(old(View()), config, start);
              View() == if admitted then Ended(ApplyAll(acquired, config, meanwhile), config, ending, finish)
                        else acquired
    {
      admitted := TryAcquire(start);
      if admitted {
        for i := 0 to |meanwhile|
          invariant ApplyAll(View(), config, meanwhile[i..])
                 == ApplyAll(Acquired(old(View()), config, start), config, meanwhile)
        {
          assert meanwhile[i..][1..] == meanwhile[i + 1..];
          Perform(meanwhile[i]);
        }
        Record(ending, finish);
      }
    }
  }

  /* ----- What every run keeps ----- */

  predicate Consistent(b: Breaker, c: Config) {
    && (b.state == CLOSED <==> b.failures < c.threshold)
    && (b.probe ==> b.state == HALF_OPEN)
  }

  lemma {:induction false} UsesKeepConsistent(b: Breaker, c: Config, uses: seq<Use>)
    requires c.threshold >= 1 && Consistent(b, c)
    ensures Consistent(ApplyAll(b, c, uses), c)
    decreases |uses|
  {
    if uses != [] {
      assert Consistent(Apply(b, c, uses[0]), c);
      UsesKeepConsistent(Apply(b, c, uses[0]), c, uses[1..]);
    }
  }

  /* ----- The state, read off the uses alone ----- */

  /** Error endings since the last success or reset. */
  function Streak(uses: seq<Use>): nat {
    if uses == [] then 0
    else
      var last := uses[|uses| - 1];
      if last.ResetUse? || (last.Finish? && last.ending == Success) then 0
      else Streak(uses[..|uses| - 1]) + if last.Finish? && last.ending == Error then 1 else 0
  }

  /** The moment of the last error ending. */
  function LastError(uses: seq<Use>): real {
    if uses == [] then 0.0
    else
      var last := uses[|uses| - 1];
      if last.Finish? && last.ending == Error then last.now else LastError(uses[..|uses| - 1])
  }

  lemma {:induction false} ApplyAllSnoc(b: Breaker, c: Config, uses: seq<Use>, u: Use)
    ensures ApplyAll(b, c, uses + [u]) == Apply(ApplyAll(b, c, uses), c, u)
    decreases |uses|
  {
    if uses == [] {
      assert [] + [u] == [u] && [u][1..] == [];
    } else {
      assert (uses + [u])[1..] == uses[1..] + [u];
      ApplyAllSnoc(Apply(b, c, uses[0]), c, uses[1..], u);
    }
  }

  /** After any uses of a new breaker, the failure count is the number of errors since the last
      success or reset; so it is CLOSED exactly while these are fewer than the threshold, and
      otherwise the recovery period runs from the last error. */
  lemma {:induction false} BreakerCountsTheStreak(c: Config, uses: seq<Use>)
    requires c.threshold >= 1
    ensures var b := ApplyAll(INITIAL, c, uses);
            && b.failures == Streak(uses)
            && (b.state == CLOSED <==> Streak(uses) < c.threshold)
            && (b.state != CLOSED ==> b.openedAt == LastError(uses))
    decreases |uses|
  {
    UsesKeepConsistent(INITIAL, c, uses);
    if uses != [] {
      var n := |uses| - 1;
      assert uses == uses[..n] + [uses[n]];
      UsesKeepConsistent(INITIAL, c, uses[..n]);
      BreakerCountsTheStreak(c, uses[..n]);
      ApplyAllSnoc(INITIAL, c, uses[..n], uses[n]);
    }
  }

  lemma {:induction false} StreakOfErrors(uses: seq<Use>, errors: seq<Use>)
    requires forall u :: u in errors ==> u.Finish? && u.ending == Error
    ensures Streak(uses + errors) == Streak(uses) + |errors|
  {
    if errors == [] {
      assert uses + errors == uses;
    } else {
      var n := |errors| - 1;
      assert (uses + errors)[..|uses| + n] == uses + errors[..n];
      assert errors[n] in errors && forall u :: u in errors[..n] ==> u in errors;
      StreakOfErrors(uses, errors[..n]);
    }
  }

  /** A success or a reset starts afresh: the next call is admitted, fewer than `threshold`
      errors in a row leave the breaker CLOSED, and the threshold-th opens it, for one recovery
      period from that error on. */
  lemma RecoveryStartsAfresh(c: Config, uses: seq<Use>, good: Use, errors: seq<Use>, now: real)
    requires c.threshold >= 1 && (good.ResetUse? || (good.Finish? && good.ending == Success))
    requires forall u :: u in errors ==> u.Finish? && u.ending == Error
    ensures var b := ApplyAll(INITIAL, c, uses + [good] + errors);
            && (|errors| < c.threshold ==> b.state == CLOSED && Admits(b, c, now))
            && (|errors| == c.threshold ==>
                  b.state == OPEN && (Admits(b, c, now) <==> now - errors[|errors| - 1].now >= c.recovery))
  {
    var all := uses + [good] + errors;
    assert (uses + [good])[..|uses|] == uses;
    StreakOfErrors(uses + [good], errors);
    BreakerCountsTheStreak(c, all);
    if |errors| == c.threshold {
      var n := |all| - 1;
      assert errors[|errors| - 1] in errors && all[n] == errors[|errors| - 1] && all == all[..n] + [all[n]];
      ApplyAllSnoc(INITIAL, c, all[..n], all[n]);
    }
  }

  /** Reading the state is what lets a broken circuit recover: a recovery period after the last
      error it shows HALF_OPEN, and shows CLOSED exactly while the errors in a row are too few. */
  lemma ReadingShowsRecovery(c: Config, uses: seq<Use>, now: real)
    requires c.threshold >= 1
    ensures var b := ApplyAll(INITIAL, c, uses + [ReadState(now)]);
            && (b.state == CLOSED <==> Streak(uses) < c.threshold)
            && (Streak(uses) >= c.threshold && now >= LastError(uses) + c.recovery ==> b.state == HALF_OPEN)
  {
    BreakerCountsTheStreak(c, uses);
    ApplyAllSnoc(INITIAL, c, uses, ReadState(now));
  }

  /** Between two record, release or reset events there is only reading and acquiring. */
  predicate NoEvent(uses: seq<Use>) {
    forall u :: u in uses ==> u.ReadState? || u.Acquire?
  }

  /** The calls that are admitted as probes. */
  function Probes(b: Breaker, c: Config, uses: seq<Use>): nat
    decreases |uses|
  {
    if uses == [] then 0
    else
      var u := uses[0];
      (if u.Acquire? && Observed(b, c, u.now).state == HALF_OPEN && Admits(b, c, u.now) then 1 else 0)
      + Probes(Apply(b, c, u), c, uses[1..])
  }

  predicate ProbeInFlight(b: Breaker) {
    b.state == HALF_OPEN && b.probe
  }

  /** Between two events at most one probe is admitted, and none while one is in flight. */
  lemma {:induction false} OneProbeBetweenEvents(b: Breaker, c: Config, uses: seq<Use>)
    requires NoEvent(uses)
    ensures Probes(b, c, uses) <= if ProbeInFlight(b) then 0 else 1
    ensures ProbeInFlight(b) ==> ProbeInFlight(ApplyAll(b, c, uses))
    decreases |uses|
  {
    if uses != [] {
      assert uses[0] in uses && forall u :: u in uses[1..] ==> u in uses;
      OneProbeBetweenEvents(Apply(b, c, uses[0]), c, uses[1..]);
    }
  }

  /** Any event ends the probe, even one of a call that was admitted while CLOSED: some later
      call is admitted although the probe has not been recorded. */
  lemma AnyEventEndsTheProbe(b: Breaker, c: Config, event: Use)
    requires ProbeInFlight(b) && (event.Finish? || event.ResetUse?)
    ensures exists now :: Admits(Apply(b, c, event), c, now)
  {
    var b' := Apply(b, c, event);
    assert Admits(b', c, b'.openedAt + (if c.recovery > 0.0 then c.recovery else 0.0));
  }

  /** In every reachable state the breaker is CLOSED exactly when it has counted fewer
      failures than its threshold, and a probe in flight means HALF_OPEN; for exactly the
      configurations whose threshold is positive. */
  lemma ReachableStatesAreConsistent(c: Config)
    ensures c.threshold >= 1 <==> forall uses: seq<Use> :: Consistent(ApplyAll(INITIAL, c, uses), c)
  {
    if c.threshold >= 1 {
      forall uses: seq<Use>
        ensures Consistent(ApplyAll(INITIAL, c, uses), c)
      {
        UsesKeepConsistent(INITIAL, c, uses);
      }
    } else {
      assert !Consistent(ApplyAll(INITIAL, c, []), c);
    }
  }

  /* ----- One-at-a-time failing calls ----- */

  /** One call that fails: it asks at `start` and, if admitted, fails at `finish`. */
  datatype Attempt = Attempt(start: real, finish: real)

  /** Calls one after the other, from time `t` on. */
  predicate InOrder(attempts: seq<Attempt>, t: real) {
    attempts == [] ||
    (t <= attempts[0].start <= attempts[0].finish && InOrder(attempts[1..], attempts[0].finish))
  }

  function End(attempts: seq<Attempt>, t: real): real {
    if attempts == [] then t else End(attempts[1..], attempts[0].finish)
  }

  function AfterAttempt(b: Breaker, c: Config, a: Attempt): Breaker {
    if Admits(b, c, a.start) then Failed(Acquired(b, c, a.start), c, a.finish) else Acquired(b, c, a.start)
  }

  /** How many of the calls are admitted. */
  function Admitted(b: Breaker, c: Config, attempts: seq<Attempt>): nat
    decreases |attempts|
  {
    if attempts == [] then 0
    else
      (if Admits(b, c, attempts[0].start) then 1 else 0)
      + Admitted(AfterAttempt(b, c, attempts[0]), c, attempts[1..])
  }

  /** `n` recovery periods. */
  function Periods(n: int, recovery: real): real {
    n as real * recovery
  }

  lemma PeriodsNext(n: int, recovery: real)
    ensures Periods(n + 1, recovery) == Periods(n, recovery) + recovery
  {
  }

  lemma NoPeriods(n: int, recovery: real)
    requires n <= 0 && recovery >= 0.0
    ensures Periods(n, recovery) <= 0.0
  {
  }

  /** The calls that are still free before the breaker opens. */
  function Free(b: Breaker, c: Config): int {
    if b.state == CLOSED then c.threshold - b.failures else 0
  }

  function Since(b: Breaker, t: real): real {
    if b.state == CLOSED then t else b.openedAt
  }

  predicate Resting(b: Breaker, c: Config, t: real) {
    && Consistent(b, c) && !b.probe && b.state != HALF_OPEN
    && (b.state == OPEN ==> b.openedAt <= t)
  }

  lemma AttemptStep(b: Breaker, c: Config, a: Attempt, t: real)
    requires c.threshold >= 1 && Resting(b, c, t) && t <= a.start <= a.finish
    ensures Resting(AfterAttempt(b, c, a), c, a.finish)
    ensures var b' := AfterAttempt(b, c, a);
            if !Admits(b, c, a.start) then b' == b && b.state == OPEN
            else if b.state == CLOSED then Free(b', c) == Free(b, c) - 1 && Since(b', a.finish) == a.finish
            else Free(b', c) == 0 && Since(b', a.finish) >= Since(b, t) + c.recovery
    ensures b.state == OPEN ==> (Admits(b, c, a.start) <==> a.start - b.openedAt >= c.recovery)
  {
  }

  /** From an OPEN breaker every admitted call needs a recovery period of its own; before
      that, the calls that are left until the threshold are free. */
  lemma {:induction false} AdmittedBound(b: Breaker, c: Config, attempts: seq<Attempt>, t: real)
    requires c.threshold >= 1 && c.recovery >= 0.0 && Resting(b, c, t) && InOrder(attempts, t)
    ensures End(attempts, t) >= t
    ensures Periods(Admitted(b, c, attempts) - Free(b, c), c.recovery) <= End(attempts, t) - Since(b, t)
    decreases |attempts|
  {
    if attempts == [] {
      NoPeriods(-Free(b, c), c.recovery);
    } else {
      var a := attempts[0];
      var b' := AfterAttempt(b, c, a);
      AttemptStep(b, c, a, t);
      AdmittedBound(b', c, attempts[1..], a.finish);
      PeriodsNext(Admitted(b', c, attempts[1..]), c.recovery);
    }
  }

  lemma FloorBound(n: int, elapsed: real, recovery: real)
    requires recovery > 0.0 && Periods(n, recovery) <= elapsed
    ensures n <= (elapsed / recovery).Floor
  {
    assert n as real <= elapsed / recovery;
  }

  /** Run bound: over any sequence of one-at-a-time failing calls on a new breaker, at most
      threshold + floor(elapsed / recovery) are admitted. */
  lemma BreakerRunBound(c: Config, attempts: seq<Attempt>, t: real)
    requires c.threshold >= 1 && c.recovery > 0.0 && InOrder(attempts, t)
    ensures Admitted(INITIAL, c, attempts) <= c.threshold + ((End(attempts, t) - t) / c.recovery).Floor
  {
    AdmittedBound(INITIAL, c, attempts, t);
    FloorBound(Admitted(INITIAL, c, attempts) - c.threshold, End(attempts, t) - t, c.recovery);
  }
}
