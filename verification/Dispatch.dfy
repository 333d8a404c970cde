// tcbot/utils/dispatch.py: `fan_out` and `gather_bounded` as a step relation. A slot waits
// for the semaphore, runs its coroutine or closes it, and leaves a result; any schedule of
// the slots is a sequence of steps.
module Dispatch {
  import opened CircuitBreaker
  import opened Wrappers

  /** How a coroutine ends. BadRequest is a NetworkError for the library, but an API
      refusal for the circuit. */
  datatype Ended = Returned | TimedOut | OtherNetworkError | BadRequest | OtherError | CancelledError

  /** A result list element; it names the coroutine that produced it. */
  datatype Outcome = From(coro: nat, ending: Ended) | Skipped(coro: nat)

  datatype Slot = Waiting | Running | Done(outcome: Outcome)

  /** A fan-out over `|slots|` coroutines; `guarded` tells fan_out from gather_bounded. */
  datatype Setup = Setup(config: Config, maxConcurrent: int, guarded: bool) {
    /** The semaphore: `max_concurrent`, at least one. */
    function Width(): (w: nat)
      ensures w >= 1 && (maxConcurrent >= 1 ==> w == maxConcurrent)
    {
      if maxConcurrent < 1 then 1 else maxConcurrent
    }
  }

  datatype State = State(clock: real, breaker: Breaker, slots: seq<Slot>)

  datatype Action =
    | Wait(delta: real)
    | Enter(i: nat)
    | Leave(i: nat, ending: Ended)

  function Start(clock: real, breaker: Breaker, n: nat): State {
    State(clock, breaker, seq(n, _ => Waiting))
  }

  predicate Counted(ending: Ended) {
    ending == TimedOut || ending == OtherNetworkError
  }

  /** What a slot can be counted as: running now; awaited, that is not closed; or awaited
      and ended in a way that the circuit takes neither as a failure nor as a recovery. */
  datatype Kind = IsRunning | IsAwaited | IsRefused

  predicate Is(kind: Kind, slot: Slot) {
    match kind
    case IsRunning => slot.Running?
    case IsAwaited => slot.Running? || (slot.Done? && slot.outcome.From?)
    case IsRefused =>
      slot.Done? && slot.outcome.From? && slot.outcome.ending != Returned && !Counted(slot.outcome.ending)
  }

  function Count(slots: seq<Slot>, kind: Kind): nat {
    if slots == [] then 0 else (if Is(kind, slots[0]) then 1 else 0) + Count(slots[1..], kind)
  }

  predicate Enabled(s: State, u: Setup, a: Action) {
    match a
    case Wait(delta) => delta >= 0.0
    case Enter(i) => i < |s.slots| && s.slots[i] == Waiting && Count(s.slots, IsRunning) < u.Width()
    case Leave(i, _) => i < |s.slots| && s.slots[i] == Running
  }

  function Recorded(b: Breaker, c: Config, ending: Ended, now: real): Breaker {
    if ending == Returned then Succeeded(b)
    else if Counted(ending) then Failed(b, c, now)
    else Released(b)
  }

  function Apply(s: State, u: Setup, a: Action): State
    requires Enabled(s, u, a)
  {
    match a
    case Wait(delta) => s.(clock := s.clock + delta)
    case Enter(i) =>
      if u.guarded then
        s.(breaker := Acquired(s.breaker, u.config, s.clock),
           slots := s.slots[i := if Admits(s.breaker, u.config, s.clock) then Running else Done(Skipped(i))])
      else s.(slots := s.slots[i := Running])
    case Leave(i, ending) =>
      s.(breaker := if u.guarded then Recorded(s.breaker, u.config, ending, s.clock) else s.breaker,
         slots := s.slots[i := Done(From(i, ending))])
  }

  function Run(s: State, u: Setup, actions: seq<Action>): Option<State>
    decreases |actions|
  {
    if actions == [] then Some(s)
    else if Enabled(s, u, actions[0]) then Run(Apply(s, u, actions[0]), u, actions[1..])
    else None
  }

  lemma {:induction false} CountUpdate(slots: seq<Slot>, kind: Kind, i: nat, slot: Slot)
    requires i < |slots|
    ensures Count(slots[i := slot], kind)
         == Count(slots, kind) - (if Is(kind, slots[i]) then 1 else 0) + (if Is(kind, slot) then 1 else 0)
  {
    if i > 0 {
      CountUpdate(slots[1..], kind, i - 1, slot);
      assert slots[i := slot][1..] == slots[1..][i - 1 := slot];
    } else {
      assert slots[i := slot][1..] == slots[1..];
    }
  }

  lemma {:induction false} CountWaiting(n: nat, kind: Kind)
    ensures Count(seq(n, _ => Waiting), kind) == 0
  {
    if n > 0 {
      assert seq(n, _ => Waiting)[1..] == seq(n - 1, _ => Waiting);
      CountWaiting(n - 1, kind);
    }
  }

  /* ----- What every schedule keeps ----- */

  /** At most `width` coroutines run at once, and result i belongs to coroutine i. */
  predicate Orderly(s: State, u: Setup, n: nat) {
    && |s.slots| == n
    && Count(s.slots, IsRunning) <= u.Width()
    && forall i :: 0 <= i < n && s.slots[i].Done? ==> s.slots[i].outcome.coro == i
  }

  lemma StepKeepsOrderly(s: State, u: Setup, n: nat, a: Action)
    requires Orderly(s, u, n) && Enabled(s, u, a)
    ensures Orderly(Apply(s, u, a), u, n)
  {
    if !a.Wait? {
      CountUpdate(s.slots, IsRunning, a.i, Apply(s, u, a).slots[a.i]);
    }
  }

  lemma {:induction false} RunKeepsOrderly(s: State, u: Setup, n: nat, actions: seq<Action>)
    requires Orderly(s, u, n) && Run(s, u, actions).Some?
    ensures Orderly(Run(s, u, actions).value, u, n)
    decreases |actions|
  {
    if actions != [] {
      StepKeepsOrderly(s, u, n, actions[0]);
      RunKeepsOrderly(Apply(s, u, actions[0]), u, n, actions[1..]);
    }
  }

  lemma FanOutIsOrderly(clock: real, breaker: Breaker, n: nat, u: Setup, actions: seq<Action>)
    requires Run(Start(clock, breaker, n), u, actions).Some?
    ensures Orderly(Run(Start(clock, breaker, n), u, actions).value, u, n)
  {
    CountWaiting(n, IsRunning);
    RunKeepsOrderly(Start(clock, breaker, n), u, n, actions);
  }

  lemma {:induction false} NoneRunning(slots: seq<Slot>)
    requires forall i :: 0 <= i < |slots| ==> !slots[i].Running?
    ensures Count(slots, IsRunning) == 0
  {
    if slots != [] {
      NoneRunning(slots[1..]);
    }
  }

  /** No schedule gets stuck: until every slot is done, some slot can enter or leave. */
  lemma FanOutNeverStalls(s: State, u: Setup) returns (a: Action)
    requires exists i :: 0 <= i < |s.slots| && !s.slots[i].Done?
    ensures Enabled(s, u, a) && !a.Wait?
  {
    if i :| 0 <= i < |s.slots| && s.slots[i].Running? {
      a := Leave(i, Returned);
    } else {
      NoneRunning(s.slots);
      var k :| 0 <= k < |s.slots| && !s.slots[k].Done?;
      a := Enter(k);
    }
  }

  /** The breaker is still `b`, and every coroutine that came to its turn was awaited. */
  predicate NothingSkipped(s: State, b: Breaker) {
    s.breaker == b && forall i :: 0 <= i < |s.slots| ==> !(s.slots[i].Done? && s.slots[i].outcome.Skipped?)
  }

  lemma {:induction false} Extend(s: State, u: Setup, actions: seq<Action>, a: Action)
    requires Run(s, u, actions).Some? && Enabled(Run(s, u, actions).value, u, a)
    ensures Run(s, u, actions + [a]) == Some(Apply(Run(s, u, actions).value, u, a))
    decreases |actions|
  {
    if actions == [] {
      assert actions + [a] == [a] && [a][1..] == [];
    } else {
      assert (actions + [a])[1..] == actions[1..] + [a];
      Extend(Apply(s, u, actions[0]), u, actions[1..], a);
    }
  }

  /** The whole width is used: with a closed breaker, as many coroutines as `max_concurrent`, at
      least one, can be running at the same time. */
  lemma AllRunTogether(clock: real, breaker: Breaker, n: nat, u: Setup) returns (actions: seq<Action>, s: State)
    requires breaker.state == CLOSED && (n <= 1 || n <= u.maxConcurrent)
    ensures Run(Start(clock, breaker, n), u, actions) == Some(s)
    ensures |s.slots| == n && forall i :: 0 <= i < n ==> s.slots[i] == Running
  {
    actions, s := [], Start(clock, breaker, n);
    CountWaiting(n, IsRunning);
    for k := 0 to n
      invariant Run(Start(clock, breaker, n), u, actions) == Some(s) && s.breaker == breaker && |s.slots| == n
      invariant forall i :: 0 <= i < n ==> s.slots[i] == if i < k then Running else Waiting
      invariant Count(s.slots, IsRunning) == k
    {
      Extend(Start(clock, breaker, n), u, actions, Enter(k));
      CountUpdate(s.slots, IsRunning, k, Running);
      actions, s := actions + [Enter(k)], Apply(s, u, Enter(k));
    }
  }

  /** gather_bounded neither reads nor touches the breaker. */
  lemma {:induction false} GatherBoundedIgnoresTheBreaker(s: State, u: Setup, b: Breaker, actions: seq<Action>)
    requires !u.guarded && NothingSkipped(s, b) && Run(s, u, actions).Some?
    ensures NothingSkipped(Run(s, u, actions).value, b)
    decreases |actions|
  {
    if actions != [] {
      GatherBoundedIgnoresTheBreaker(Apply(s, u, actions[0]), u, b, actions[1..]);
    }
  }

  /* ----- What the circuit sees, read off the schedule alone ----- */

  /** The failures in a row: timeouts and network errors other than BadRequest since the last call
      that returned. Refusals, other exceptions and cancellations in between do not matter. */
  function FailuresInARow(actions: seq<Action>): nat {
    if actions == [] then 0
    else
      var n := |actions| - 1;
      match actions[n]
      case Leave(_, Returned) => 0
      case Leave(_, TimedOut) => FailuresInARow(actions[..n]) + 1
      case Leave(_, OtherNetworkError) => FailuresInARow(actions[..n]) + 1
      case _ => FailuresInARow(actions[..n])
  }

  /** The clock after a schedule that starts at `start`. */
  function Clock(start: real, actions: seq<Action>): real {
    if actions == [] then start
    else
      var n := |actions| - 1;
      Clock(start, actions[..n]) + if actions[n].Wait? then actions[n].delta else 0.0
  }

  /** The clock at the last timeout or network error. */
  function FailedAt(start: real, actions: seq<Action>): real {
    if actions == [] then start
    else
      var n := |actions| - 1;
      if actions[n].Leave? && (actions[n].ending == TimedOut || actions[n].ending == OtherNetworkError) then
        Clock(start, actions)
      else FailedAt(start, actions[..n])
  }

  lemma {:induction false} RunSnoc(s: State, u: Setup, actions: seq<Action>, a: Action)
    requires Run(s, u, actions + [a]).Some?
    ensures Run(s, u, actions).Some? && Enabled(Run(s, u, actions).value, u, a)
    ensures Run(s, u, actions + [a]).value == Apply(Run(s, u, actions).value, u, a)
    decreases |actions|
  {
    if actions == [] {
      assert actions + [a] == [a] && [a][1..] == [];
    } else {
      assert (actions + [a])[0] == actions[0] && (actions + [a])[1..] == actions[1..] + [a];
      hide Enabled;
      RunSnoc(Apply(s, u, actions[0]), u, actions[1..], a);
    }
  }

  /** What the breaker knows of the schedule. */
  predicate Remembers(s: State, u: Setup, start: real, actions: seq<Action>) {
    && Consistent(s.breaker, u.config)
    && s.clock == Clock(start, actions)
    && s.breaker.failures == FailuresInARow(actions)
    && (s.breaker.state != CLOSED ==> s.breaker.openedAt == FailedAt(start, actions))
    && (s.breaker.state == HALF_OPEN ==> s.clock - s.breaker.openedAt >= u.config.recovery)
  }

  predicate Fresh(b: Breaker) {
    b.state == CLOSED && b.failures == 0 && !b.probe
  }

  lemma {:induction false} RunIsRemembered(start: real, breaker: Breaker, n: nat, u: Setup, actions: seq<Action>)
    requires u.guarded && u.config.threshold >= 1 && Fresh(breaker)
    requires Run(Start(start, breaker, n), u, actions).Some?
    ensures Remembers(Run(Start(start, breaker, n), u, actions).value, u, start, actions)
    decreases |actions|
  {
    if actions != [] {
      var k := |actions| - 1;
      assert actions == actions[..k] + [actions[k]];
      hide Run, Start;
      RunSnoc(Start(start, breaker, n), u, actions[..k], actions[k]);
      RunIsRemembered(start, breaker, n, u, actions[..k]);
      StepIsRemembered(Run(Start(start, breaker, n), u, actions[..k]).value, u, start, actions[..k], actions[k]);
    }
  }

  lemma StepIsRemembered(s: State, u: Setup, start: real, actions: seq<Action>, a: Action)
    requires u.guarded && u.config.threshold >= 1 && Enabled(s, u, a) && Remembers(s, u, start, actions)
    ensures Remembers(Apply(s, u, a), u, start, actions + [a])
  {
    assert (actions + [a])[..|actions|] == actions;
  }

  /** On a fresh breaker, whatever the schedule: a coroutine is awaited exactly when fewer than
      `threshold` calls failed in a row, or a recovery period has passed since the last failure
      and no probe is in flight; otherwise it is skipped. */
  lemma SkippedExactlyWhen(start: real, breaker: Breaker, n: nat, u: Setup, actions: seq<Action>, s: State, i: nat)
    requires u.guarded && u.config.threshold >= 1 && Fresh(breaker)
    requires Run(Start(start, breaker, n), u, actions) == Some(s) && Enabled(s, u, Enter(i))
    ensures Apply(s, u, Enter(i)).slots[i]
         == if || FailuresInARow(actions) < u.config.threshold
               || (s.clock >= FailedAt(start, actions) + u.config.recovery && !s.breaker.probe) then Running
            else Done(Skipped(i))
  {
    RunIsRemembered(start, breaker, n, u, actions);
  }

  /** `threshold` network errors in a row, of whatever two kinds, open the circuit; a schedule
      with fewer leaves it closed. */
  lemma FailuresOpenTheCircuit(start: real, breaker: Breaker, n: nat, u: Setup, actions: seq<Action>, s: State)
    requires u.guarded && u.config.threshold >= 1 && Fresh(breaker)
    requires Run(Start(start, breaker, n), u, actions) == Some(s)
    ensures s.breaker.failures == FailuresInARow(actions)
    ensures s.breaker.state == CLOSED <==> FailuresInARow(actions) < u.config.threshold
  {
    RunIsRemembered(start, breaker, n, u, actions);
  }

  predicate IsRefusal(ending: Ended) {
    ending == BadRequest || ending == OtherError || ending == CancelledError
  }

  /** API refusals, other exceptions and cancellations never touch the count: if no call ends
      otherwise, a closed breaker stays as it is and nothing is skipped. */
  lemma {:induction false} RefusalsSkipNothing(s: State, u: Setup, actions: seq<Action>)
    requires s.breaker.state == CLOSED && !s.breaker.probe && Run(s, u, actions).Some?
    requires forall a :: a in actions && a.Leave? ==> IsRefusal(a.ending)
    requires NothingSkipped(s, s.breaker)
    ensures NothingSkipped(Run(s, u, actions).value, s.breaker)
    decreases |actions|
  {
    if actions != [] {
      assert actions[0] in actions && forall a :: a in actions[1..] ==> a in actions;
      RefusalsSkipNothing(Apply(s, u, actions[0]), u, actions[1..]);
    }
  }

  /* ----- The damage bound ----- */

  predicate NoSuccess(actions: seq<Action>) {
    forall a :: a in actions ==> !(a.Leave? && a.ending == Returned)
  }

  /** With no success so far: the breaker has counted every failure, so every awaited
      coroutine is a failure, a refusal or still running; and it is not HALF_OPEN. */
  predicate Damage(s: State, u: Setup, t: real) {
    && Consistent(s.breaker, u.config)
    && t <= s.clock
    && (s.breaker.state == CLOSED || (s.breaker.state == OPEN && t <= s.breaker.openedAt <= s.clock))
    && Count(s.slots, IsRunning) <= u.Width()
    && Count(s.slots, IsAwaited) == s.breaker.failures + Count(s.slots, IsRefused) + Count(s.slots, IsRunning)
    && Count(s.slots, IsAwaited) <= u.config.threshold + u.Width() - 1 + Count(s.slots, IsRefused)
  }

  lemma StepKeepsDamage(s: State, u: Setup, t: real, a: Action)
    requires u.guarded && u.config.threshold >= 1
    requires Damage(s, u, t) && Enabled(s, u, a) && s.clock - t < u.config.recovery
    requires !(a.Leave? && a.ending == Returned)
    ensures Damage(Apply(s, u, a), u, t)
  {
    if !a.Wait? {
      var slot := Apply(s, u, a).slots[a.i];
      CountUpdate(s.slots, IsRunning, a.i, slot);
      CountUpdate(s.slots, IsAwaited, a.i, slot);
      CountUpdate(s.slots, IsRefused, a.i, slot);
    }
  }

  lemma {:induction false} ClockAdvances(s: State, u: Setup, actions: seq<Action>)
    requires Run(s, u, actions).Some?
    ensures Run(s, u, actions).value.clock >= s.clock
    decreases |actions|
  {
    if actions != [] {
      ClockAdvances(Apply(s, u, actions[0]), u, actions[1..]);
    }
  }

  lemma {:induction false} RunKeepsDamage(s: State, u: Setup, t: real, actions: seq<Action>)
    requires u.guarded && u.config.threshold >= 1
    requires Damage(s, u, t) && NoSuccess(actions)
    requires Run(s, u, actions).Some? && Run(s, u, actions).value.clock - t < u.config.recovery
    ensures Damage(Run(s, u, actions).value, u, t)
    decreases |actions|
  {
    if actions != [] {
      ClockAdvances(s, u, actions);
      StepKeepsDamage(s, u, t, actions[0]);
      assert forall a :: a in actions[1..] ==> a in actions;
      RunKeepsDamage(Apply(s, u, actions[0]), u, t, actions[1..]);
    }
  }

  /** From a closed breaker with no failures, as long as nothing succeeds and the recovery
      timeout does not elapse, any schedule awaits at most threshold + width - 1 coroutines
      beyond those that the API merely refused. */
  lemma FanOutDamageBound(clock: real, breaker: Breaker, n: nat, u: Setup, actions: seq<Action>, s: State)
    requires u.guarded && u.config.threshold >= 1
    requires Fresh(breaker)
    requires Run(Start(clock, breaker, n), u, actions) == Some(s) && NoSuccess(actions)
    requires s.clock - clock < u.config.recovery
    ensures Count(s.slots, IsAwaited) <= u.config.threshold + u.Width() - 1 + Count(s.slots, IsRefused)
  {
    CountWaiting(n, IsRunning);
    CountWaiting(n, IsAwaited);
    CountWaiting(n, IsRefused);
    RunKeepsDamage(Start(clock, breaker, n), u, clock, actions);
  }

  predicate AllTimeOut(actions: seq<Action>) {
    forall a :: a in actions && a.Leave? ==> a.ending == TimedOut
  }

  predicate OnlyTimeouts(s: State) {
    forall i :: 0 <= i < |s.slots| && s.slots[i].Done? && s.slots[i].outcome.From? ==>
      s.slots[i].outcome.ending == TimedOut
  }

  lemma {:induction false} RunKeepsOnlyTimeouts(s: State, u: Setup, actions: seq<Action>)
    requires OnlyTimeouts(s) && AllTimeOut(actions) && Run(s, u, actions).Some?
    ensures OnlyTimeouts(Run(s, u, actions).value)
    decreases |actions|
  {
    if actions != [] {
      assert actions[0] in actions && forall a :: a in actions[1..] ==> a in actions;
      RunKeepsOnlyTimeouts(Apply(s, u, actions[0]), u, actions[1..]);
    }
  }

  lemma {:induction false} NoneRefused(slots: seq<Slot>)
    requires forall i :: 0 <= i < |slots| ==> !Is(IsRefused, slots[i])
    ensures Count(slots, IsRefused) == 0
  {
    if slots != [] {
      NoneRefused(slots[1..]);
    }
  }

  /** When every call times out: at most threshold + width - 1 coroutines are awaited, and
      once all slots are done, result i is coroutine i's own timeout or its skip. */
  lemma FanOutOfTimeouts(clock: real, breaker: Breaker, n: nat, u: Setup, actions: seq<Action>, s: State)
    requires u.guarded && u.config.threshold >= 1
    requires Fresh(breaker)
    requires Run(Start(clock, breaker, n), u, actions) == Some(s) && AllTimeOut(actions)
    requires s.clock - clock < u.config.recovery
    ensures Count(s.slots, IsAwaited) <= u.config.threshold + u.Width() - 1
    ensures |s.slots| == n
    ensures (forall i :: 0 <= i < n ==> s.slots[i].Done?) ==>
              forall i :: 0 <= i < n ==> s.slots[i].outcome == From(i, TimedOut) || s.slots[i].outcome == Skipped(i)
  {
    FanOutDamageBound(clock, breaker, n, u, actions, s);
    RunKeepsOnlyTimeouts(Start(clock, breaker, n), u, actions);
    NoneRefused(s.slots);
    FanOutIsOrderly(clock, breaker, n, u, actions);
  }

  /* ----- Results ----- */

  /** `throw_if_cancelled`: the first cancelled result, which is raised instead of the list. */
  method ThrowIfCancelled(results: seq<Outcome>) returns (raised: Option<nat>)
    ensures raised.None? <==> forall i :: 0 <= i < |results| ==> results[i] != From(results[i].coro, CancelledError)
    ensures raised.Some? ==>
              && raised.value < |results| && results[raised.value] == From(results[raised.value].coro, CancelledError)
              && forall i :: 0 <= i < raised.value ==> results[i] != From(results[i].coro, CancelledError)
  {
    for k := 0 to |results|
      invariant forall i :: 0 <= i < k ==> results[i] != From(results[i].coro, CancelledError)
    {
      if results[k] == From(results[k].coro, CancelledError) {
        return Some(k);
      }
    }
    return None;
  }
}
