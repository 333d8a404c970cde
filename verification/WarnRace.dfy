// tcbot/database/warns_db/counters.py and records.py: `add_warn` calls for one user and chat,
// interleaved. An upsert looks for the document and inserts it in two steps; between the two
// somebody else may insert it first.
module WarnRace {
  import opened Wrappers

  /** Where a call is: its history row is not written yet; it is written and the upsert of this
      attempt looks for the counter; the upsert found none and is about to insert it; it has
      returned the new count; it gave up with DuplicateKeyError and is about to roll back. */
  datatype Call =
    | Begun
    | Looking(attempt: nat)
    | Inserting(attempt: nat)
    | Returned(count: nat)
    | GaveUp

  /** The counter document and the number of history rows of the pair. */
  datatype State = State(counter: Option<nat>, history: nat, calls: seq<Call>)

  datatype Action =
    | WriteRow(i: nat)
    | Look(i: nat)
    | Insert(i: nat)
    | ClearWarns

  const ATTEMPTS: nat := 2

  predicate Enabled(s: State, a: Action) {
    match a
    case WriteRow(i) => i < |s.calls| && s.calls[i].Begun?
    case Look(i) => i < |s.calls| && s.calls[i].Looking?
    case Insert(i) => i < |s.calls| && s.calls[i].Inserting?
    case ClearWarns => true
  }

  function Apply(s: State, a: Action): State
    requires Enabled(s, a)
  {
    match a
    case WriteRow(i) => s.(history := s.history + 1, calls := s.calls[i := Looking(0)])
    case Look(i) =>
      if s.counter.Some? then Counted(s, i, s.counter.value + 1)
      else s.(calls := s.calls[i := Inserting(s.calls[i].attempt)])
    case Insert(i) =>
      if s.counter.None? then Counted(s, i, 1)
      else if s.calls[i].attempt + 1 < ATTEMPTS then s.(calls := s.calls[i := Looking(s.calls[i].attempt + 1)])
      else s.(calls := s.calls[i := GaveUp])
    case ClearWarns => s.(counter := None, history := 0)
  }

  function Counted(s: State, i: nat, count: nat): State
    requires i < |s.calls|
  {
    s.(counter := Some(count), calls := s.calls[i := Returned(count)])
  }

  function Run(s: State, actions: seq<Action>): Option<State>
    decreases |actions|
  {
    if actions == [] then Some(s)
    else if Enabled(s, actions[0]) then Run(Apply(s, actions[0]), actions[1..])
    else None
  }

  /** `n` calls about to begin. */
  function Start(counter: Option<nat>, history: nat, n: nat): State {
    State(counter, history, seq(n, _ => Begun))
  }

  function CountOf(counter: Option<nat>): nat {
    if counter.Some? then counter.value else 0
  }

  /** Calls that have written their row, and calls that have returned. */
  function Rows(calls: seq<Call>): nat {
    if calls == [] then 0 else (if calls[0].Begun? then 0 else 1) + Rows(calls[1..])
  }

  function Returns(calls: seq<Call>): nat {
    if calls == [] then 0 else (if calls[0].Returned? then 1 else 0) + Returns(calls[1..])
  }

  lemma {:induction false} TallyUpdate(calls: seq<Call>, i: nat, call: Call)
    requires i < |calls|
    ensures Rows(calls[i := call]) + (if calls[i].Begun? then 0 else 1) == Rows(calls) + if call.Begun? then 0 else 1
    ensures Returns(calls[i := call]) + (if calls[i].Returned? then 1 else 0)
         == Returns(calls) + if call.Returned? then 1 else 0
  {
    if i > 0 {
      assert calls[i := call][1..] == calls[1..][i - 1 := call];
      TallyUpdate(calls[1..], i - 1, call);
    } else {
      assert calls[i := call][1..] == calls[1..];
    }
  }

  lemma {:induction false} TallyBounds(calls: seq<Call>)
    ensures (forall i :: 0 <= i < |calls| ==> calls[i].Begun?) ==> Rows(calls) == Returns(calls) == 0
    ensures (forall i :: 0 <= i < |calls| ==> calls[i].Returned?) ==> Rows(calls) == Returns(calls) == |calls|
  {
    if calls != [] {
      TallyBounds(calls[1..]);
    }
  }

  /** A retry finds the counter; nobody gives up; each call returns a count of its own. */
  predicate Inv(s: State, counter: Option<nat>, history: nat) {
    && (counter.Some? ==> s.counter.Some?)
    && (forall i :: 0 <= i < |s.calls| ==> CallFine(s.calls[i], s.counter, CountOf(counter)))
    && (forall i, j :: 0 <= i < j < |s.calls| && s.calls[i].Returned? && s.calls[j].Returned?
          ==> s.calls[i].count != s.calls[j].count)
    && CountOf(s.counter) == CountOf(counter) + Returns(s.calls)
    && s.history == history + Rows(s.calls)
  }

  /** A call that looks for the second time finds the counter, so nobody gives up. */
  predicate RetryFinds(call: Call, counter: Option<nat>) {
    match call
    case Looking(attempt) => attempt == 0 || (attempt == 1 && counter.Some?)
    case Inserting(attempt) => attempt == 0
    case GaveUp => false
    case _ => true
  }

  predicate CallFine(call: Call, counter: Option<nat>, base: nat) {
    RetryFinds(call, counter) && (call.Returned? ==> counter.Some? && base < call.count <= counter.value)
  }

  lemma StepKeepsCalls(s: State, a: Action, counter: Option<nat>, history: nat)
    requires Inv(s, counter, history) && Enabled(s, a) && !a.ClearWarns?
    ensures var s' := Apply(s, a);
            && s'.calls == s.calls[a.i := s'.calls[a.i]]
            && (counter.Some? ==> s'.counter.Some?)
            && forall j :: 0 <= j < |s.calls| ==> CallFine(s'.calls[j], s'.counter, CountOf(counter))
  {
    hide Rows, Returns;
    forall j | 0 <= j < |s.calls|
      ensures CallFine(Apply(s, a).calls[j], Apply(s, a).counter, CountOf(counter))
    {
      assert CallFine(s.calls[j], s.counter, CountOf(counter));
    }
  }

  lemma StepKeepsInv(s: State, a: Action, counter: Option<nat>, history: nat)
    requires Inv(s, counter, history) && Enabled(s, a) && !a.ClearWarns?
    ensures Inv(Apply(s, a), counter, history)
  {
    StepKeepsCalls(s, a, counter, history);
    var s' := Apply(s, a);
    TallyUpdate(s.calls, a.i, s'.calls[a.i]);
    hide Rows, Returns;
    forall i, j | 0 <= i < j < |s.calls| && s'.calls[i].Returned? && s'.calls[j].Returned?
      ensures s'.calls[i].count != s'.calls[j].count
    {
      assert CallFine(s.calls[i], s.counter, CountOf(counter));
      assert CallFine(s.calls[j], s.counter, CountOf(counter));
    }
    assert CallFine(s'.calls[a.i], s'.counter, CountOf(counter));
  }

  predicate NoClear(actions: seq<Action>) {
    forall a :: a in actions ==> !a.ClearWarns?
  }

  lemma {:induction false} RunKeepsInv(s: State, actions: seq<Action>, counter: Option<nat>, history: nat)
    requires Inv(s, counter, history) && NoClear(actions) && Run(s, actions).Some?
    ensures Inv(Run(s, actions).value, counter, history)
    ensures |Run(s, actions).value.calls| == |s.calls|
    decreases |actions|
  {
    if actions != [] {
      assert actions[0] in actions;
      StepKeepsInv(s, actions[0], counter, history);
      hide Inv;
      assert forall a :: a in actions[1..] ==> a in actions;
      RunKeepsInv(Apply(s, actions[0]), actions[1..], counter, history);
    }
  }

  /** Concurrent warns all land: without deletes, whatever the interleaving, no call gives up
      on its single retry, every call returns a count of its own, and when all have returned
      counter and history have both grown by exactly their number. */
  lemma AllWarnsLand(counter: Option<nat>, history: nat, n: nat, actions: seq<Action>, s: State)
    requires NoClear(actions) && Run(Start(counter, history, n), actions) == Some(s)
    ensures forall i :: 0 <= i < |s.calls| ==> !s.calls[i].GaveUp?
    ensures forall i, j :: 0 <= i < j < |s.calls| && s.calls[i].Returned? && s.calls[j].Returned?
              ==> s.calls[i].count != s.calls[j].count
    ensures (forall i :: 0 <= i < |s.calls| ==> s.calls[i].Returned?) ==>
              CountOf(s.counter) == CountOf(counter) + n && s.history == history + n
  {
    TallyBounds(Start(counter, history, n).calls);
    RunKeepsInv(Start(counter, history, n), actions, counter, history);
    TallyBounds(s.calls);
    forall i | 0 <= i < |s.calls|
      ensures !s.calls[i].GaveUp?
    {
      assert CallFine(s.calls[i], s.counter, CountOf(counter));
    }
  }

  /** Append one action to a run. */
  lemma {:induction false} Extend(s: State, actions: seq<Action>, a: Action)
    requires Run(s, actions).Some? && Enabled(Run(s, actions).value, a)
    ensures Run(s, actions + [a]) == Some(Apply(Run(s, actions).value, a))
    decreases |actions|
  {
    if actions == [] {
      assert actions + [a] == [a];
      assert Run(Apply(s, a), [a][1..]) == Some(Apply(s, a));
    } else {
      assert (actions + [a])[1..] == actions[1..] + [a];
      Extend(Apply(s, actions[0]), actions[1..], a);
    }
  }

  lemma Next(start: State, actions: seq<Action>, now: State, a: Action) returns (actions': seq<Action>, now': State)
    requires Run(start, actions) == Some(now) && Enabled(now, a)
    ensures now' == Apply(now, a) && Run(start, actions') == Some(now')
  {
    Extend(start, actions, a);
    actions', now' := actions + [a], Apply(now, a);
  }

  lemma NoSteps(s: State)
    ensures Run(s, []) == Some(s)
  {
  }

  /** Call 0 lost the insert race to call 1 and is about to retry. */
  lemma LostTheRace() returns (run: seq<Action>, s: State)
    ensures Run(Start(None, 0, 3), run) == Some(s)
    ensures s.counter == Some(1) && s.calls == [Looking(1), Returned(1), Looking(0)]
  {
    hide Run;
    var start := Start(None, 0, 3);
    NoSteps(start);
    run, s := Next(start, [], start, WriteRow(0));
    run, s := Next(start, run, s, Look(0));
    run, s := Next(start, run, s, WriteRow(1));
    run, s := Next(start, run, s, Look(1));
    run, s := Next(start, run, s, Insert(1));
    run, s := Next(start, run, s, Insert(0));
    run, s := Next(start, run, s, WriteRow(2));
  }

  /** "No deletes" is needed: a clear between the two attempts lets the retry fail as well. */
  lemma ClearBreaksTheRetry()
    ensures exists actions :: && Run(Start(None, 0, 3), actions).Some?
                              && GaveUp in Run(Start(None, 0, 3), actions).value.calls
  {
    hide Run;
    var start := Start(None, 0, 3);
    var run, s := LostTheRace();
    run, s := Next(start, run, s, ClearWarns);
    run, s := Next(start, run, s, Look(0));
    run, s := Next(start, run, s, Look(2));
    run, s := Next(start, run, s, Insert(2));
    run, s := Next(start, run, s, Insert(0));
    assert s.calls[0] == GaveUp;
  }

  /* ----- Exactly which clears matter ----- */

  /** The call has lost its insert and not looked again yet. */
  predicate InTheGap(call: Call) {
    call.Looking? && call.attempt >= 1
  }

  /** No clear of the run lands while some call is in the gap. */
  predicate ClearsAvoidGaps(s: State, actions: seq<Action>)
    requires Run(s, actions).Some?
    decreases |actions|
  {
    actions == [] ||
    (&& (actions[0].ClearWarns? ==> forall i :: 0 <= i < |s.calls| ==> !InTheGap(s.calls[i]))
     && ClearsAvoidGaps(Apply(s, actions[0]), actions[1..]))
  }

  predicate RetriesFind(s: State) {
    forall i :: 0 <= i < |s.calls| ==> RetryFinds(s.calls[i], s.counter)
  }

  lemma StepKeepsRetries(s: State, a: Action)
    requires RetriesFind(s) && Enabled(s, a)
    requires a.ClearWarns? ==> forall i :: 0 <= i < |s.calls| ==> !InTheGap(s.calls[i])
    ensures RetriesFind(Apply(s, a))
  {
    forall i | 0 <= i < |s.calls|
      ensures RetryFinds(Apply(s, a).calls[i], Apply(s, a).counter)
    {
      assert RetryFinds(s.calls[i], s.counter);
    }
  }

  lemma {:induction false} RunKeepsRetries(s: State, actions: seq<Action>)
    requires RetriesFind(s) && Run(s, actions).Some? && ClearsAvoidGaps(s, actions)
    ensures RetriesFind(Run(s, actions).value)
    decreases |actions|
  {
    if actions != [] {
      StepKeepsRetries(s, actions[0]);
      RunKeepsRetries(Apply(s, actions[0]), actions[1..]);
    }
  }

  /** No call gives up in any run whose clears avoid the gaps, however many clears there are. */
  lemma NobodyGivesUp(counter: Option<nat>, history: nat, n: nat, actions: seq<Action>, s: State)
    requires Run(Start(counter, history, n), actions) == Some(s)
    requires ClearsAvoidGaps(Start(counter, history, n), actions)
    ensures forall i :: 0 <= i < |s.calls| ==> !s.calls[i].GaveUp?
  {
    RunKeepsRetries(Start(counter, history, n), actions);
    forall i | 0 <= i < |s.calls|
      ensures !s.calls[i].GaveUp?
    {
      assert RetryFinds(s.calls[i], s.counter);
    }
  }

  predicate Over(call: Call) {
    call.Returned? || call.GaveUp?
  }

  /** From here, without further clears, call `i` can give up. */
  ghost predicate CanGiveUp(s: State, i: nat) {
    exists actions :: && NoClear(actions) && Run(s, actions).Some? && i < |Run(s, actions).value.calls|
                      && Run(s, actions).value.calls[i].GaveUp?
  }

  /** Call `j` inserts the counter, from wherever it is, once there is none. */
  lemma SomebodyInserts(s: State, j: nat) returns (actions: seq<Action>)
    requires s.counter.None? && j < |s.calls| && !Over(s.calls[j])
    ensures NoClear(actions) && Run(s, actions).Some?
    ensures var s' := Run(s, actions).value;
            && s'.counter == Some(1) && |s'.calls| == |s.calls|
            && forall k :: 0 <= k < |s.calls| && k != j ==> s'.calls[k] == s.calls[k]
    decreases match s.calls[j] case Begun => 2 case Looking(_) => 1 case _ => 0
  {
    var a := match s.calls[j] case Begun => WriteRow(j) case Looking(_) => Look(j) case _ => Insert(j);
    var s1 := Apply(s, a);
    var rest := [];
    if !s.calls[j].Inserting? {
      rest := SomebodyInserts(s1, j);
    }
    actions := [a] + rest;
    assert actions[1..] == rest;
  }

  lemma GapIsFatal(s: State, i: nat, j: nat)
    requires i < |s.calls| && InTheGap(s.calls[i]) && j < |s.calls| && j != i && !Over(s.calls[j])
    ensures CanGiveUp(Apply(s, ClearWarns), i)
  {
    var cleared := Apply(s, ClearWarns);
    var looked := Apply(cleared, Look(i));
    var inserts := SomebodyInserts(looked, j);
    var inserted := Run(looked, inserts).value;
    Extend(looked, inserts, Insert(i));
    var actions := [Look(i)] + (inserts + [Insert(i)]);
    assert actions[1..] == inserts + [Insert(i)];
    assert Run(cleared, actions) == Some(Apply(inserted, Insert(i)));
  }

  /** Call `i` alone is still under way, and there is no counter unless it has returned. */
  predicate Alone(s: State, i: nat) {
    && i < |s.calls|
    && (forall j :: 0 <= j < |s.calls| && j != i ==> Over(s.calls[j]))
    && !s.calls[i].GaveUp? && !s.calls[i].Begun? && (!s.calls[i].Returned? ==> s.counter.None?)
  }

  lemma {:induction false} AloneNeverGivesUp(s: State, actions: seq<Action>, i: nat)
    requires Alone(s, i) && NoClear(actions) && Run(s, actions).Some?
    ensures Alone(Run(s, actions).value, i)
    decreases |actions|
  {
    if actions != [] {
      assert actions[0] in actions;
      assert forall a :: a in actions[1..] ==> a in actions;
      AloneNeverGivesUp(Apply(s, actions[0]), actions[1..], i);
    }
  }

  /** Exactly when a clear endangers a call in the gap, from any state: if and only if some other
      call is still under way, which can insert the counter first once more. */
  lemma ClearInTheGapExactlyWhen(s: State, i: nat)
    requires i < |s.calls| && InTheGap(s.calls[i])
    ensures CanGiveUp(Apply(s, ClearWarns), i) <==> exists j :: 0 <= j < |s.calls| && j != i && !Over(s.calls[j])
  {
    if j :| 0 <= j < |s.calls| && j != i && !Over(s.calls[j]) {
      GapIsFatal(s, i, j);
    } else {
      var cleared := Apply(s, ClearWarns);
      assert Alone(cleared, i);
      forall actions | NoClear(actions) && Run(cleared, actions).Some?
        ensures i < |Run(cleared, actions).value.calls| ==> !Run(cleared, actions).value.calls[i].GaveUp?
      {
        AloneNeverGivesUp(cleared, actions, i);
      }
    }
  }
}
