// tcbot/database/warns_db/migrate.py: `migrate_records` from one old chat to one new chat, run
// any number of times, interleaved, failing and crashing at any step.
module WarnMigration {
  import opened Wrappers

  type User = int

  /** A counter as the run read it at its start. */
  datatype Doc = Doc(user: User, count: nat)

  /** One run of migrate_records: going through its snapshot, between the take of a counter and
      the merge into the new chat, or over. */
  datatype Migration =
    | Merging(todo: seq<Doc>)
    | Holding(held: Doc, todo: seq<Doc>)
    | Finished
    | Crashed

  type Counters = map<User, nat>

  /** The counters of the two chats, the runs, and what failed or crashed runs have dropped. */
  datatype State = State(source: Counters, target: Counters, runs: seq<Migration>, dropped: Counters)

  /** `applied` says whether a call that raised had taken effect nevertheless. */
  datatype Action =
    | Begin(snapshot: seq<Doc>)
    | Skip(r: nat)
    | Take(r: nat)
    | TakeRaises(r: nat, applied: bool)
    | Merge(r: nat)
    | MergeRaises(r: nat, applied: bool)
    | Cleanup(r: nat)
    | CleanupRaises(r: nat, applied: bool)
    | Crash(r: nat)

  function Of(counters: Counters, u: User): nat {
    if u in counters then counters[u] else 0
  }

  function Plus(counters: Counters, u: User, count: nat): Counters {
    counters[u := Of(counters, u) + count]
  }

  /** A read of all old counters. */
  ghost predicate IsSnapshot(snapshot: seq<Doc>, source: Counters) {
    && (forall d :: d in snapshot ==> d.user in source && source[d.user] == d.count)
    && (forall u :: u in source ==> Doc(u, source[u]) in snapshot)
  }

  predicate HasTodo(s: State, r: nat) {
    r < |s.runs| && s.runs[r].Merging? && s.runs[r].todo != []
  }

  predicate AtEnd(s: State, r: nat) {
    r < |s.runs| && s.runs[r].Merging? && s.runs[r].todo == []
  }

  ghost predicate Enabled(s: State, a: Action) {
    match a
    case Begin(snapshot) => IsSnapshot(snapshot, s.source)
    case Skip(r) => HasTodo(s, r) && s.runs[r].todo[0].count <= 0
    case Take(r) => HasTodo(s, r) && s.runs[r].todo[0].count > 0
    case TakeRaises(r, _) => HasTodo(s, r) && s.runs[r].todo[0].count > 0
    case Merge(r) => r < |s.runs| && s.runs[r].Holding?
    case MergeRaises(r, _) => r < |s.runs| && s.runs[r].Holding?
    case Cleanup(r) => AtEnd(s, r)
    case CleanupRaises(r, _) => AtEnd(s, r)
    case Crash(r) => r < |s.runs| && (s.runs[r].Merging? || s.runs[r].Holding?)
  }

  function SetRun(s: State, r: nat, run: Migration): State
    requires r < |s.runs|
  {
    s.(runs := s.runs[r := run])
  }

  /** delete_many on the old chat. */
  function Wiped(s: State): State {
    s.(source := map[], dropped := map u | u in s.source.Keys + s.dropped.Keys :: Of(s.dropped, u) + Of(s.source, u))
  }

  ghost function Apply(s: State, a: Action): State
    requires Enabled(s, a)
  {
    match a
    case Begin(snapshot) => s.(runs := s.runs + [Merging(snapshot)])
    case Skip(r) => SetRun(s, r, Merging(s.runs[r].todo[1..]))
    case Take(r) =>
      var d, rest := s.runs[r].todo[0], s.runs[r].todo[1..];
      if d.user in s.source then SetRun(s.(source := s.source - {d.user}), r, Holding(d, rest))
      else SetRun(s, r, Merging(rest))
    case TakeRaises(r, applied) =>
      var d, rest := s.runs[r].todo[0], s.runs[r].todo[1..];
      if applied then
        SetRun(s.(source := s.source - {d.user}, dropped := Plus(s.dropped, d.user, Of(s.source, d.user))),
               r, Merging(rest))
      else SetRun(s, r, Merging(rest))
    case Merge(r) =>
      var d := s.runs[r].held;
      SetRun(s.(target := Plus(s.target, d.user, d.count)), r, Merging(s.runs[r].todo))
    case MergeRaises(r, applied) =>
      var d, next := s.runs[r].held, Merging(s.runs[r].todo);
      if applied then SetRun(s.(target := Plus(s.target, d.user, d.count)), r, next)
      else SetRun(s.(dropped := Plus(s.dropped, d.user, d.count)), r, next)
    case Cleanup(r) => SetRun(Wiped(s), r, Finished)
    case CleanupRaises(r, applied) => SetRun(if applied then Wiped(s) else s, r, Finished)
    case Crash(r) =>
      if s.runs[r].Holding? then
        SetRun(s.(dropped := Plus(s.dropped, s.runs[r].held.user, s.runs[r].held.count)), r, Crashed)
      else SetRun(s, r, Crashed)
  }

  ghost function Run(s: State, actions: seq<Action>): Option<State>
    decreases |actions|
  {
    if actions == [] then Some(s)
    else if Enabled(s, actions[0]) then Run(Apply(s, actions[0]), actions[1..])
    else None
  }

  function Start(source: Counters, target: Counters): State {
    State(source, target, [], map[])
  }

  /* ----- What a user's warns add up to ----- */

  function Carried(run: Migration, u: User): nat {
    if run.Holding? && run.held.user == u then run.held.count else 0
  }

  function AllCarried(runs: seq<Migration>, u: User): nat {
    if runs == [] then 0 else Carried(runs[0], u) + AllCarried(runs[1..], u)
  }

  lemma {:induction false} CarriedUpdate(runs: seq<Migration>, r: nat, run: Migration, u: User)
    requires r < |runs|
    ensures AllCarried(runs[r := run], u) + Carried(runs[r], u) == AllCarried(runs, u) + Carried(run, u)
  {
    if r > 0 {
      assert runs[r := run][1..] == runs[1..][r - 1 := run];
      CarriedUpdate(runs[1..], r - 1, run, u);
    } else {
      assert runs[r := run][1..] == runs[1..];
    }
  }

  lemma {:induction false} CarriedAppend(runs: seq<Migration>, run: Migration, u: User)
    ensures AllCarried(runs + [run], u) == AllCarried(runs, u) + Carried(run, u)
  {
    if runs == [] {
      assert [] + [run] == [run];
    } else {
      assert (runs + [run])[1..] == runs[1..] + [run];
      CarriedAppend(runs[1..], run, u);
    }
  }

  /** What is in the two chats. */
  function InChats(s: State, u: User): nat {
    Of(s.source, u) + Of(s.target, u)
  }

  predicate Conserves(s: State, u: User, total: nat) {
    InChats(s, u) + AllCarried(s.runs, u) + Of(s.dropped, u) == total
  }

  /** A snapshot stays exact for the counters that are still there. */
  predicate Exact(todo: seq<Doc>, source: Counters) {
    forall d :: d in todo && d.user in source ==> source[d.user] == d.count
  }

  predicate AllExact(s: State) {
    forall r :: 0 <= r < |s.runs| && (s.runs[r].Merging? || s.runs[r].Holding?) ==> Exact(s.runs[r].todo, s.source)
  }

  lemma TailIsExact(todo: seq<Doc>, source: Counters)
    requires todo != [] && Exact(todo, source)
    ensures Exact(todo[1..], source)
    ensures todo[0].user in source ==> source[todo[0].user] == todo[0].count
    ensures Of(source, todo[0].user) == if todo[0].user in source then todo[0].count else 0
  {
    assert todo[0] in todo;
    assert forall d :: d in todo[1..] ==> d in todo;
  }

  predicate Shrinks(source: Counters, smaller: Counters) {
    forall u :: u in smaller ==> u in source && smaller[u] == source[u]
  }

  /** Only takes and the final delete touch the old chat, and they only remove. */
  lemma StepShrinks(s: State, a: Action)
    requires Enabled(s, a)
    ensures Shrinks(s.source, Apply(s, a).source)
  {
    hide IsSnapshot, Plus, Of;
  }

  lemma StepKeepsExact(s: State, a: Action)
    requires AllExact(s) && Enabled(s, a)
    ensures AllExact(Apply(s, a)) && Shrinks(s.source, Apply(s, a).source)
  {
    var s' := Apply(s, a);
    StepShrinks(s, a);
    forall r | 0 <= r < |s'.runs| && (s'.runs[r].Merging? || s'.runs[r].Holding?)
      ensures Exact(s'.runs[r].todo, s'.source)
    {
      StepRunExact(s, a, r);
    }
  }

  /** An open run's list stays, or loses its head. */
  lemma TodoAfter(s: State, a: Action, r: nat)
    requires Enabled(s, a) && r < |s.runs|
    requires Apply(s, a).runs[r].Merging? || Apply(s, a).runs[r].Holding?
    ensures s.runs[r].Merging? || s.runs[r].Holding?
    ensures var todo, todo' := s.runs[r].todo, Apply(s, a).runs[r].todo;
            todo' == todo || (todo != [] && todo' == todo[1..])
  {
    hide IsSnapshot, Plus, Of;
  }

  lemma StepRunExact(s: State, a: Action, r: nat)
    requires AllExact(s) && Enabled(s, a) && Shrinks(s.source, Apply(s, a).source)
    requires r < |Apply(s, a).runs| && (Apply(s, a).runs[r].Merging? || Apply(s, a).runs[r].Holding?)
    ensures Exact(Apply(s, a).runs[r].todo, Apply(s, a).source)
  {
    if r < |s.runs| {
      TodoAfter(s, a, r);
      hide Apply, Enabled;
      var todo := s.runs[r].todo;
      assert Exact(todo, s.source);
      if todo != [] {
        TailIsExact(todo, s.source);
      }
    }
  }

  lemma OfPlus(counters: Counters, v: User, count: nat, u: User)
    ensures Of(Plus(counters, v, count), u) == Of(counters, u) + if u == v then count else 0
    ensures Of(counters - {v}, u) == if u == v then 0 else Of(counters, u)
  {
  }

  lemma OfWiped(s: State, u: User)
    ensures Of(Wiped(s).source, u) == 0 && Of(Wiped(s).dropped, u) == Of(s.dropped, u) + Of(s.source, u)
    ensures Wiped(s).target == s.target && Wiped(s).runs == s.runs
  {
  }

  /* Where the counts go in one step. */

  lemma StepAtHead(s: State, a: Action, u: User, total: nat)
    requires AllExact(s) && Enabled(s, a) && Conserves(s, u, total) && (a.Skip? || a.Take? || a.TakeRaises?)
    ensures Conserves(Apply(s, a), u, total)
  {
    hide AllCarried, Exact, IsSnapshot, Plus, Wiped, HeldIs, Of;
    var d := s.runs[a.r].todo[0];
    TailIsExact(s.runs[a.r].todo, s.source);
    CarriedUpdate(s.runs, a.r, Apply(s, a).runs[a.r], u);
    OfPlus(s.source, d.user, 0, u);
    OfPlus(s.dropped, d.user, Of(s.source, d.user), u);
  }

  lemma StepHolding(s: State, a: Action, u: User, total: nat)
    requires Enabled(s, a) && Conserves(s, u, total) && (a.Merge? || a.MergeRaises? || a.Crash?)
    ensures Conserves(Apply(s, a), u, total)
  {
    hide AllCarried, IsSnapshot, Of, Plus, Wiped;
    CarriedUpdate(s.runs, a.r, Apply(s, a).runs[a.r], u);
    if s.runs[a.r].Holding? {
      OfPlus(s.target, s.runs[a.r].held.user, s.runs[a.r].held.count, u);
      OfPlus(s.dropped, s.runs[a.r].held.user, s.runs[a.r].held.count, u);
    }
  }

  lemma StepAtEnd(s: State, a: Action, u: User, total: nat)
    requires Enabled(s, a) && Conserves(s, u, total) && (a.Cleanup? || a.CleanupRaises?)
    ensures Conserves(Apply(s, a), u, total)
  {
    hide AllCarried, IsSnapshot, Of, Plus;
    CarriedUpdate(s.runs, a.r, Finished, u);
    OfWiped(s, u);
  }

  lemma StepConserves(s: State, a: Action, u: User, total: nat)
    requires AllExact(s) && Enabled(s, a) && Conserves(s, u, total)
    ensures Conserves(Apply(s, a), u, total)
  {
    if a.Begin? {
      CarriedAppend(s.runs, Merging(a.snapshot), u);
    } else if a.Skip? || a.Take? || a.TakeRaises? {
      StepAtHead(s, a, u, total);
    } else if a.Cleanup? || a.CleanupRaises? {
      StepAtEnd(s, a, u, total);
    } else {
      StepHolding(s, a, u, total);
    }
  }

  lemma {:induction false} RunConserves(s: State, actions: seq<Action>, u: User, total: nat)
    requires AllExact(s) && Conserves(s, u, total) && Run(s, actions).Some?
    ensures AllExact(Run(s, actions).value) && Conserves(Run(s, actions).value, u, total)
    decreases |actions|
  {
    if actions != [] {
      StepKeepsExact(s, actions[0]);
      StepConserves(s, actions[0], u, total);
      hide AllExact, Conserves;
      RunConserves(Apply(s, actions[0]), actions[1..], u, total);
    }
  }

  /** Migration never double-counts: under any interleaving of any number of runs, with a
      failure or a crash at any step, each user's total over the two chats, what runs hold in
      their hands and what was dropped is the starting total; so the two chats never exceed it. */
  lemma NeverDoubleCounts(source: Counters, target: Counters, actions: seq<Action>, s: State, u: User)
    requires Run(Start(source, target), actions) == Some(s)
    ensures InChats(s, u) + AllCarried(s.runs, u) + Of(s.dropped, u) == Of(source, u) + Of(target, u)
    ensures InChats(s, u) <= Of(source, u) + Of(target, u)
  {
    RunConserves(Start(source, target), actions, u, Of(source, u) + Of(target, u));
  }

  /* ----- Runs in which nothing fails ----- */

  predicate Smooth(a: Action) {
    a.Begin? || a.Skip? || a.Take? || a.Merge? || a.Cleanup?
  }

  predicate AllSmooth(actions: seq<Action>) {
    forall a :: a in actions ==> Smooth(a)
  }

  /** Every counter that is still to be moved is in the snapshot of every open run. */
  predicate Listed(todo: seq<Doc>, source: Counters) {
    forall u :: u in source && source[u] > 0 ==> Doc(u, source[u]) in todo
  }

  predicate NothingDropped(s: State) {
    && (forall u :: u in s.dropped ==> s.dropped[u] == 0)
    && (forall r :: 0 <= r < |s.runs| ==> !s.runs[r].Crashed?)
    && (forall r :: 0 <= r < |s.runs| && (s.runs[r].Merging? || s.runs[r].Holding?)
          ==> Listed(s.runs[r].todo, s.source))
    && ((exists r :: 0 <= r < |s.runs| && s.runs[r].Finished?) ==> forall u :: u in s.source ==> s.source[u] == 0)
  }

  /** The head of the list can go: it is zero, or it has been taken. */
  lemma HeadIsDone(todo: seq<Doc>, source: Counters, smaller: Counters)
    requires todo != [] && Listed(todo, source) && Exact(todo, source) && Shrinks(source, smaller)
    requires todo[0].count == 0 || todo[0].user !in smaller
    ensures Listed(todo[1..], smaller)
  {
    assert todo[0] in todo;
    forall u | u in smaller && smaller[u] > 0
      ensures Doc(u, smaller[u]) in todo[1..]
    {
      assert Doc(u, source[u]) in todo;
      assert todo == [todo[0]] + todo[1..];
    }
  }

  lemma StaysListed(todo: seq<Doc>, source: Counters, smaller: Counters)
    requires Listed(todo, source) && Shrinks(source, smaller)
    ensures Listed(todo, smaller)
  {
  }

  lemma SmoothStepListed(s: State, a: Action, r: nat)
    requires AllExact(s) && NothingDropped(s) && Enabled(s, a) && Smooth(a)
    requires r < |Apply(s, a).runs| && (Apply(s, a).runs[r].Merging? || Apply(s, a).runs[r].Holding?)
    ensures Listed(Apply(s, a).runs[r].todo, Apply(s, a).source)
  {
    var s' := Apply(s, a);
    StepKeepsExact(s, a);
    if r < |s.runs| {
      assert s.runs[r].Merging? || s.runs[r].Holding?;
      assert Listed(s.runs[r].todo, s.source) && Exact(s.runs[r].todo, s.source);
      hide Listed, Exact, Shrinks, AllExact, NothingDropped;
      StaysListed(s.runs[r].todo, s.source, s'.source);
      if (a.Skip? || a.Take?) && a.r == r {
        HeadIsDone(s.runs[r].todo, s.source, s'.source);
      }
    }
  }

  lemma SmoothStepBooks(s: State, a: Action)
    requires NothingDropped(s) && Enabled(s, a) && Smooth(a)
    ensures forall u :: u in Apply(s, a).dropped ==> Apply(s, a).dropped[u] == 0
    ensures forall r :: 0 <= r < |Apply(s, a).runs| ==> !Apply(s, a).runs[r].Crashed?
  {
    hide IsSnapshot, Exact;
    if a.Cleanup? {
      assert Listed(s.runs[a.r].todo, s.source);
    }
  }

  lemma SmoothStepFinished(s: State, a: Action)
    requires NothingDropped(s) && Enabled(s, a) && Smooth(a) && Shrinks(s.source, Apply(s, a).source)
    ensures (exists r :: 0 <= r < |Apply(s, a).runs| && Apply(s, a).runs[r].Finished?) ==>
              forall u :: u in Apply(s, a).source ==> Apply(s, a).source[u] == 0
  {
    hide IsSnapshot, Exact, Listed, Plus, Of;
    if !a.Cleanup? {
      assert forall r :: 0 <= r < |Apply(s, a).runs| && Apply(s, a).runs[r].Finished?
                ==> r < |s.runs| && s.runs[r].Finished?;
    }
  }

  lemma SmoothStepDropsNothing(s: State, a: Action)
    requires AllExact(s) && NothingDropped(s) && Enabled(s, a) && Smooth(a)
    ensures NothingDropped(Apply(s, a))
  {
    StepShrinks(s, a);
    SmoothStepBooks(s, a);
    SmoothStepFinished(s, a);
    forall r | 0 <= r < |Apply(s, a).runs| && (Apply(s, a).runs[r].Merging? || Apply(s, a).runs[r].Holding?)
      ensures Listed(Apply(s, a).runs[r].todo, Apply(s, a).source)
    {
      SmoothStepListed(s, a, r);
    }
    hide Apply, Enabled, Listed, AllExact, Shrinks;
  }

  lemma {:induction false} SmoothRunDropsNothing(s: State, actions: seq<Action>)
    requires AllExact(s) && NothingDropped(s) && AllSmooth(actions) && Run(s, actions).Some?
    ensures NothingDropped(Run(s, actions).value)
    decreases |actions|
  {
    if actions != [] {
      assert actions[0] in actions;
      StepKeepsExact(s, actions[0]);
      SmoothStepDropsNothing(s, actions[0]);
      hide AllExact, NothingDropped;
      assert forall a :: a in actions[1..] ==> a in actions;
      SmoothRunDropsNothing(Apply(s, actions[0]), actions[1..]);
    }
  }

  /** Nothing fails: nothing is ever dropped, and once every run is over (and there was one)
      the whole total is in the new chat. The counters of other chats are not touched, so the
      user's federation-wide count is what it was. */
  lemma SmoothMigrationPreserves(source: Counters, target: Counters, actions: seq<Action>, s: State, u: User)
    requires AllSmooth(actions) && Run(Start(source, target), actions) == Some(s)
    ensures InChats(s, u) + AllCarried(s.runs, u) == Of(source, u) + Of(target, u)
    ensures s.runs != [] && (forall r :: 0 <= r < |s.runs| ==> s.runs[r].Finished?) ==>
              Of(s.target, u) == Of(source, u) + Of(target, u) && Of(s.source, u) == 0
  {
    NeverDoubleCounts(source, target, actions, s, u);
    SmoothRunDropsNothing(Start(source, target), actions);
    if s.runs != [] && forall r :: 0 <= r < |s.runs| ==> s.runs[r].Finished? {
      NobodyCarries(s.runs, u);
      assert s.runs[0].Finished?;
    }
  }

  lemma {:induction false} NobodyCarries(runs: seq<Migration>, u: User)
    requires forall r :: 0 <= r < |runs| ==> runs[r].Finished?
    ensures AllCarried(runs, u) == 0
  {
    if runs != [] {
      NobodyCarries(runs[1..], u);
    }
  }

  /* ----- Where one user's count is, step by step ----- */

  /** The step takes `u`'s counter out of the old chat: a take that applied, or the final
      delete while it is still there. */
  ghost predicate Removes(s: State, a: Action, u: User)
    requires Enabled(s, a)
  {
    Of(s.source, u) > 0
    && match a
       case Take(r) => s.runs[r].todo[0].user == u
       case TakeRaises(r, applied) => applied && s.runs[r].todo[0].user == u
       case Cleanup(_) => true
       case CleanupRaises(_, applied) => applied
       case _ => false
  }

  ghost predicate Holds(s: State, r: nat, u: User) {
    r < |s.runs| && s.runs[r].Holding? && s.runs[r].held.user == u && s.runs[r].held.count > 0
  }

  /** The step puts `u`'s count into the new chat. */
  ghost predicate Lands(s: State, a: Action, u: User)
    requires Enabled(s, a)
  {
    (a.Merge? || (a.MergeRaises? && a.applied)) && Holds(s, a.r, u)
  }

  /** The step loses `u`'s count: a take that raised after it applied, the final delete of a
      counter still standing, a merge that raised unapplied, or a crash in between. */
  ghost predicate Drops(s: State, a: Action, u: User)
    requires Enabled(s, a)
  {
    || (Removes(s, a, u) && !a.Take?)
    || ((a.Crash? || (a.MergeRaises? && !a.applied)) && Holds(s, a.r, u))
  }

  datatype Place = InOld | InHand | InNew | Lost

  ghost function Moves(s: State, a: Action, u: User, place: Place): Place
    requires Enabled(s, a)
  {
    if Drops(s, a, u) then Lost
    else if Removes(s, a, u) then InHand
    else if Lands(s, a, u) then InNew
    else place
  }

  /** Some step of the run drops, removes or lands the count. */
  ghost predicate EverDrops(s: State, actions: seq<Action>, u: User)
    requires Run(s, actions).Some?
    decreases |actions|
  {
    actions != [] && (Drops(s, actions[0], u) || EverDrops(Apply(s, actions[0]), actions[1..], u))
  }

  ghost predicate EverRemoves(s: State, actions: seq<Action>, u: User)
    requires Run(s, actions).Some?
    decreases |actions|
  {
    actions != [] && (Removes(s, actions[0], u) || EverRemoves(Apply(s, actions[0]), actions[1..], u))
  }

  ghost predicate EverLands(s: State, actions: seq<Action>, u: User)
    requires Run(s, actions).Some?
    decreases |actions|
  {
    actions != [] && (Lands(s, actions[0], u) || EverLands(Apply(s, actions[0]), actions[1..], u))
  }

  /** `count` warns of `u` began in the old chat, `before` in the new one; all of `count` is in
      one place. */
  predicate Sums(s: State, u: User, count: nat, before: nat, place: Place) {
    && Of(s.source, u) == (if place == InOld then count else 0)
    && AllCarried(s.runs, u) == (if place == InHand then count else 0)
    && Of(s.target, u) == before + (if place == InNew then count else 0)
    && Of(s.dropped, u) == (if place == Lost then count else 0)
  }

  lemma {:induction false} CarriedAtMost(runs: seq<Migration>, r: nat, u: User)
    requires r < |runs|
    ensures Carried(runs[r], u) <= AllCarried(runs, u)
  {
    if r > 0 {
      CarriedAtMost(runs[1..], r - 1, u);
    }
  }

  /** What a run holds is what the old chat had. */
  predicate HeldIs(s: State, u: User, count: nat) {
    forall r :: 0 <= r < |s.runs| && s.runs[r].Holding? && s.runs[r].held.user == u ==> s.runs[r].held.count == count
  }

  lemma StepKeepsHeld(s: State, a: Action, u: User, count: nat)
    requires AllExact(s) && HeldIs(s, u, count) && (u in s.source ==> s.source[u] == count) && Enabled(s, a)
    ensures HeldIs(Apply(s, a), u, count)
  {
    hide Plus, Of, IsSnapshot;
    if !a.Begin? && HasTodo(s, a.r) {
      TailIsExact(s.runs[a.r].todo, s.source);
    }
  }

  predicate At(s: State, u: User, count: nat, before: nat, place: Place) {
    Sums(s, u, count, before, place) && HeldIs(s, u, count) && (u in s.source ==> s.source[u] == count)
  }

  lemma MovesAtHead(s: State, a: Action, u: User, count: nat, before: nat, place: Place)
    requires AllExact(s) && At(s, u, count, before, place) && Enabled(s, a) && (a.Skip? || a.Take? || a.TakeRaises?)
    ensures Sums(Apply(s, a), u, count, before, Moves(s, a, u, place))
  {
    hide AllCarried, Exact, IsSnapshot, Plus, Wiped, HeldIs, Of;
    var d := s.runs[a.r].todo[0];
    TailIsExact(s.runs[a.r].todo, s.source);
    CarriedUpdate(s.runs, a.r, Apply(s, a).runs[a.r], u);
    OfPlus(s.source, d.user, 0, u);
    OfPlus(s.dropped, d.user, Of(s.source, d.user), u);
  }

  lemma MovesHolding(s: State, a: Action, u: User, count: nat, before: nat, place: Place)
    requires At(s, u, count, before, place) && Enabled(s, a) && (a.Merge? || a.MergeRaises? || a.Crash?)
    ensures Sums(Apply(s, a), u, count, before, Moves(s, a, u, place))
  {
    hide AllCarried, IsSnapshot, Of, Plus, Wiped;
    CarriedUpdate(s.runs, a.r, Apply(s, a).runs[a.r], u);
    CarriedAtMost(s.runs, a.r, u);
    if s.runs[a.r].Holding? {
      OfPlus(s.target, s.runs[a.r].held.user, s.runs[a.r].held.count, u);
      OfPlus(s.dropped, s.runs[a.r].held.user, s.runs[a.r].held.count, u);
    }
  }

  lemma MovesAtEnd(s: State, a: Action, u: User, count: nat, before: nat, place: Place)
    requires At(s, u, count, before, place) && Enabled(s, a) && (a.Cleanup? || a.CleanupRaises?)
    ensures Sums(Apply(s, a), u, count, before, Moves(s, a, u, place))
  {
    hide AllCarried, IsSnapshot, Of, Plus, HeldIs;
    CarriedUpdate(s.runs, a.r, Finished, u);
    OfWiped(s, u);
  }

  lemma StepMoves(s: State, a: Action, u: User, count: nat, before: nat, place: Place)
    requires AllExact(s) && At(s, u, count, before, place) && Enabled(s, a)
    ensures At(Apply(s, a), u, count, before, Moves(s, a, u, place))
  {
    StepShrinks(s, a);
    StepKeepsHeld(s, a, u, count);
    hide HeldIs, AllExact, Enabled, Wiped, Plus;
    if a.Begin? {
      CarriedAppend(s.runs, Merging(a.snapshot), u);
    } else if a.Skip? || a.Take? || a.TakeRaises? {
      MovesAtHead(s, a, u, count, before, place);
    } else if a.Cleanup? || a.CleanupRaises? {
      MovesAtEnd(s, a, u, count, before, place);
    } else {
      MovesHolding(s, a, u, count, before, place);
    }
  }

  /** The three kinds of steps happen only where the count is. */
  lemma StepFits(s: State, a: Action, u: User, count: nat, before: nat, place: Place)
    requires At(s, u, count, before, place) && Enabled(s, a)
    ensures Removes(s, a, u) ==> place == InOld
    ensures Lands(s, a, u) ==> place == InHand
    ensures Drops(s, a, u) ==> place == InOld || place == InHand
  {
    hide AllCarried, IsSnapshot, HeldIs;
    if !a.Begin? && Holds(s, a.r, u) {
      CarriedAtMost(s.runs, a.r, u);
    }
  }

  /** Where the count ends up tells what happened to it on the way. */
  lemma {:induction false} RunMoves(s: State, actions: seq<Action>, u: User, count: nat, before: nat, place: Place)
      returns (end: Place)
    requires AllExact(s) && At(s, u, count, before, place) && Run(s, actions).Some?
    ensures At(Run(s, actions).value, u, count, before, end)
    ensures end == Lost <==> place == Lost || EverDrops(s, actions, u)
    ensures end == InNew <==> place == InNew || EverLands(s, actions, u)
    ensures end == InOld <==> place == InOld && !EverRemoves(s, actions, u)
    decreases |actions|
  {
    if actions == [] {
      end := place;
    } else {
      StepKeepsExact(s, actions[0]);
      StepMoves(s, actions[0], u, count, before, place);
      StepFits(s, actions[0], u, count, before, place);
      hide AllExact, At, Removes, Lands, Drops, Enabled;
      end := RunMoves(Apply(s, actions[0]), actions[1..], u, count, before, Moves(s, actions[0], u, place));
    }
  }

  /** Exactly when a count is kept, over every interleaving with every failure and crash:
      nothing is missing if and only if no step of the run dropped it; and the two chats hold
      the whole total if and only if the counter was never taken away from the old chat, or its
      merge landed. So once the old counter is gone, a user keeps the total if and only if there
      was nothing there or the merge landed. */
  lemma CountIsKeptExactlyWhen(source: Counters, target: Counters, actions: seq<Action>, s: State, u: User)
    requires Run(Start(source, target), actions) == Some(s)
    ensures var start, total := Start(source, target), Of(source, u) + Of(target, u);
            && (InChats(s, u) + AllCarried(s.runs, u) == total <==> !EverDrops(start, actions, u))
            && (InChats(s, u) == total <==> !EverRemoves(start, actions, u) || EverLands(start, actions, u))
            && (Of(s.source, u) == 0 ==>
                  (InChats(s, u) == total <==> Of(source, u) == 0 || EverLands(start, actions, u)))
  {
    var start := Start(source, target);
    var end := RunMoves(start, actions, u, Of(source, u), Of(target, u), InOld);
    if Of(source, u) == 0 {
      NothingToMove(start, actions, u);
    }
    hide Run, EverDrops, EverRemoves, EverLands;
  }

  lemma {:induction false} NothingToMove(s: State, actions: seq<Action>, u: User)
    requires AllExact(s) && Run(s, actions).Some?
    requires exists before :: At(s, u, 0, before, InOld)
    ensures !EverRemoves(s, actions, u) && !EverLands(s, actions, u) && !EverDrops(s, actions, u)
    decreases |actions|
  {
    if actions != [] {
      var before :| At(s, u, 0, before, InOld);
      StepKeepsExact(s, actions[0]);
      StepMoves(s, actions[0], u, 0, before, InOld);
      assert !Removes(s, actions[0], u);
      assert !actions[0].Begin? ==> !Holds(s, actions[0].r, u);
      assert At(Apply(s, actions[0]), u, 0, before, InOld);
      NothingToMove(Apply(s, actions[0]), actions[1..], u);
    }
  }

  /** Append one action to a run. */
  lemma {:induction false} Extend(s: State, actions: seq<Action>, a: Action)
    requires Run(s, actions).Some? && Enabled(Run(s, actions).value, a)
    ensures Run(s, actions + [a]) == Some(Apply(Run(s, actions).value, a))
    decreases |actions|
  {
    if actions == [] {
      assert actions + [a] == [a];
      assert Run(Apply(s, a), [a][1..]) == Some(Apply(s, a));
    } else {
      assert (actions + [a])[1..] == actions[1..] + [a];
      Extend(Apply(s, actions[0]), actions[1..], a);
    }
  }

  /** One failed take is enough to lose a count for good, without any crash and with nothing
      applied: the run goes on to the final delete, which removes the counter it could not take. */
  lemma FailedTakeLosesTheCount(u: User, count: nat)
    requires count > 0
    ensures exists actions :: && Run(Start(map[u := count], map[]), actions).Some?
                              && InChats(Run(Start(map[u := count], map[]), actions).value, u) == 0
                              && Run(Start(map[u := count], map[]), actions).value.runs == [Finished]
  {
    var s0 := Start(map[u := count], map[]);
    var begin, fails, cleanup := Begin([Doc(u, count)]), TakeRaises(0, false), Cleanup(0);
    var s1 := Apply(s0, begin);
    assert Run(s0, []) == Some(s0);
    Extend(s0, [], begin);
    assert s1.runs == [Merging([Doc(u, count)])];
    Extend(s0, [] + [begin], fails);
    var s2 := Apply(s1, fails);
    assert [Doc(u, count)][1..] == [];
    assert s2.runs == [Merging([])];
    Extend(s0, [] + [begin] + [fails], cleanup);
    assert Apply(s2, cleanup).runs == [Finished];
  }
}
