// tcbot/database/cache/twolevel.py and memory.py: `get_or_fetch` for one key, with any
// number of callers, as steps between two awaits.
module SingleFlight {
  import opened Wrappers

  type Value = int
  type LockId = nat

  /** Where a caller is: not called yet, waiting for a lock, holding it while Redis is
      asked, holding it while fetch() runs, or out. */
  datatype Caller =
    | Idle
    | Queued(lock: LockId)
    | Asking(lock: LockId)
    | Fetching(lock: LockId)
    | Returned(value: Value)
    | Raised

  /** `l1` is the in-memory entry, `shared` the entry of `_locks`. */
  datatype State = State(callers: seq<Caller>, l1: Option<Value>, shared: Option<LockId>, locks: nat, fetches: nat)

  datatype Action =
    | Call(c: nat)
    | Acquire(c: nat)
    | RedisHit(c: nat, value: Value)
    | RedisMiss(c: nat)
    | FetchReturns(c: nat, value: Value)
    | FetchRaises(c: nat)
    | CancelCaller(c: nat)
    | Invalidate
    | Expire

  predicate Holds(caller: Caller, lock: LockId) {
    (caller.Asking? || caller.Fetching?) && caller.lock == lock
  }

  predicate Free(s: State, lock: LockId) {
    forall d :: 0 <= d < |s.callers| ==> !Holds(s.callers[d], lock)
  }

  predicate Enabled(s: State, a: Action) {
    match a
    case Call(c) => c < |s.callers| && s.callers[c].Idle?
    case Acquire(c) => c < |s.callers| && s.callers[c].Queued? && Free(s, s.callers[c].lock)
    case RedisHit(c, _) => c < |s.callers| && s.callers[c].Asking?
    case RedisMiss(c) => c < |s.callers| && s.callers[c].Asking?
    case FetchReturns(c, _) => c < |s.callers| && s.callers[c].Fetching?
    case FetchRaises(c) => c < |s.callers| && s.callers[c].Fetching?
    case CancelCaller(c) =>
      c < |s.callers| && (s.callers[c].Queued? || s.callers[c].Asking? || s.callers[c].Fetching?)
    case Invalidate => true
    case Expire => true
  }

  /** A caller leaves through the finally block, which pops the shared lock. */
  function Out(s: State, c: nat, caller: Caller): State
    requires c < |s.callers|
  {
    s.(callers := s.callers[c := caller], shared := None)
  }

  function Apply(s: State, a: Action): State
    requires Enabled(s, a)
  {
    match a
    case Call(c) =>
      if s.l1.Some? then s.(callers := s.callers[c := Returned(s.l1.value)])
      else if s.shared.Some? then s.(callers := s.callers[c := Queued(s.shared.value)])
      else s.(callers := s.callers[c := Queued(s.locks)], shared := Some(s.locks), locks := s.locks + 1)
    case Acquire(c) =>
      if s.l1.Some? then Out(s, c, Returned(s.l1.value))
      else s.(callers := s.callers[c := Asking(s.callers[c].lock)])
    case RedisHit(c, value) => Out(s, c, Returned(value)).(l1 := Some(value))
    case RedisMiss(c) => s.(callers := s.callers[c := Fetching(s.callers[c].lock)], fetches := s.fetches + 1)
    case FetchReturns(c, value) => Out(s, c, Returned(value)).(l1 := Some(value))
    case FetchRaises(c) => Out(s, c, Raised)
    case CancelCaller(c) => Out(s, c, Raised)
    case Invalidate => s.(l1 := None, shared := None)
    case Expire => s.(l1 := None)
  }

  function Run(s: State, actions: seq<Action>): Option<State>
    decreases |actions|
  {
    if actions == [] then Some(s)
    else if Enabled(s, actions[0]) then Run(Apply(s, actions[0]), actions[1..])
    else None
  }

  /** A cold key and `n` callers to come. */
  function Cold(n: nat): State {
    State(seq(n, _ => Idle), None, None, 0, 0)
  }

  /** No cancellation, invalidation, expiry, eviction or fetch failure. */
  predicate Calm(a: Action) {
    a.Call? || a.Acquire? || a.RedisHit? || a.RedisMiss? || a.FetchReturns?
  }

  predicate CalmRun(actions: seq<Action>) {
    forall a :: a in actions ==> Calm(a)
  }

  /* ----- The invariant ----- */

  /** Until the entry is filled nobody has left, everybody inside shares one lock, and the
      one who holds it is the only one who can be fetching. */
  predicate Filling(s: State) {
    && (forall c :: 0 <= c < |s.callers| ==> !s.callers[c].Returned? && !s.callers[c].Raised?)
    && (forall c :: 0 <= c < |s.callers| && !s.callers[c].Idle? ==> s.shared == Some(s.callers[c].lock))
    && (forall c, d :: 0 <= c < |s.callers| && 0 <= d < |s.callers| && c != d ==>
          !(InSection(s.callers[c]) && InSection(s.callers[d])))
    && s.fetches <= 1
    && (s.fetches == 1 ==> exists c :: 0 <= c < |s.callers| && s.callers[c].Fetching?)
  }

  predicate InSection(caller: Caller) {
    caller.Asking? || caller.Fetching?
  }

  /** Once it is filled, everybody who leaves takes the same value. */
  predicate Filled(s: State, value: Value) {
    && s.fetches <= 1
    && forall c :: 0 <= c < |s.callers| ==>
         !InSection(s.callers[c]) && !s.callers[c].Raised? && (s.callers[c].Returned? ==> s.callers[c].value == value)
  }

  predicate Inv(s: State) {
    match s.l1
    case None => Filling(s)
    case Some(value) => Filled(s, value)
  }

  lemma OnlyOneInSection(s: State, c: nat)
    requires Filling(s) && c < |s.callers| && InSection(s.callers[c])
    ensures forall d :: 0 <= d < |s.callers| && d != c ==> !InSection(s.callers[d])
    ensures s.callers[c].Asking? ==> s.fetches == 0
  {
  }

  lemma NobodyInside(s: State)
    requires Filling(s)
    ensures s.shared.None? ==> forall c :: 0 <= c < |s.callers| ==> s.callers[c].Idle?
  {
  }

  lemma FreeMeansNobody(s: State, c: nat)
    requires Filling(s) && c < |s.callers| && s.callers[c].Queued? && Free(s, s.callers[c].lock)
    ensures forall d :: 0 <= d < |s.callers| ==> !InSection(s.callers[d])
  {
    forall d | 0 <= d < |s.callers|
      ensures !InSection(s.callers[d])
    {
      assert !Holds(s.callers[d], s.callers[c].lock);
    }
  }

  lemma StepKeepsInv(s: State, a: Action)
    requires Inv(s) && Enabled(s, a) && Calm(a)
    ensures Inv(Apply(s, a))
  {
    var s' := Apply(s, a);
    if s.l1.None? {
      match a
      case Call(c) =>
        if s.fetches == 1 {
          var d :| 0 <= d < |s.callers| && s.callers[d].Fetching?;
          assert s'.callers[d].Fetching?;
        }
        NobodyInside(s);
      case Acquire(c) => FreeMeansNobody(s, c);
      case RedisHit(c, _) => OnlyOneInSection(s, c);
      case RedisMiss(c) =>
        OnlyOneInSection(s, c);
        assert s'.callers[c].Fetching?;
      case FetchReturns(c, _) => OnlyOneInSection(s, c);
    }
  }

  lemma {:induction false} RunKeepsInv(s: State, actions: seq<Action>)
    requires Inv(s) && CalmRun(actions) && Run(s, actions).Some?
    ensures Inv(Run(s, actions).value)
    decreases |actions|
  {
    if actions != [] {
      assert actions[0] in actions;
      StepKeepsInv(s, actions[0]);
      assert forall a :: a in actions[1..] ==> a in actions;
      RunKeepsInv(Apply(s, actions[0]), actions[1..]);
    }
  }

  /** Single flight: whatever the interleaving of the callers, fetch() runs at most once and
      all callers that have returned have the same value, although each of them pops the
      shared lock on its way out. */
  lemma AtMostOneFetch(n: nat, actions: seq<Action>, s: State)
    requires CalmRun(actions) && Run(Cold(n), actions) == Some(s)
    ensures s.fetches <= 1
    ensures forall c, d :: && 0 <= c < |s.callers| && 0 <= d < |s.callers|
                           && s.callers[c].Returned? && s.callers[d].Returned?
              ==> s.callers[c].value == s.callers[d].value
  {
    RunKeepsInv(Cold(n), actions);
  }

  /* ----- How many fetches there can be, from any state, cancellations included ----- */

  /** What holds after any steps whatever: locks are numbered as they are made, and nobody
      shares the inside of one. */
  predicate WellFormed(s: State) {
    && (forall c :: 0 <= c < |s.callers| ==> LockKnown(s.callers[c], s.locks))
    && (s.shared.Some? ==> s.shared.value < s.locks)
    && (forall c, d :: 0 <= c < d < |s.callers| && InSection(s.callers[c]) && InSection(s.callers[d])
          ==> s.callers[c].lock != s.callers[d].lock)
    && (forall c :: 0 <= c < |s.callers| && s.callers[c].Fetching? ==> s.fetches >= 1)
  }

  predicate LockKnown(caller: Caller, locks: nat) {
    caller.Queued? || InSection(caller) ==> caller.lock < locks
  }

  lemma StepKeepsWellFormed(s: State, a: Action)
    requires WellFormed(s) && Enabled(s, a)
    ensures WellFormed(Apply(s, a))
  {
    var s' := Apply(s, a);
    if a.Acquire? {
      forall d | 0 <= d < |s.callers|
        ensures !Holds(s.callers[d], s.callers[a.c].lock)
      {
      }
    }
    forall c | 0 <= c < |s'.callers|
      ensures LockKnown(s'.callers[c], s'.locks)
    {
      assert LockKnown(s.callers[c], s.locks);
    }
  }

  lemma {:induction false} RunKeepsWellFormed(s: State, actions: seq<Action>)
    requires WellFormed(s) && Run(s, actions).Some?
    ensures WellFormed(Run(s, actions).value)
    decreases |actions|
  {
    if actions != [] {
      StepKeepsWellFormed(s, actions[0]);
      hide WellFormed;
      RunKeepsWellFormed(Apply(s, actions[0]), actions[1..]);
    }
  }

  /* ----- What callers get, in any run ----- */

  /** The last value that Redis or a fetch delivered since the last invalidation or expiry. */
  function LastDelivered(actions: seq<Action>): Option<Value> {
    if actions == [] then None
    else
      var n := |actions| - 1;
      match actions[n]
      case RedisHit(_, value) => Some(value)
      case FetchReturns(_, value) => Some(value)
      case Invalidate => None
      case Expire => None
      case _ => LastDelivered(actions[..n])
  }

  lemma {:induction false} RunSnoc(s: State, actions: seq<Action>, a: Action)
    requires Run(s, actions + [a]).Some?
    ensures Run(s, actions).Some? && Enabled(Run(s, actions).value, a)
    ensures Run(s, actions + [a]).value == Apply(Run(s, actions).value, a)
    decreases |actions|
  {
    if actions == [] {
      assert actions + [a] == [a];
      NoSteps(Apply(s, a));
      assert [a][1..] == [];
    } else {
      assert (actions + [a])[0] == actions[0] && (actions + [a])[1..] == actions[1..] + [a];
      hide Enabled;
      RunSnoc(Apply(s, actions[0]), actions[1..], a);
    }
  }

  /** Whatever the callers do, and whoever is cancelled: the entry in memory is what was last
      delivered. */
  lemma {:induction false} EntryIsLastDelivered(n: nat, actions: seq<Action>)
    requires Run(Cold(n), actions).Some?
    ensures Run(Cold(n), actions).value.l1 == LastDelivered(actions)
    decreases |actions|
  {
    if actions != [] {
      var k := |actions| - 1;
      assert actions == actions[..k] + [actions[k]];
      hide Run, Enabled;
      RunSnoc(Cold(n), actions[..k], actions[k]);
      EntryIsLastDelivered(n, actions[..k]);
    } else {
      NoSteps(Cold(n));
    }
  }

  /** What a caller gets: when it calls, and again when it has the lock, the last value delivered
      if there is one; else the value of its own Redis reply or fetch; or its exception. Nobody
      else moves. */
  lemma CallersGetTheLastDelivered(n: nat, actions: seq<Action>, s: State, a: Action)
    requires Run(Cold(n), actions) == Some(s) && Enabled(s, a)
    ensures var last, s' := LastDelivered(actions), Apply(s, a);
            match a
            case Call(c) => if last.Some? then s'.callers[c] == Returned(last.value) else s'.callers[c].Queued?
            case Acquire(c) =>
              s'.callers[c] == if last.Some? then Returned(last.value) else Asking(s.callers[c].lock)
            case RedisHit(c, value) => s'.callers[c] == Returned(value)
            case RedisMiss(c) => s'.callers[c] == Fetching(s.callers[c].lock) && s'.fetches == s.fetches + 1
            case FetchReturns(c, value) => s'.callers[c] == Returned(value)
            case FetchRaises(c) => s'.callers[c] == Raised
            case CancelCaller(c) => s'.callers[c] == Raised
            case _ => s'.callers == s.callers
    ensures forall d :: 0 <= d < |s.callers| && !(OfCaller(a) && d == a.c) ==>
              d < |Apply(s, a).callers| && Apply(s, a).callers[d] == s.callers[d]
  {
    EntryIsLastDelivered(n, actions);
  }

  predicate OfCaller(a: Action) {
    !a.Invalidate? && !a.Expire?
  }

  /** A caller that leaves with the lock lets the next waiter in, however it leaves. */
  lemma LeavingFreesTheLock(n: nat, actions: seq<Action>, s: State, a: Action, d: nat)
    requires Run(Cold(n), actions) == Some(s) && Enabled(s, a)
    requires a.RedisHit? || a.FetchReturns? || a.FetchRaises? || a.CancelCaller?
    requires InSection(s.callers[a.c]) && d < |s.callers| && s.callers[d] == Queued(s.callers[a.c].lock)
    ensures Enabled(Apply(s, a), Acquire(d))
  {
    RunKeepsWellFormed(Cold(n), actions);
    var s' := Apply(s, a);
    forall e | 0 <= e < |s'.callers|
      ensures !Holds(s'.callers[e], s.callers[a.c].lock)
    {
    }
  }

  /** A call after an invalidation does not wait for what began before: it gets a lock of its own,
      is let in at once and asks Redis and the database again. An entry may also expire at any
      time; then the next call is not answered from it either. */
  lemma InvalidationCutsLoose(n: nat, actions: seq<Action>, s: State, c: nat)
    requires Run(Cold(n), actions) == Some(s) && c < |s.callers| && s.callers[c].Idle?
    ensures var called := Apply(Apply(s, Invalidate), Call(c));
            && Enabled(called, Acquire(c))
            && Apply(called, Acquire(c)).callers[c].Asking?
    ensures Apply(Apply(s, Expire), Call(c)).callers[c].Queued?
  {
    RunKeepsWellFormed(Cold(n), actions);
    var called := Apply(Apply(s, Invalidate), Call(c));
    forall d | 0 <= d < |called.callers|
      ensures !Holds(called.callers[d], s.locks)
    {
      assert LockKnown(s.callers[d], s.locks);
    }
  }

  predicate AnIdle(s: State) {
    exists c :: 0 <= c < |s.callers| && s.callers[c].Idle?
  }

  /** The lock that the next call gets. */
  function NextLock(s: State): LockId {
    if s.shared.Some? then s.shared.value else s.locks
  }

  function AskingLocks(s: State): set<LockId> {
    set c | 0 <= c < |s.callers| && s.callers[c].Asking? :: s.callers[c].lock
  }

  function QueuedLocks(s: State): set<LockId> {
    set c | 0 <= c < |s.callers| && s.callers[c].Queued? :: s.callers[c].lock
  }

  function FetchingLocks(s: State): set<LockId> {
    set c | 0 <= c < |s.callers| && s.callers[c].Fetching? :: s.callers[c].lock
  }

  /** The locks under which one more fetch can start: somebody asks Redis under it; or, while
      the entry is missing, somebody waits for it or is going to, and nobody fetches under it. */
  function Open(s: State): set<LockId> {
    if s.l1.Some? then AskingLocks(s)
    else AskingLocks(s) + (QueuedLocks(s) + (if AnIdle(s) then {NextLock(s)} else {}) - FetchingLocks(s))
  }

  function MostFetches(s: State): nat {
    s.fetches + |Open(s)|
  }

  lemma SubsetSize(a: set<LockId>, b: set<LockId>)
    requires a <= b
    ensures |a| <= |b|
  {
    assert b == a + (b - a);
  }

  /** The other callers stay where they are. */
  lemma OthersStay(s: State, s': State, c: nat)
    requires c < |s.callers| && |s'.callers| == |s.callers| && s'.callers == s.callers[c := s'.callers[c]]
    ensures AskingLocks(s') <= AskingLocks(s) + LockIf(s'.callers[c], s'.callers[c].Asking?)
    ensures AskingLocks(s) <= AskingLocks(s') + LockIf(s.callers[c], s.callers[c].Asking?)
    ensures QueuedLocks(s') <= QueuedLocks(s) + LockIf(s'.callers[c], s'.callers[c].Queued?)
    ensures QueuedLocks(s) <= QueuedLocks(s') + LockIf(s.callers[c], s.callers[c].Queued?)
    ensures FetchingLocks(s') <= FetchingLocks(s) + LockIf(s'.callers[c], s'.callers[c].Fetching?)
    ensures FetchingLocks(s) <= FetchingLocks(s') + LockIf(s.callers[c], s.callers[c].Fetching?)
    ensures !s'.callers[c].Idle? && AnIdle(s') ==> AnIdle(s)
    ensures !s.callers[c].Idle? && AnIdle(s) ==> AnIdle(s')
  {
    assert forall d :: 0 <= d < |s.callers| && d != c ==> s.callers[d] == s'.callers[d];
  }

  function LockIf(caller: Caller, condition: bool): set<LockId> {
    if condition && (caller.Queued? || InSection(caller)) then {caller.lock} else {}
  }

  /** A caller that calls, or gets the lock, leaves the number of fetches to come as it was. */
  lemma QueueingKeepsOpen(s: State, a: Action)
    requires WellFormed(s) && Enabled(s, a) && s.l1.None? && (a.Call? || a.Acquire?)
    ensures Open(Apply(s, a)) == Open(s) && Apply(s, a).fetches == s.fetches
  {
    var s' := Apply(s, a);
    OthersStay(s, s', a.c);
    if a.Call? {
      assert s.callers[a.c].Idle?;
      assert AnIdle(s);
      assert NextLock(s') == NextLock(s) == s'.callers[a.c].lock;
      assert s'.callers[a.c].lock in QueuedLocks(s');
      if s.shared.None? {
        assert s.locks !in FetchingLocks(s) by {
          forall c | 0 <= c < |s.callers| && s.callers[c].Fetching?
            ensures s.callers[c].lock != s.locks
          {
            assert LockKnown(s.callers[c], s.locks);
          }
        }
      }
    } else {
      var lock := s.callers[a.c].lock;
      assert lock in QueuedLocks(s) && lock in AskingLocks(s');
      assert lock !in FetchingLocks(s) by {
        forall c | 0 <= c < |s.callers| && s.callers[c].Fetching?
          ensures s.callers[c].lock != lock
        {
          assert !Holds(s.callers[c], lock);
        }
      }
    }
  }

  /** A miss turns one of the fetches to come into a fetch. */
  lemma MissOpensOneLess(s: State, a: Action)
    requires WellFormed(s) && Enabled(s, a) && a.RedisMiss?
    ensures s.callers[a.c].lock in Open(s)
    ensures Open(Apply(s, a)) == Open(s) - {s.callers[a.c].lock} && Apply(s, a).fetches == s.fetches + 1
  {
    var s' := Apply(s, a);
    var lock := s.callers[a.c].lock;
    OthersStay(s, s', a.c);
    assert lock in AskingLocks(s) && lock in FetchingLocks(s');
    assert lock !in AskingLocks(s') by {
      forall c | 0 <= c < |s'.callers| && s'.callers[c].Asking?
        ensures s'.callers[c].lock != lock
      {
        assert c != a.c;
      }
    }
  }

  /** Whoever leaves, and whatever fills the entry, closes some. */
  lemma LeavingOpensNothing(s: State, a: Action)
    requires WellFormed(s) && Enabled(s, a) && Calm(a) && !a.RedisMiss?
    requires s.l1.Some? || a.RedisHit? || a.FetchReturns?
    ensures Open(Apply(s, a)) <= Open(s) && Apply(s, a).fetches == s.fetches
  {
    OthersStay(s, Apply(s, a), a.c);
  }

  lemma CalmStepKeepsMost(s: State, a: Action)
    requires WellFormed(s) && Enabled(s, a) && Calm(a)
    ensures MostFetches(Apply(s, a)) <= MostFetches(s)
  {
    if a.RedisMiss? {
      MissOpensOneLess(s, a);
    } else if s.l1.None? && (a.Call? || a.Acquire?) {
      QueueingKeepsOpen(s, a);
    } else {
      LeavingOpensNothing(s, a);
      SubsetSize(Open(Apply(s, a)), Open(s));
    }
  }

  lemma {:induction false} CalmRunKeepsMost(s: State, actions: seq<Action>)
    requires WellFormed(s) && CalmRun(actions) && Run(s, actions).Some?
    ensures MostFetches(Run(s, actions).value) <= MostFetches(s)
    decreases |actions|
  {
    if actions != [] {
      assert actions[0] in actions;
      StepKeepsWellFormed(s, actions[0]);
      CalmStepKeepsMost(s, actions[0]);
      hide WellFormed, MostFetches;
      assert forall a :: a in actions[1..] ==> a in actions;
      CalmRunKeepsMost(Apply(s, actions[0]), actions[1..]);
    }
  }

  /** How many steps the callers are away from having fetched. */
  function Steps(callers: seq<Caller>): nat {
    if callers == [] then 0
    else (match callers[0]
          case Idle => 3
          case Queued(_) => 2
          case Asking(_) => 1
          case _ => 0) + Steps(callers[1..])
  }

  lemma {:induction false} StepsUpdate(callers: seq<Caller>, c: nat, caller: Caller)
    requires c < |callers| && Steps([caller]) < Steps([callers[c]])
    ensures Steps(callers[c := caller]) < Steps(callers)
  {
    if c > 0 {
      assert callers[c := caller][1..] == callers[1..][c - 1 := caller];
      StepsUpdate(callers[1..], c - 1, caller);
    } else {
      assert callers[c := caller][1..] == callers[1..] && [caller][1..] == [callers[c]][1..] == [];
    }
  }

  predicate Nearer(s: State, a: Action) {
    && Calm(a) && Enabled(s, a)
    && MostFetches(Apply(s, a)) == MostFetches(s) && Steps(Apply(s, a).callers) < Steps(s.callers)
  }

  lemma MissIsNearer(s: State, c: nat)
    requires WellFormed(s) && c < |s.callers| && s.callers[c].Asking?
    ensures Nearer(s, RedisMiss(c))
  {
    MissOpensOneLess(s, RedisMiss(c));
    StepsUpdate(s.callers, c, Fetching(s.callers[c].lock));
    hide WellFormed, Open, Steps;
  }

  lemma LocksCover(s: State, d: nat)
    requires d < |s.callers|
    ensures s.callers[d].Fetching? ==> s.callers[d].lock in FetchingLocks(s)
    ensures s.callers[d].Asking? ==> s.callers[d].lock in AskingLocks(s)
  {
  }

  lemma LockIsNearer(s: State, c: nat)
    requires WellFormed(s) && s.l1.None? && AskingLocks(s) == {}
    requires c < |s.callers| && s.callers[c].Queued? && s.callers[c].lock !in FetchingLocks(s)
    ensures Nearer(s, Acquire(c))
  {
    var lock := s.callers[c].lock;
    assert Free(s, lock) by {
      forall d | 0 <= d < |s.callers| ensures !Holds(s.callers[d], lock) {
        LocksCover(s, d);
      }
    }
    QueueingKeepsOpen(s, Acquire(c));
    StepsUpdate(s.callers, c, Asking(lock));
    hide WellFormed, Open, Steps, Free;
  }

  lemma CallIsNearer(s: State, c: nat)
    requires WellFormed(s) && s.l1.None? && c < |s.callers| && s.callers[c].Idle?
    ensures Nearer(s, Call(c))
  {
    QueueingKeepsOpen(s, Call(c));
    StepsUpdate(s.callers, c, Apply(s, Call(c)).callers[c]);
    hide WellFormed, Open, Steps;
  }

  /** As long as one is open, a calm step brings the next fetch nearer: a miss, the lock, or a
      call. */
  lemma StepTowardsFetch(s: State) returns (a: Action)
    requires WellFormed(s) && Open(s) != {}
    ensures Nearer(s, a)
  {
    hide WellFormed, Nearer;
    if c :| 0 <= c < |s.callers| && s.callers[c].Asking? {
      a := RedisMiss(c);
      MissIsNearer(s, c);
    } else {
      assert AskingLocks(s) == {};
      if c :| 0 <= c < |s.callers| && s.callers[c].Queued? && s.callers[c].lock !in FetchingLocks(s) {
        a := Acquire(c);
        LockIsNearer(s, c);
      } else {
        var c :| 0 <= c < |s.callers| && s.callers[c].Idle?;
        a := Call(c);
        CallIsNearer(s, c);
      }
    }
  }

  lemma {:induction false} MostIsReached(s: State) returns (actions: seq<Action>)
    requires WellFormed(s)
    ensures CalmRun(actions) && Run(s, actions).Some? && Run(s, actions).value.fetches == MostFetches(s)
    decreases Steps(s.callers)
  {
    if Open(s) == {} {
      actions := [];
    } else {
      var a := StepTowardsFetch(s);
      StepKeepsWellFormed(s, a);
      hide WellFormed, MostFetches, Open, Steps;
      var rest := MostIsReached(Apply(s, a));
      actions := [a] + rest;
      assert actions[1..] == rest;
    }
  }

  /** From any state that any run reaches, cancellations, invalidations and failures included,
      the calm continuations make at most MostFetches fetches, and one of them makes that many. */
  lemma MostFetchesIsExact(n: nat, actions: seq<Action>, s: State)
    requires Run(Cold(n), actions) == Some(s)
    ensures forall more :: CalmRun(more) && Run(s, more).Some? ==> Run(s, more).value.fetches <= MostFetches(s)
    ensures exists more :: CalmRun(more) && Run(s, more).Some? && Run(s, more).value.fetches == MostFetches(s)
  {
    RunKeepsWellFormed(Cold(n), actions);
    forall more | CalmRun(more) && Run(s, more).Some?
      ensures Run(s, more).value.fetches <= MostFetches(s)
    {
      CalmRunKeepsMost(s, more);
    }
    var more := MostIsReached(s);
  }

  /** A second fetch can still come. */
  ghost predicate CanFetchTwice(s: State) {
    exists more :: CalmRun(more) && Run(s, more).Some? && Run(s, more).value.fetches >= 2
  }

  predicate Inside(caller: Caller) {
    caller.Queued? || InSection(caller)
  }

  /** Until the entry is filled, everybody inside has the one lock. */
  lemma OneLock(s: State, c: nat)
    requires Filling(s) && c < |s.callers| && Inside(s.callers[c])
    ensures s.shared == Some(s.callers[c].lock)
  {
  }

  predicate OthersInside(s: State, c: nat) {
    exists d :: 0 <= d < |s.callers| && d != c && Inside(s.callers[d])
  }

  /** A waiting or asking caller is cancelled: the others share its lock ... */
  lemma OthersLocks(s: State, c: nat)
    requires Filling(s) && WellFormed(s) && s.l1.None? && Enabled(s, CancelCaller(c)) && !s.callers[c].Fetching?
    ensures var s', lock := Apply(s, CancelCaller(c)), s.callers[c].lock;
            && lock < s.locks
            && AskingLocks(s') + QueuedLocks(s') + FetchingLocks(s') == (if OthersInside(s, c) then {lock} else {})
  {
    var s', lock := Apply(s, CancelCaller(c)), s.callers[c].lock;
    OneLock(s, c);
    assert LockKnown(s.callers[c], s.locks);
    assert forall d :: 0 <= d < |s.callers| && d != c ==> s'.callers[d] == s.callers[d];
    forall d | 0 <= d < |s.callers| && Inside(s.callers[d])
      ensures s.callers[d].lock == lock
    {
      OneLock(s, d);
    }
    hide Filling, WellFormed;
    if d :| 0 <= d < |s.callers| && d != c && Inside(s.callers[d]) {
      assert s'.callers[d].lock in AskingLocks(s') + QueuedLocks(s') + FetchingLocks(s');
    }
  }

  /** ... and at most one of them is fetching. */
  lemma OthersFetch(s: State, c: nat)
    requires Filling(s) && WellFormed(s) && s.l1.None? && Enabled(s, CancelCaller(c)) && !s.callers[c].Fetching?
    ensures var s', lock := Apply(s, CancelCaller(c)), s.callers[c].lock;
            if s.fetches == 1 then FetchingLocks(s') == {lock} && AskingLocks(s') == {}
            else FetchingLocks(s') == {}
  {
    var s', lock := Apply(s, CancelCaller(c)), s.callers[c].lock;
    assert forall d :: 0 <= d < |s.callers| && d != c ==> s'.callers[d] == s.callers[d];
    if s.fetches == 1 {
      var e :| 0 <= e < |s.callers| && s.callers[e].Fetching?;
      OnlyOneInSection(s, e);
      OneLock(s, c);
      OneLock(s, e);
      assert s'.callers[e].lock in FetchingLocks(s');
    }
  }

  /** While a caller waits or asks, what is open after its cancellation is the lock of the
      others, unless one of them fetches, and the lock of the next call. */
  lemma OpenAfterCancel(s: State, c: nat)
    requires Filling(s) && WellFormed(s) && s.l1.None? && Enabled(s, CancelCaller(c)) && !s.callers[c].Fetching?
    ensures var all, lock := Open(Apply(s, CancelCaller(c))), s.callers[c].lock;
            && lock != s.locks && (forall other :: other in all ==> other == lock || other == s.locks)
            && (s.locks in all <==> AnIdle(s))
            && (lock in all <==> OthersInside(s, c) && s.fetches == 0)
  {
    var s', lock := Apply(s, CancelCaller(c)), s.callers[c].lock;
    OthersLocks(s, c);
    OthersFetch(s, c);
    IdleStays(s, c);
    assert s.fetches <= 1;
    var asking, queued, fetching := AskingLocks(s'), QueuedLocks(s'), FetchingLocks(s');
    assert Open(s') == asking + (queued + (if AnIdle(s') then {s.locks} else {}) - fetching);
    hide *;
    forall other | other in asking || other in queued || other in fetching
      ensures other == lock
    {
      assert other in asking + queued + fetching;
    }
    assert lock in asking + queued + fetching <==> OthersInside(s, c);
  }

  lemma OneOrTwo(some: set<LockId>, a: LockId, b: LockId)
    requires a != b && forall other :: other in some ==> other == a || other == b
    ensures |some| >= 1 <==> a in some || b in some
    ensures |some| >= 2 <==> a in some && b in some
  {
    if a in some && b in some {
      assert some == {a, b};
    } else if a in some {
      assert some == {a};
    } else if b in some {
      assert some == {b};
    } else {
      assert some == {};
    }
  }

  lemma WaiterGone(s: State, c: nat)
    requires Filling(s) && WellFormed(s) && s.l1.None? && Enabled(s, CancelCaller(c)) && !s.callers[c].Fetching?
    ensures MostFetches(Apply(s, CancelCaller(c))) >= 2 <==> AnIdle(s) && OthersInside(s, c)
  {
    var s' := Apply(s, CancelCaller(c));
    assert s'.fetches == s.fetches <= 1;
    OpenAfterCancel(s, c);
    if s.fetches == 1 {
      var e :| 0 <= e < |s.callers| && s.callers[e].Fetching?;
      assert Inside(s.callers[e]) && OthersInside(s, c);
    }
    hide Open, AnIdle, OthersInside, Filling, WellFormed;
    OneOrTwo(Open(s'), s.callers[c].lock, s.locks);
  }

  lemma AfterCancel(s: State, c: nat)
    requires Filling(s) && WellFormed(s) && s.l1.None? && Enabled(s, CancelCaller(c))
    ensures MostFetches(Apply(s, CancelCaller(c))) >= 2 <==>
            if s.callers[c].Fetching? then |s.callers| >= 2 else AnIdle(s) && OthersInside(s, c)
  {
    hide MostFetches, OthersInside, AnIdle, WellFormed, Filling;
    if s.callers[c].Fetching? {
      FetcherGone(s, c);
    } else {
      WaiterGone(s, c);
    }
  }

  lemma IdleStays(s: State, c: nat)
    requires Enabled(s, CancelCaller(c))
    ensures AnIdle(Apply(s, CancelCaller(c))) <==> AnIdle(s)
  {
    OthersStay(s, Apply(s, CancelCaller(c)), c);
  }

  lemma FetcherGone(s: State, c: nat)
    requires Filling(s) && WellFormed(s) && s.l1.None? && c < |s.callers| && s.callers[c].Fetching?
    ensures MostFetches(Apply(s, CancelCaller(c))) >= 2 <==> |s.callers| >= 2
  {
    var s' := Apply(s, CancelCaller(c));
    OnlyOneInSection(s, c);
    assert forall d :: 0 <= d < |s.callers| && d != c ==> s'.callers[d] == s.callers[d];
    assert AskingLocks(s') == {} && FetchingLocks(s') == {};
    if |s.callers| >= 2 {
      var d := if c == 0 then 1 else 0;
      if s'.callers[d].Queued? {
        assert s'.callers[d].lock in Open(s');
      } else {
        assert s'.callers[d].Idle? && AnIdle(s') && NextLock(s') in Open(s');
      }
      SubsetSize({if s'.callers[d].Queued? then s'.callers[d].lock else NextLock(s')}, Open(s'));
    } else {
      assert Open(s') == {};
    }
  }

  /** Exactly when a cancellation breaks single flight: after any calm run that has not filled
      the entry, cancelling caller `c` lets a second fetch come if and only if `c` was fetching
      and is not the only caller; or `c` was not fetching, somebody else is inside and somebody
      has still to call. */
  lemma CancellationHurtsExactlyWhen(n: nat, actions: seq<Action>, s: State, c: nat)
    requires CalmRun(actions) && Run(Cold(n), actions) == Some(s) && s.l1.None? && Enabled(s, CancelCaller(c))
    ensures CanFetchTwice(Apply(s, CancelCaller(c))) <==>
            if s.callers[c].Fetching? then |s.callers| >= 2
            else AnIdle(s) && OthersInside(s, c)
  {
    RunKeepsInv(Cold(n), actions);
    RunKeepsWellFormed(Cold(n), actions);
    AfterCancel(s, c);
    Extend(Cold(n), actions, CancelCaller(c));
    MostFetchesIsExact(n, actions + [CancelCaller(c)], Apply(s, CancelCaller(c)));
  }

  /** Append one action to a run. */
  lemma {:induction false} Extend(s: State, actions: seq<Action>, a: Action)
    requires Run(s, actions).Some? && Enabled(Run(s, actions).value, a)
    ensures Run(s, actions + [a]) == Some(Apply(Run(s, actions).value, a))
    decreases |actions|
  {
    if actions == [] {
      assert actions + [a] == [a];
      assert Run(Apply(s, a), [a][1..]) == Some(Apply(s, a));
    } else {
      assert (actions + [a])[1..] == actions[1..] + [a];
      Extend(Apply(s, actions[0]), actions[1..], a);
    }
  }

  predicate CalmBut(actions: seq<Action>, exception: Action) {
    forall a :: a in actions ==> Calm(a) || a == exception
  }

  lemma Next(n: nat, actions: seq<Action>, now: State, a: Action) returns (actions': seq<Action>, now': State)
    requires Run(Cold(n), actions) == Some(now) && Enabled(now, a)
    requires CalmBut(actions, CancelCaller(1)) && (Calm(a) || a == CancelCaller(1))
    ensures now' == Apply(now, a) && Run(Cold(n), actions') == Some(now') && CalmBut(actions', CancelCaller(1))
  {
    Extend(Cold(n), actions, a);
    actions', now' := actions + [a], Apply(now, a);
  }

  /** One caller is fetching, another one waits for the lock. */
  lemma FetchingAndWaiting() returns (run: seq<Action>, s: State)
    ensures Run(Cold(3), run) == Some(s) && CalmBut(run, CancelCaller(1))
    ensures s.callers == [Fetching(0), Queued(0), Idle] && s.l1.None? && s.shared == Some(0)
    ensures s.locks == 1 && s.fetches == 1
  {
    hide Run;
    NoSteps(Cold(3));
    run, s := Next(3, [], Cold(3), Call(0));
    run, s := Next(3, run, s, Acquire(0));
    run, s := Next(3, run, s, RedisMiss(0));
    run, s := Next(3, run, s, Call(1));
  }

  /** One cancelled waiter is enough for two fetches: it pops the lock that the fetching
      caller holds, so the next caller makes a new one. */
  lemma CancelledWaiterBreaksSingleFlight()
    ensures exists actions :: && CalmBut(actions, CancelCaller(1))
                              && Run(Cold(3), actions).Some? && Run(Cold(3), actions).value.fetches == 2
  {
    hide Run;
    var run, s := FetchingAndWaiting();
    run, s := Next(3, run, s, CancelCaller(1));
    run, s := Next(3, run, s, Call(2));
    run, s := Next(3, run, s, Acquire(2));
    run, s := Next(3, run, s, RedisMiss(2));
  }

  lemma NoSteps(s: State)
    ensures Run(s, []) == Some(s)
  {
  }
}
