// tcbot/database/cache/twolevel.py (`_enqueue_redis_mutation`, `clear_all`) and
// mutations.py: the ordered Redis mutations of one prefix on one event loop.
module MutationQueue {
  import opened Wrappers

  type Key = string
  type Payload = string
  type Redis = map<Key, Payload>

  /** What put(), invalidate() and clear_all() ask for. */
  datatype Mutation = Put(key: Key, payload: Payload) | Delete(key: Key) | Clear

  /** What a mutation did to the keys of the prefix: a write that timed out or met no client
      did all or nothing; a sweep that failed removed some keys. */
  datatype Effect = Wrote(key: Key, payload: Payload) | Removed(keys: set<Key>) | RemovedAll | Nothing

  function Changed(redis: Redis, e: Effect): Redis {
    match e
    case Wrote(key, payload) => redis[key := payload]
    case Removed(keys) => redis - keys
    case RemovedAll => map[]
    case Nothing => redis
  }

  /** The whole effect of a mutation. */
  function Whole(op: Mutation): Effect {
    match op
    case Put(key, payload) => Wrote(key, payload)
    case Delete(key) => Removed({key})
    case Clear => RemovedAll
  }

  /** A background task: it awaits `previous`, then runs its mutation. `swept` are the keys
      that a running sweep has unlinked so far. */
  datatype Status = Waiting | Running(swept: set<Key>) | Done(effect: Effect, cancelled: bool)

  datatype Task = Task(op: Mutation, droppable: bool, previous: Option<nat>, status: Status, settled: bool)

  /** `tail` and `pending` are the entries of _redis_tails and _redis_pending; a missing
      counter is zero. */
  datatype State = State(tasks: seq<Task>, tail: Option<nat>, pending: nat, redis: Redis)

  const MAX_PENDING: nat := 200

  datatype Action =
    | Enqueue(op: Mutation, droppable: bool)
    | Begin(i: nat)
    | Sweep(i: nat, keys: set<Key>)
    | Finish(i: nat, lands: bool)
    | Cancel(i: nat, lands: bool)
    | CancelUnstarted(i: nat)
    | Settle(i: nat)

  /** The task that `i` awaits, if any, has ended. */
  predicate PreviousDone(s: State, i: nat)
    requires i < |s.tasks|
  {
    s.tasks[i].previous.Some? ==>
      s.tasks[i].previous.value < |s.tasks| && s.tasks[s.tasks[i].previous.value].status.Done?
  }

  predicate PreviousCancelled(s: State, i: nat)
    requires i < |s.tasks| && PreviousDone(s, i)
  {
    s.tasks[i].previous.Some? && s.tasks[s.tasks[i].previous.value].status.cancelled
  }

  /** A task that is cancelled while it awaits its predecessor ends only once that has ended,
      because cancelling an await cancels what is awaited; and a cancelled predecessor cancels
      its successor. One that is cancelled before its first step ends at once. A sweep ends when
      its scan comes back to zero: every key that stayed has been seen. */
  predicate Enabled(s: State, a: Action) {
    match a
    case Enqueue(_, _) => true
    case Begin(i) =>
      i < |s.tasks| && s.tasks[i].status.Waiting? && PreviousDone(s, i) && !PreviousCancelled(s, i)
    case Sweep(i, keys) => i < |s.tasks| && s.tasks[i].status.Running? && s.tasks[i].op.Clear?
    case Finish(i, lands) =>
      i < |s.tasks| && s.tasks[i].status.Running? && (s.tasks[i].op.Clear? && lands ==> s.redis == map[])
    case Cancel(i, lands) =>
      i < |s.tasks| && !s.tasks[i].status.Done? && PreviousDone(s, i)
      && (lands ==> s.tasks[i].status.Running? && !s.tasks[i].op.Clear?)
    case CancelUnstarted(i) => i < |s.tasks| && s.tasks[i].status.Waiting?
    case Settle(i) => i < |s.tasks| && s.tasks[i].status.Done? && !s.tasks[i].settled
  }

  /** What a task that ends now has done. */
  function EffectOf(task: Task, lands: bool): Effect {
    if lands then Whole(task.op)
    else if task.status.Running? then Removed(task.status.swept)
    else Nothing
  }

  function Ended(s: State, i: nat, lands: bool, cancelled: bool): State
    requires i < |s.tasks|
  {
    var effect := EffectOf(s.tasks[i], lands);
    s.(tasks := s.tasks[i := s.tasks[i].(status := Done(effect, cancelled))], redis := Changed(s.redis, effect))
  }

  /** The state with one more task at the tail. */
  function Appended(s: State, op: Mutation, droppable: bool): State {
    State(s.tasks + [Task(op, droppable, s.tail, Waiting, false)], Some(|s.tasks|), s.pending + 1, s.redis)
  }

  function Apply(s: State, a: Action): State
    requires Enabled(s, a)
  {
    match a
    case Enqueue(op, droppable) =>
      if droppable && s.pending >= MAX_PENDING then s
      else Appended(s, op, droppable)
    case Begin(i) => s.(tasks := s.tasks[i := s.tasks[i].(status := Running({}))])
    case Sweep(i, keys) =>
      s.(tasks := s.tasks[i := s.tasks[i].(status := Running(s.tasks[i].status.swept + keys))], redis := s.redis - keys)
    case Finish(i, lands) => Ended(s, i, lands, false)
    case Cancel(i, lands) => Ended(s, i, lands, true)
    case CancelUnstarted(i) => Ended(s, i, false, true)
    case Settle(i) =>
      s.(tasks := s.tasks[i := s.tasks[i].(settled := true)],
         tail := if s.tail == Some(i) then None else s.tail,
         pending := if s.pending <= 1 then 0 else s.pending - 1)
  }

  function Run(s: State, actions: seq<Action>): Option<State>
    decreases |actions|
  {
    if actions == [] then Some(s)
    else if Enabled(s, actions[0]) then Run(Apply(s, actions[0]), actions[1..])
    else None
  }

  /** Nothing is cancelled before its first step while what it would await is unended. */
  predicate NoEarlyCancel(s: State, actions: seq<Action>)
    requires Run(s, actions).Some?
    decreases |actions|
  {
    actions == [] ||
    (&& (actions[0].CancelUnstarted? ==> PreviousDone(s, actions[0].i))
     && NoEarlyCancel(Apply(s, actions[0]), actions[1..]))
  }

  /** A waiting task that can no longer run: the one it awaits was cancelled, or cannot run. */
  predicate Doomed(tasks: seq<Task>, j: nat)
    requires j < |tasks|
    decreases j
  {
    && tasks[j].status.Waiting? && tasks[j].previous.Some? && tasks[j].previous.value < j
    && var p := tasks[j].previous.value;
       (tasks[p].status.Done? && tasks[p].status.cancelled) || Doomed(tasks, p)
  }

  /** Nothing before task `i` can still act on Redis. */
  predicate NothingAhead(s: State, i: nat)
    requires i <= |s.tasks|
  {
    forall j :: 0 <= j < i ==> s.tasks[j].status.Done? || Doomed(s.tasks, j)
  }

  /** Nothing is cancelled before its first step while something ahead of it can still act. */
  predicate HarmlessCancels(s: State, actions: seq<Action>)
    requires Run(s, actions).Some?
    decreases |actions|
  {
    actions == [] ||
    (&& (actions[0].CancelUnstarted? ==> NothingAhead(s, actions[0].i))
     && HarmlessCancels(Apply(s, actions[0]), actions[1..]))
  }

  function Initial(redis: Redis): State {
    State([], None, 0, redis)
  }

  /* ----- The sequential log ----- */

  /** What a task in this status has made of the Redis it found. */
  function Advanced(before: Redis, status: Status): Redis {
    match status
    case Waiting => before
    case Running(swept) => before - swept
    case Done(effect, _) => Changed(before, effect)
  }

  /** Redis after the tasks of a list, one after the other, each with what it has done. */
  function Replay(redis: Redis, tasks: seq<Task>): Redis {
    if tasks == [] then redis
    else Advanced(Replay(redis, tasks[..|tasks| - 1]), tasks[|tasks| - 1].status)
  }

  lemma ReplaySnoc(redis: Redis, tasks: seq<Task>, task: Task)
    ensures Replay(redis, tasks + [task]) == Advanced(Replay(redis, tasks), task.status)
  {
    assert (tasks + [task])[..|tasks|] == tasks;
  }

  /** Tasks that still wait have done nothing. */
  lemma {:induction false} ReplayWaiting(redis: Redis, tasks: seq<Task>, i: nat)
    requires i <= |tasks| && forall k :: i <= k < |tasks| ==> tasks[k].status.Waiting?
    ensures Replay(redis, tasks) == Replay(redis, tasks[..i])
    decreases |tasks|
  {
    if i < |tasks| {
      ReplayWaiting(redis, tasks[..|tasks| - 1], i);
      assert tasks[..|tasks| - 1][..i] == tasks[..i];
    } else {
      assert tasks[..i] == tasks;
    }
  }

  /* ----- The invariant ----- */

  /** From place `m` on the tasks have ended in enqueue order: everything after an unended one
      waits. */
  predicate InOrderFrom(tasks: seq<Task>, m: nat) {
    forall i, j :: m <= i < j < |tasks| && !tasks[i].status.Done? ==> tasks[j].status.Waiting?
  }

  predicate InOrder(tasks: seq<Task>) {
    InOrderFrom(tasks, 0)
  }

  /** A task awaits the one enqueued just before it, or had nothing unended before it. */
  predicate Chained(tasks: seq<Task>, m: nat, i: nat)
    requires i < |tasks|
  {
    match tasks[i].previous
    case Some(p) => p + 1 == i && m <= p
    case None => forall k :: m <= k < i ==> tasks[k].status.Done?
  }

  /** A task that will do nothing more: it has ended, or waits behind a cancelled one. */
  predicate Spent(tasks: seq<Task>, j: nat)
    requires j < |tasks|
  {
    tasks[j].status.Done? || Stuck(tasks, j)
  }

  predicate Stuck(tasks: seq<Task>, j: nat)
    requires j < |tasks|
  {
    && tasks[j].status.Waiting? && j > 0 && tasks[j].previous == Some(j - 1)
    && (tasks[j - 1].status.Done? ==> tasks[j - 1].status.cancelled)
  }

  predicate TailFits(s: State, m: nat) {
    match s.tail
    case Some(t) => t + 1 == |s.tasks| && (t < m ==> s.tasks[t].status.Done? ==> s.tasks[t].status.cancelled)
    case None => forall k :: m <= k < |s.tasks| ==> s.tasks[k].status.Done?
  }

  /** The tasks before `m` are spent, the others form a queue of their own. */
  predicate Shape(s: State, m: nat) {
    && m <= |s.tasks|
    && (forall j :: 0 <= j < m ==> Spent(s.tasks, j))
    && InOrderFrom(s.tasks, m)
    && (forall i :: m <= i < |s.tasks| ==> Chained(s.tasks, m, i))
    && TailFits(s, m)
  }

  predicate Inv(s: State, redis: Redis, m: nat) {
    Shape(s, m) && s.redis == Replay(redis, s.tasks)
  }

  predicate DoneBetween(tasks: seq<Task>, m: nat, i: nat)
    requires i <= |tasks|
  {
    forall k :: m <= k < i ==> tasks[k].status.Done?
  }

  lemma OrderAt(tasks: seq<Task>, m: nat, i: nat, j: nat)
    requires InOrderFrom(tasks, m) && m <= i < j < |tasks| && !tasks[j].status.Waiting?
    ensures tasks[i].status.Done?
  {
  }

  /** A task whose predecessor has ended is the first unended one of its queue. */
  lemma FirstUnended(s: State, m: nat, i: nat)
    requires Shape(s, m) && m <= i < |s.tasks| && PreviousDone(s, i)
    ensures DoneBetween(s.tasks, m, i)
  {
    assert Chained(s.tasks, m, i);
    if i > m && s.tasks[i].previous.Some? {
      forall k | m <= k < i
        ensures s.tasks[k].status.Done?
      {
        if k < i - 1 {
          OrderAt(s.tasks, m, k, i - 1);
        }
      }
    }
  }

  /** A task that runs, or can begin. */
  predicate CanAct(s: State, f: nat)
    requires f < |s.tasks|
  {
    s.tasks[f].status.Running? || (s.tasks[f].status.Waiting? && PreviousDone(s, f) && !PreviousCancelled(s, f))
  }

  /** What can run, or runs, belongs to the queue. */
  lemma ActiveIsQueued(s: State, m: nat, i: nat)
    requires Shape(s, m) && i < |s.tasks|
    requires CanAct(s, i)
    ensures m <= i
  {
    assert i < m ==> Spent(s.tasks, i);
  }

  lemma RunningIsFirst(s: State, m: nat, i: nat)
    requires Shape(s, m) && i < |s.tasks| && s.tasks[i].status.Running?
    ensures m <= i && DoneBetween(s.tasks, m, i)
  {
    ActiveIsQueued(s, m, i);
    forall k | m <= k < i
      ensures s.tasks[k].status.Done?
    {
      OrderAt(s.tasks, m, k, i);
    }
  }

  /** Changing the status of the first unended task changes Redis at the end of the log. */
  lemma ReplayAt(redis: Redis, tasks: seq<Task>, i: nat, status: Status)
    requires i < |tasks| && forall k :: i < k < |tasks| ==> tasks[k].status.Waiting?
    ensures var tasks' := tasks[i := tasks[i].(status := status)];
            && Replay(redis, tasks) == Replay(redis, tasks[..i] + [tasks[i]])
            && Replay(redis, tasks') == Replay(redis, tasks[..i] + [tasks'[i]])
  {
    var tasks' := tasks[i := tasks[i].(status := status)];
    assert tasks[..i + 1] == tasks[..i] + [tasks[i]];
    assert tasks'[..i + 1] == tasks[..i] + [tasks'[i]];
    ReplayWaiting(redis, tasks, i + 1);
    ReplayWaiting(redis, tasks', i + 1);
  }

  lemma StatusShape(s: State, m: nat, i: nat, status: Status)
    requires Shape(s, m) && m <= i < |s.tasks| && DoneBetween(s.tasks, m, i)
    requires !s.tasks[i].status.Done? && !status.Waiting?
    ensures Shape(s.(tasks := s.tasks[i := s.tasks[i].(status := status)]), m)
  {
    var tasks' := s.tasks[i := s.tasks[i].(status := status)];
    forall k | m <= k < |tasks'|
      ensures Chained(tasks', m, k)
    {
      assert Chained(s.tasks, m, k);
    }
    forall j | 0 <= j < m
      ensures Spent(tasks', j)
    {
      assert Spent(s.tasks, j);
    }
  }

  lemma StatusReplay(s: State, redis: Redis, m: nat, i: nat, status: Status) returns (before: Redis)
    requires Inv(s, redis, m) && m <= i < |s.tasks| && !s.tasks[i].status.Done?
    ensures Advanced(before, s.tasks[i].status) == s.redis
    ensures Advanced(before, status) == Replay(redis, s.tasks[i := s.tasks[i].(status := status)])
  {
    before := Replay(redis, s.tasks[..i]);
    ReplayAt(redis, s.tasks, i, status);
    ReplaySnoc(redis, s.tasks[..i], s.tasks[i]);
    ReplaySnoc(redis, s.tasks[..i], s.tasks[i].(status := status));
  }

  /** One task moves from waiting to running, sweeps on, or ends. */
  lemma StatusStep(s: State, redis: Redis, m: nat, i: nat, status: Status) returns (before: Redis)
    requires Inv(s, redis, m) && m <= i < |s.tasks| && DoneBetween(s.tasks, m, i)
    requires !s.tasks[i].status.Done? && !status.Waiting?
    ensures Advanced(before, s.tasks[i].status) == s.redis
    ensures Inv(s.(tasks := s.tasks[i := s.tasks[i].(status := status)], redis := Advanced(before, status)), redis, m)
  {
    StatusShape(s, m, i, status);
    before := StatusReplay(s, redis, m, i, status);
    hide Shape, Advanced, Replay;
    ShapeIgnoresRedis(s.(tasks := s.tasks[i := s.tasks[i].(status := status)]), m, Advanced(before, status));
  }

  lemma ShapeIgnoresRedis(s: State, m: nat, redis: Redis)
    requires Shape(s, m)
    ensures Shape(s.(redis := redis), m)
  {
  }

  /** A task that ends without effect leaves the log as it was. */
  lemma {:induction false} ReplayNothing(redis: Redis, tasks: seq<Task>, i: nat)
    requires i < |tasks| && tasks[i].status.Waiting?
    ensures Replay(redis, tasks[i := tasks[i].(status := Done(Nothing, true))]) == Replay(redis, tasks)
    decreases |tasks|
  {
    var tasks' := tasks[i := tasks[i].(status := Done(Nothing, true))];
    var n := |tasks| - 1;
    if i < n {
      ReplayNothing(redis, tasks[..n], i);
      assert tasks'[..n] == tasks[..n][i := tasks'[i]];
    } else {
      assert tasks'[..n] == tasks[..n];
    }
  }

  /** A stuck task is cancelled: nothing changes. */
  lemma StuckStep(s: State, redis: Redis, m: nat, i: nat)
    requires Inv(s, redis, m) && i < m && s.tasks[i].status.Waiting?
    ensures Inv(Ended(s, i, false, true), redis, m)
  {
    var s' := Ended(s, i, false, true);
    ReplayNothing(redis, s.tasks, i);
    hide Replay;
    forall j | 0 <= j < m
      ensures Spent(s'.tasks, j)
    {
      assert Spent(s.tasks, j);
    }
    forall k | m <= k < |s.tasks|
      ensures Chained(s'.tasks, m, k)
    {
      assert Chained(s.tasks, m, k);
    }
  }

  /** A queue whose first unended task is stuck is spent as a whole, and stays so when one of
      the waiting tasks behind it is cancelled early. */
  lemma DoomStep(s: State, redis: Redis, m: nat, f: nat, i: nat)
    requires Inv(s, redis, m) && m <= f < i < |s.tasks| && DoneBetween(s.tasks, m, f)
    requires Stuck(s.tasks, f) && s.tasks[i].status.Waiting?
    ensures Inv(Ended(s, i, false, true), redis, |s.tasks|)
  {
    var s' := Ended(s, i, false, true);
    ReplayNothing(redis, s.tasks, i);
    hide Replay;
    forall j | 0 <= j < |s.tasks|
      ensures Spent(s'.tasks, j)
    {
      if j < m {
        assert Spent(s.tasks, j);
      } else if j > f {
        assert s.tasks[j].status.Waiting? && Chained(s.tasks, m, j);
        assert j - 1 > f ==> s.tasks[j - 1].status.Waiting?;
      }
    }
  }

  lemma SettleStep(s: State, redis: Redis, m: nat, i: nat)
    requires Inv(s, redis, m) && Enabled(s, Settle(i))
    ensures Inv(Apply(s, Settle(i)), redis, m)
  {
    var s' := Apply(s, Settle(i));
    ReplaySettled(redis, s.tasks, i);
    hide Replay;
    forall j | 0 <= j < m
      ensures Spent(s'.tasks, j)
    {
      assert Spent(s.tasks, j);
    }
    forall k | m <= k < |s'.tasks|
      ensures Chained(s'.tasks, m, k)
    {
      assert Chained(s.tasks, m, k);
    }
    if s.tail == Some(i) {
      forall k | m <= k < |s.tasks|
        ensures s.tasks[k].status.Done?
      {
        if k < i {
          OrderAt(s.tasks, m, k, i);
        }
      }
    }
  }

  lemma {:induction false} ReplaySettled(redis: Redis, tasks: seq<Task>, i: nat)
    requires i < |tasks|
    ensures Replay(redis, tasks[i := tasks[i].(settled := true)]) == Replay(redis, tasks)
    decreases |tasks|
  {
    var tasks' := tasks[i := tasks[i].(settled := true)];
    var n := |tasks| - 1;
    if i < n {
      ReplaySettled(redis, tasks[..n], i);
      assert tasks'[..n] == tasks[..n][i := tasks[i].(settled := true)];
    } else {
      assert tasks'[..n] == tasks[..n];
    }
  }

  /** A new task joins the queue ... */
  lemma JoinsQueue(s: State, m: nat, op: Mutation, droppable: bool)
    requires Shape(s, m) && (m < |s.tasks| || s.tail.None?)
    ensures Shape(Appended(s, op, droppable), m)
  {
    var s' := Appended(s, op, droppable);
    forall j | 0 <= j < m ensures Spent(s'.tasks, j) {
      assert Spent(s.tasks, j);
    }
    forall k | m <= k < |s'.tasks| ensures Chained(s'.tasks, m, k) {
      assert k < |s.tasks| ==> Chained(s.tasks, m, k);
    }
  }

  /** ... or gets stuck behind the spent ones. */
  lemma GetsStuck(s: State, m: nat, op: Mutation, droppable: bool)
    requires Shape(s, m) && m == |s.tasks| && s.tail.Some?
    ensures Shape(Appended(s, op, droppable), m + 1)
  {
    var s' := Appended(s, op, droppable);
    forall j | 0 <= j < m + 1 ensures Spent(s'.tasks, j) {
      assert j < m ==> Spent(s.tasks, j);
    }
  }

  lemma EnqueueStep(s: State, redis: Redis, m: nat, op: Mutation, droppable: bool) returns (m': nat)
    requires Inv(s, redis, m)
    ensures Inv(Apply(s, Enqueue(op, droppable)), redis, m') && (m == 0 ==> m' == 0)
  {
    m' := m;
    if !droppable || s.pending < MAX_PENDING {
      ReplaySnoc(redis, s.tasks, Task(op, droppable, s.tail, Waiting, false));
      if m == |s.tasks| && s.tail.Some? {
        assert s.tail.value + 1 == |s.tasks|;
        m' := m + 1;
        GetsStuck(s, m, op, droppable);
      } else {
        JoinsQueue(s, m, op, droppable);
      }
      hide Replay, Shape;
    }
  }

  /** What an ending task reports is what its steps did. */
  lemma EndAdvances(task: Task, before: Redis, redis: Redis, lands: bool)
    requires Advanced(before, task.status) == redis
    requires !task.status.Done? && (task.status.Running? && !task.op.Clear? ==> task.status.swept == {})
    requires task.op.Clear? && lands ==> redis == map[]
    requires lands ==> task.status.Running?
    ensures Changed(before, EffectOf(task, lands)) == Changed(redis, EffectOf(task, lands))
  {
    if task.status.Running? {
      assert before - {} == before;
      assert redis - task.status.swept == redis;
    }
  }

  /** Only sweeps unlink along the way, and only what has ended is settled. */
  predicate Tidy(tasks: seq<Task>) {
    forall i :: 0 <= i < |tasks| ==>
      && (tasks[i].status.Running? && !tasks[i].op.Clear? ==> tasks[i].status.swept == {})
      && (tasks[i].settled ==> tasks[i].status.Done?)
  }

  lemma StepKeepsTidy(s: State, a: Action)
    requires Tidy(s.tasks) && Enabled(s, a)
    ensures Tidy(Apply(s, a).tasks)
  {
  }

  /** The first task from `m` on that has not ended, or `i`. */
  lemma FirstFrom(tasks: seq<Task>, m: nat, i: nat) returns (f: nat)
    requires m <= i <= |tasks|
    ensures m <= f <= i && DoneBetween(tasks, m, f) && (f < i ==> !tasks[f].status.Done?)
    decreases i - m
  {
    if m < i && tasks[m].status.Done? {
      f := FirstFrom(tasks, m + 1, i);
    } else {
      f := m;
    }
  }

  lemma {:induction false} SpentIsDoomed(s: State, m: nat, j: nat)
    requires Shape(s, m) && j < m
    ensures s.tasks[j].status.Done? || Doomed(s.tasks, j)
    decreases j
  {
    assert Spent(s.tasks, j);
    if !s.tasks[j].status.Done? && !s.tasks[j - 1].status.Done? {
      SpentIsDoomed(s, m, j - 1);
    }
  }

  /** The first unended task of a queue cannot run exactly when its predecessor was cancelled. */
  lemma FirstIsDoomed(s: State, m: nat, f: nat)
    requires Shape(s, m) && m <= f < |s.tasks| && DoneBetween(s.tasks, m, f)
    ensures Doomed(s.tasks, f) <==> Stuck(s.tasks, f) && f > m
  {
    assert Chained(s.tasks, m, f);
  }

  /** Cancelled before its first step: as good as after it, or the end of a queue in which
      nothing can run. */
  lemma EarlyCancelStep(s: State, redis: Redis, m: nat, i: nat) returns (m': nat)
    requires Inv(s, redis, m) && Enabled(s, CancelUnstarted(i)) && NothingAhead(s, i)
    ensures Inv(Apply(s, CancelUnstarted(i)), redis, m')
    ensures m == 0 && PreviousDone(s, i) ==> m' == 0
  {
    m' := m;
    if i < m {
      StuckStep(s, redis, m, i);
    } else {
      var f := FirstFrom(s.tasks, m, i);
      if f == i {
        var before := StatusStep(s, redis, m, i, Done(Nothing, true));
      } else {
        assert Doomed(s.tasks, f);
        FirstIsDoomed(s, m, f);
        DoomStep(s, redis, m, f, i);
        m' := |s.tasks|;
        if PreviousDone(s, i) {
          FirstUnended(s, m, i);
        }
      }
    }
  }

  lemma CancelStep(s: State, redis: Redis, m: nat, i: nat, lands: bool)
    requires Inv(s, redis, m) && Tidy(s.tasks) && Enabled(s, Cancel(i, lands))
    ensures Inv(Apply(s, Cancel(i, lands)), redis, m)
  {
    if i < m {
      assert Spent(s.tasks, i);
      StuckStep(s, redis, m, i);
    } else {
      FirstUnended(s, m, i);
      var before := StatusStep(s, redis, m, i, Done(EffectOf(s.tasks[i], lands), true));
      EndAdvances(s.tasks[i], before, s.redis, lands);
    }
  }

  lemma RunningStep(s: State, redis: Redis, m: nat, a: Action)
    requires Inv(s, redis, m) && Tidy(s.tasks) && Enabled(s, a) && (a.Begin? || a.Sweep? || a.Finish?)
    ensures Inv(Apply(s, a), redis, m)
  {
    if a.Begin? {
      ActiveIsQueued(s, m, a.i);
      FirstUnended(s, m, a.i);
      var before := StatusStep(s, redis, m, a.i, Running({}));
      assert before - {} == before;
    } else {
      RunningIsFirst(s, m, a.i);
      if a.Sweep? {
        var swept := s.tasks[a.i].status.swept + a.keys;
        var before := StatusStep(s, redis, m, a.i, Running(swept));
        assert before - swept == s.redis - a.keys;
      } else {
        var before := StatusStep(s, redis, m, a.i, Done(EffectOf(s.tasks[a.i], a.lands), false));
        EndAdvances(s.tasks[a.i], before, s.redis, a.lands);
      }
    }
  }

  lemma StepKeepsInv(s: State, redis: Redis, m: nat, a: Action) returns (m': nat)
    requires Inv(s, redis, m) && Tidy(s.tasks) && Enabled(s, a)
    requires a.CancelUnstarted? ==> NothingAhead(s, a.i)
    ensures Inv(Apply(s, a), redis, m') && Tidy(Apply(s, a).tasks)
    ensures m == 0 && (a.CancelUnstarted? ==> PreviousDone(s, a.i)) ==> m' == 0
  {
    StepKeepsTidy(s, a);
    m' := m;
    hide Inv, Tidy, NothingAhead, Apply;
    match a
    case Enqueue(op, droppable) => m' := EnqueueStep(s, redis, m, op, droppable);
    case Cancel(i, lands) => CancelStep(s, redis, m, i, lands);
    case CancelUnstarted(i) => m' := EarlyCancelStep(s, redis, m, i);
    case Settle(i) => SettleStep(s, redis, m, i);
    case _ => RunningStep(s, redis, m, a);
  }

  lemma {:induction false} RunKeepsInv(s: State, redis: Redis, m: nat, actions: seq<Action>) returns (m': nat)
    requires Inv(s, redis, m) && Tidy(s.tasks) && Run(s, actions).Some? && HarmlessCancels(s, actions)
    ensures Inv(Run(s, actions).value, redis, m') && Tidy(Run(s, actions).value.tasks)
    decreases |actions|
  {
    m' := m;
    if actions != [] {
      m' := StepKeepsInv(s, redis, m, actions[0]);
      hide Inv, Tidy;
      m' := RunKeepsInv(Apply(s, actions[0]), redis, m', actions[1..]);
    }
  }

  /** In a run without early cancellations nothing is ever spent ahead of its turn. */
  lemma {:induction false} OrderlyRunKeepsInv(s: State, redis: Redis, actions: seq<Action>)
    requires Inv(s, redis, 0) && Tidy(s.tasks) && Run(s, actions).Some? && NoEarlyCancel(s, actions)
    ensures Inv(Run(s, actions).value, redis, 0) && HarmlessCancels(s, actions)
    decreases |actions|
  {
    if actions != [] {
      if actions[0].CancelUnstarted? {
        FirstUnended(s, 0, actions[0].i);
      }
      var m' := StepKeepsInv(s, redis, 0, actions[0]);
      hide Inv, Tidy;
      OrderlyRunKeepsInv(Apply(s, actions[0]), redis, actions[1..]);
    }
  }

  /* ----- Main results ----- */

  /** Under any schedule, at every point, Redis is the result of the accepted mutations replayed
      one at a time in enqueue order, as long as nothing is cancelled before its first step while
      something ahead of it can still act; and without any such cancellation behind an unended
      mutation they have also ended in that order. */
  lemma QueueRefinesSequentialLog(redis: Redis, actions: seq<Action>, s: State)
    requires Run(Initial(redis), actions) == Some(s)
    ensures HarmlessCancels(Initial(redis), actions) ==> s.redis == Replay(redis, s.tasks)
    ensures NoEarlyCancel(Initial(redis), actions) ==> HarmlessCancels(Initial(redis), actions) && InOrder(s.tasks)
  {
    if HarmlessCancels(Initial(redis), actions) {
      var m := RunKeepsInv(Initial(redis), redis, 0, actions);
    }
    if NoEarlyCancel(Initial(redis), actions) {
      OrderlyRunKeepsInv(Initial(redis), redis, actions);
    }
  }

  lemma NoSteps(s: State)
    ensures Run(s, []) == Some(s)
  {
  }

  /** Append one action to a run. */
  lemma {:induction false} Extend(s: State, actions: seq<Action>, a: Action)
    requires Run(s, actions).Some? && Enabled(Run(s, actions).value, a)
    ensures Run(s, actions + [a]) == Some(Apply(Run(s, actions).value, a))
    decreases |actions|
  {
    if actions == [] {
      assert actions + [a] == [a];
      assert Run(Apply(s, a), [a][1..]) == Some(Apply(s, a));
    } else {
      assert (actions + [a])[1..] == actions[1..] + [a];
      Extend(Apply(s, actions[0]), actions[1..], a);
    }
  }

  lemma Next(start: State, actions: seq<Action>, now: State, a: Action) returns (actions': seq<Action>, now': State)
    requires Run(start, actions) == Some(now) && Enabled(now, a)
    ensures now' == Apply(now, a) && Run(start, actions') == Some(now')
  {
    Extend(start, actions, a);
    actions', now' := actions + [a], Apply(now, a);
  }

  /** A put is under way; the one after it is cancelled before its first step, and the tail with
      it, so a third one runs at once. */
  lemma OvertakenPut() returns (run: seq<Action>, s: State)
    ensures Run(Initial(map[]), run) == Some(s) && s.redis == map["k" := "new"] && |s.tasks| == 3
    ensures s.tasks[0] == Task(Put("k", "old"), true, None, Running({}), false)
    ensures s.tasks[1].status == Done(Nothing, true)
    ensures s.tasks[2].status == Done(Wrote("k", "new"), false)
  {
    hide Run;
    var start := Initial(map[]);
    NoSteps(start);
    run, s := Next(start, [], start, Enqueue(Put("k", "old"), true));
    run, s := Next(start, run, s, Begin(0));
    run, s := Next(start, run, s, Enqueue(Put("k", "lost"), true));
    run, s := Next(start, run, s, CancelUnstarted(1));
    run, s := Next(start, run, s, Settle(1));
    run, s := Next(start, run, s, Enqueue(Put("k", "new"), true));
    run, s := Next(start, run, s, Begin(2));
    run, s := Next(start, run, s, Finish(2, true));
  }

  /** Exactly when the order of endings is kept: after a run without early cancellations,
      cancelling a waiting mutation before its first step keeps it if and only if what it would
      await has ended. */
  lemma EarlyCancelKeepsOrderExactlyWhen(redis: Redis, actions: seq<Action>, s: State, i: nat)
    requires Run(Initial(redis), actions) == Some(s) && NoEarlyCancel(Initial(redis), actions)
    requires Enabled(s, CancelUnstarted(i))
    ensures InOrder(Apply(s, CancelUnstarted(i)).tasks) <==> PreviousDone(s, i)
  {
    OrderlyRunKeepsInv(Initial(redis), redis, actions);
    var s' := Apply(s, CancelUnstarted(i));
    assert Chained(s.tasks, 0, i);
    if PreviousDone(s, i) {
      FirstUnended(s, 0, i);
      StatusShape(s, 0, i, Done(Nothing, true));
    } else {
      assert !s'.tasks[i - 1].status.Done? && !s'.tasks[i].status.Waiting?;
    }
  }

  /** An example: after an early cancellation the older put lands last. */
  lemma EarlyCancelBreaksTheOrder()
    ensures exists actions :: && Run(Initial(map[]), actions).Some?
                              && var s := Run(Initial(map[]), actions).value; s.redis != Replay(map[], s.tasks)
  {
    hide Run;
    var run, s := OvertakenPut();
    run, s := Next(Initial(map[]), run, s, Finish(0, true));
    assert s.redis["k"] == "old";
    var before := s.tasks[..2];
    assert Replay(map[], s.tasks) == Changed(Replay(map[], before), Wrote("k", "new"));
    assert Replay(map[], s.tasks)["k"] == "new";
  }

  /* ----- Exactly which early cancellations Redis can show ----- */

  /** Some continuation, harmless from here on, makes Redis differ from the log. */
  ghost predicate CanDiffer(s: State, redis: Redis) {
    exists more :: && Run(s, more).Some? && HarmlessCancels(s, more)
                   && Run(s, more).value.redis != Replay(redis, Run(s, more).value.tasks)
  }

  predicate AllStarted(actions: seq<Action>) {
    forall a :: a in actions ==> !a.CancelUnstarted?
  }

  lemma {:induction false} StartedIsHarmless(s: State, actions: seq<Action>)
    requires Run(s, actions).Some? && AllStarted(actions)
    ensures HarmlessCancels(s, actions)
    decreases |actions|
  {
    if actions != [] {
      assert actions[0] in actions && forall a :: a in actions[1..] ==> a in actions;
      StartedIsHarmless(Apply(s, actions[0]), actions[1..]);
    }
  }

  /** A task that waits for the one before it and has not been settled. */
  predicate WaitsInLine(tasks: seq<Task>, k: nat)
    requires k < |tasks|
  {
    tasks[k].status.Waiting? && k > 0 && tasks[k].previous == Some(k - 1) && !tasks[k].settled
  }

  /** Behind a cancelled task all others are cancelled one after the other. */
  lemma CancelRest(s: State, j: nat) returns (actions: seq<Action>, s': State)
    requires 0 < j <= |s.tasks| && s.tasks[j - 1].status.Done?
    requires forall k :: j <= k < |s.tasks| ==> WaitsInLine(s.tasks, k)
    ensures Run(s, actions) == Some(s') && AllStarted(actions)
    ensures |s'.tasks| == |s.tasks| && s'.tail == s.tail && s'.redis == s.redis
    ensures forall k :: 0 <= k < j ==> s'.tasks[k] == s.tasks[k]
    ensures forall k :: j <= k < |s.tasks| ==> s'.tasks[k].status.Done? && !s'.tasks[k].settled
    decreases |s.tasks| - j
  {
    if j == |s.tasks| {
      actions, s' := [], s;
    } else {
      assert WaitsInLine(s.tasks, j);
      var a := Cancel(j, false);
      var s1 := Apply(s, a);
      forall k | j + 1 <= k < |s1.tasks| ensures WaitsInLine(s1.tasks, k) {
        assert WaitsInLine(s.tasks, k);
      }
      var rest;
      rest, s' := CancelRest(s1, j + 1);
      actions := [a] + rest;
      assert actions[1..] == rest;
    }
  }

  lemma NextStarted(start: State, actions: seq<Action>, now: State, a: Action)
      returns (actions': seq<Action>, now': State)
    requires Run(start, actions) == Some(now) && Enabled(now, a) && AllStarted(actions) && !a.CancelUnstarted?
    ensures now' == Apply(now, a) && Run(start, actions') == Some(now') && AllStarted(actions')
  {
    Extend(start, actions, a);
    actions', now' := actions + [a], Apply(now, a);
  }

  /** The tail has ended and is settled, so a new put awaits nobody and lands at once. */
  lemma Overtake(start: State, run: seq<Action>, s: State, key: Key, payload: Payload)
      returns (run': seq<Action>, s': State)
    requires Run(start, run) == Some(s) && AllStarted(run) && s.tasks != []
    requires var n := |s.tasks| - 1; s.tail == Some(n) && s.tasks[n].status.Done? && !s.tasks[n].settled
    ensures Run(start, run') == Some(s') && AllStarted(run')
    ensures s'.redis == s.redis[key := payload] && |s'.tasks| == |s.tasks| + 1
    ensures s'.tasks[|s.tasks|].status == Done(Wrote(key, payload), false)
    ensures forall k :: 0 <= k < |s.tasks| - 1 ==> s'.tasks[k] == s.tasks[k]
  {
    hide Run;
    var n := |s.tasks|;
    run', s' := NextStarted(start, run, s, Settle(n - 1));
    run', s' := NextStarted(start, run', s', Enqueue(Put(key, payload), false));
    run', s' := NextStarted(start, run', s', Begin(n));
    run', s' := NextStarted(start, run', s', Finish(n, true));
  }

  /** The key that a mutation touches, for a clear any key. */
  function KeyOf(op: Mutation): Key {
    match op
    case Put(key, _) => key
    case Delete(key) => key
    case Clear => "k"
  }

  function OtherPayload(op: Mutation): Payload {
    if op.Put? then op.payload + "x" else "x"
  }

  /** The older mutation acts after the newer put of its key, and takes its payload away. */
  lemma ActsLate(start: State, run: seq<Action>, s: State, f: nat) returns (run': seq<Action>, s': State)
    requires Run(start, run) == Some(s) && AllStarted(run) && f + 1 < |s.tasks| && CanAct(s, f)
    ensures Run(start, run') == Some(s') && AllStarted(run')
    ensures |s'.tasks| == |s.tasks| && s'.tasks[|s.tasks| - 1] == s.tasks[|s.tasks| - 1]
    ensures KeyOf(s.tasks[f].op) in s'.redis ==> s'.redis[KeyOf(s.tasks[f].op)] != OtherPayload(s.tasks[f].op)
  {
    hide Run;
    run', s' := run, s;
    var op := s.tasks[f].op;
    if s.tasks[f].status.Waiting? {
      run', s' := NextStarted(start, run', s', Begin(f));
    }
    if op.Clear? {
      run', s' := NextStarted(start, run', s', Sweep(f, {KeyOf(op)}));
    } else {
      run', s' := NextStarted(start, run', s', Finish(f, true));
      assert op.Put? ==> |op.payload + "x"| != |op.payload|;
    }
  }

  /** A task in line behind a doomed one is doomed. */
  lemma {:induction false} DoomSpreads(s: State, m: nat, f: nat, j: nat)
    requires Shape(s, m) && m <= f <= j < |s.tasks| && Doomed(s.tasks, f)
    ensures Doomed(s.tasks, j)
    decreases j
  {
    if f < j {
      DoomSpreads(s, m, f, j - 1);
      assert Chained(s.tasks, m, j);
    }
  }

  /** If something ahead can still act, the first unended task of the queue can. */
  lemma SomebodyCanAct(s: State, m: nat, i: nat) returns (f: nat)
    requires Shape(s, m) && i < |s.tasks| && !NothingAhead(s, i)
    ensures m <= f < i && !s.tasks[f].status.Done? && CanAct(s, f)
    ensures forall k :: f < k < |s.tasks| ==> s.tasks[k].status.Waiting? && s.tasks[k].previous == Some(k - 1)
    ensures s.tail == Some(|s.tasks| - 1)
  {
    var j :| 0 <= j < i && !s.tasks[j].status.Done? && !Doomed(s.tasks, j);
    if j < m {
      SpentIsDoomed(s, m, j);
    }
    f := FirstFrom(s.tasks, m, i);
    assert f <= j;
    if Doomed(s.tasks, f) {
      DoomSpreads(s, m, f, j);
    }
    FirstIsDoomed(s, m, f);
    assert Chained(s.tasks, m, f);
    forall k | f < k < |s.tasks|
      ensures s.tasks[k].status.Waiting? && s.tasks[k].previous == Some(k - 1)
    {
      assert Chained(s.tasks, m, k);
    }
  }

  /** Then the early cancellation lets a newer put overtake it. */
  lemma HarmfulCancelShows(s: State, redis: Redis, m: nat, i: nat)
    requires Inv(s, redis, m) && Tidy(s.tasks) && Enabled(s, CancelUnstarted(i)) && !NothingAhead(s, i)
    ensures CanDiffer(Apply(s, CancelUnstarted(i)), redis)
  {
    var f := SomebodyCanAct(s, m, i);
    var start := Apply(s, CancelUnstarted(i));
    var key, payload := KeyOf(s.tasks[f].op), OtherPayload(s.tasks[f].op);
    hide NothingAhead, Inv, Replay;
    forall k | i < k < |start.tasks| ensures WaitsInLine(start.tasks, k) {
      assert start.tasks[k] == s.tasks[k];
    }
    var run, s1 := CancelRest(start, i + 1);
    var run2, s2 := Overtake(start, run, s1, key, payload);
    assert s2.tasks[f] == s.tasks[f] && (f > 0 ==> s2.tasks[f - 1] == s.tasks[f - 1]);
    assert CanAct(s2, f);
    var run3, s3 := ActsLate(start, run2, s2, f);
    StartedIsHarmless(start, run3);
    LastWrote(redis, s3.tasks, key, payload);
  }

  lemma LastWrote(redis: Redis, tasks: seq<Task>, key: Key, payload: Payload)
    requires tasks != [] && tasks[|tasks| - 1].status == Done(Wrote(key, payload), false)
    ensures key in Replay(redis, tasks) && Replay(redis, tasks)[key] == payload
  {
  }

  /** Exactly when an early cancellation can show in Redis: after any run in which the earlier
      ones were harmless, cancelling a waiting mutation before its first step lets Redis differ
      from the log in some continuation if and only if something ahead of it can still act: it
      runs, or waits and neither it nor anything it waits for was cancelled. */
  lemma EarlyCancelShowsExactlyWhen(redis: Redis, actions: seq<Action>, s: State, i: nat)
    requires Run(Initial(redis), actions) == Some(s) && HarmlessCancels(Initial(redis), actions)
    requires Enabled(s, CancelUnstarted(i))
    ensures CanDiffer(Apply(s, CancelUnstarted(i)), redis) <==> !NothingAhead(s, i)
  {
    var m := RunKeepsInv(Initial(redis), redis, 0, actions);
    var s' := Apply(s, CancelUnstarted(i));
    if NothingAhead(s, i) {
      var m' := StepKeepsInv(s, redis, m, CancelUnstarted(i));
      forall more | Run(s', more).Some? && HarmlessCancels(s', more)
        ensures Run(s', more).value.redis == Replay(redis, Run(s', more).value.tasks)
      {
        var m'' := RunKeepsInv(s', redis, m', more);
      }
    } else {
      HarmfulCancelShows(s, redis, m, i);
    }
  }

  /** Mutations applied whole, one after the other. */
  function ApplyMutations(redis: Redis, tasks: seq<Task>): Redis {
    if tasks == [] then redis
    else Changed(ApplyMutations(redis, tasks[..|tasks| - 1]), Whole(tasks[|tasks| - 1].op))
  }

  lemma {:induction false} ReplayWhole(redis: Redis, tasks: seq<Task>)
    requires forall k :: 0 <= k < |tasks| ==> tasks[k].status.Done? && tasks[k].status.effect == Whole(tasks[k].op)
    ensures Replay(redis, tasks) == ApplyMutations(redis, tasks)
  {
    if tasks != [] {
      ReplayWhole(redis, tasks[..|tasks| - 1]);
    }
  }

  /** When every write lands, Redis between two mutations is exactly the finished prefix of
      the accepted puts, deletes and clears. */
  lemma FinishedPrefix(redis: Redis, actions: seq<Action>, s: State, n: nat)
    requires Run(Initial(redis), actions) == Some(s) && HarmlessCancels(Initial(redis), actions) && n <= |s.tasks|
    requires forall k :: 0 <= k < n ==> s.tasks[k].status.Done? && s.tasks[k].status.effect == Whole(s.tasks[k].op)
    requires forall k :: n <= k < |s.tasks| ==> s.tasks[k].status.Waiting?
    ensures s.redis == ApplyMutations(redis, s.tasks[..n])
  {
    QueueRefinesSequentialLog(redis, actions, s);
    ReplayWaiting(redis, s.tasks, n);
    ReplayWhole(redis, s.tasks[..n]);
  }

  function ValueOf(redis: Redis, key: Key): Option<Payload> {
    if key in redis then Some(redis[key]) else None
  }

  /** What a list of requests leaves under a key: the payload of the last put of that key, unless a
      delete of it or a clear came after. */
  function Requested(ops: seq<Mutation>, key: Key, before: Option<Payload>): Option<Payload> {
    if ops == [] then before
    else
      var n := |ops| - 1;
      match ops[n]
      case Put(k, payload) => if k == key then Some(payload) else Requested(ops[..n], key, before)
      case Delete(k) => if k == key then None else Requested(ops[..n], key, before)
      case Clear => None
  }

  function Requests(tasks: seq<Task>): (ops: seq<Mutation>)
    ensures |ops| == |tasks|
  {
    seq(|tasks|, i requires 0 <= i < |tasks| => tasks[i].op)
  }

  lemma {:induction false} ApplyMutationsAt(redis: Redis, tasks: seq<Task>, key: Key)
    ensures ValueOf(ApplyMutations(redis, tasks), key) == Requested(Requests(tasks), key, ValueOf(redis, key))
  {
    if tasks != [] {
      var n := |tasks| - 1;
      assert Requests(tasks)[..n] == Requests(tasks[..n]);
      ApplyMutationsAt(redis, tasks[..n], key);
    }
  }

  /** The last writer wins: when every write lands, each key holds between two mutations what the
      last of the finished ones that concerns it asked for. */
  lemma LastWriterWins(redis: Redis, actions: seq<Action>, s: State, n: nat, key: Key)
    requires Run(Initial(redis), actions) == Some(s) && HarmlessCancels(Initial(redis), actions) && n <= |s.tasks|
    requires forall k :: 0 <= k < n ==> s.tasks[k].status.Done? && s.tasks[k].status.effect == Whole(s.tasks[k].op)
    requires forall k :: n <= k < |s.tasks| ==> s.tasks[k].status.Waiting?
    ensures ValueOf(s.redis, key) == Requested(Requests(s.tasks[..n]), key, ValueOf(redis, key))
  {
    FinishedPrefix(redis, actions, s, n);
    ApplyMutationsAt(redis, s.tasks[..n], key);
  }

  /** A mutation that ends by landing, cancelled meanwhile or not, has its whole effect. */
  lemma LandingTakesEffect(s: State, a: Action, key: Key)
    requires (a.Finish? || a.Cancel?) && a.lands && Enabled(s, a)
    ensures var s' := Apply(s, a);
            && s'.tasks[a.i].status == Done(Whole(s.tasks[a.i].op), a.Cancel?)
            && ValueOf(s'.redis, key) == Requested([s.tasks[a.i].op], key, ValueOf(s.redis, key))
  {
    var op := s.tasks[a.i].op;
    assert [op][..0] == [];
    assert Requested([op][..0], key, ValueOf(s.redis, key)) == ValueOf(s.redis, key);
  }

  /** Once the last mutation is a completed clear_all, no key is left; and without early
      cancellations the queue is drained. */
  lemma DrainedClearLeavesNothing(redis: Redis, actions: seq<Action>, s: State)
    requires Run(Initial(redis), actions) == Some(s) && HarmlessCancels(Initial(redis), actions) && s.tasks != []
    requires var last := s.tasks[|s.tasks| - 1];
             last.op.Clear? && last.status.Done? && last.status.effect == RemovedAll
    ensures s.redis == map[]
    ensures NoEarlyCancel(Initial(redis), actions) ==> DoneBetween(s.tasks, 0, |s.tasks|)
  {
    QueueRefinesSequentialLog(redis, actions, s);
    if NoEarlyCancel(Initial(redis), actions) {
      forall k | 0 <= k < |s.tasks|
        ensures s.tasks[k].status.Done?
      {
        if k < |s.tasks| - 1 {
          OrderAt(s.tasks, 0, k, |s.tasks| - 1);
        }
      }
    }
  }

  /* ----- The bound ----- */

  function Unsettled(tasks: seq<Task>): nat {
    if tasks == [] then 0 else (if tasks[0].settled then 0 else 1) + Unsettled(tasks[1..])
  }

  function UnsettledDroppable(tasks: seq<Task>): nat {
    if tasks == [] then 0
    else (if tasks[0].settled || !tasks[0].droppable then 0 else 1) + UnsettledDroppable(tasks[1..])
  }

  lemma {:induction false} UnsettledSnoc(tasks: seq<Task>, task: Task)
    ensures Unsettled(tasks + [task]) == Unsettled(tasks) + (if task.settled then 0 else 1)
    ensures UnsettledDroppable(tasks + [task])
         == UnsettledDroppable(tasks) + (if task.settled || !task.droppable then 0 else 1)
  {
    if tasks != [] {
      assert (tasks + [task])[1..] == tasks[1..] + [task];
      UnsettledSnoc(tasks[1..], task);
    }
  }

  lemma {:induction false} UnsettledUpdate(tasks: seq<Task>, i: nat, task: Task)
    requires i < |tasks| && task.droppable == tasks[i].droppable
    ensures Unsettled(tasks[i := task]) ==
            Unsettled(tasks) - (if tasks[i].settled then 0 else 1) + (if task.settled then 0 else 1)
    ensures UnsettledDroppable(tasks[i := task]) ==
            UnsettledDroppable(tasks) + (if !task.droppable || tasks[i].settled == task.settled then 0
                                         else if task.settled then -1 else 1)
  {
    if i > 0 {
      assert tasks[i := task][1..] == tasks[1..][i - 1 := task];
      UnsettledUpdate(tasks[1..], i - 1, task);
    } else {
      assert tasks[i := task][1..] == tasks[1..];
    }
  }

  lemma {:induction false} DroppableAreUnsettled(tasks: seq<Task>)
    ensures UnsettledDroppable(tasks) <= Unsettled(tasks)
  {
    if tasks != [] {
      DroppableAreUnsettled(tasks[1..]);
    }
  }

  /** The counter is exact, and the droppable mutations in flight stay within the bound. */
  predicate Bounded(s: State) {
    s.pending == Unsettled(s.tasks) && UnsettledDroppable(s.tasks) <= MAX_PENDING
  }

  lemma StepKeepsBounded(s: State, a: Action)
    requires Bounded(s) && Enabled(s, a)
    ensures Bounded(Apply(s, a))
  {
    if a.Enqueue? {
      DroppableAreUnsettled(s.tasks);
      UnsettledSnoc(s.tasks, Task(a.op, a.droppable, s.tail, Waiting, false));
    } else {
      UnsettledUpdate(s.tasks, a.i, Apply(s, a).tasks[a.i]);
    }
  }

  lemma {:induction false} QueueIsBounded(s: State, actions: seq<Action>)
    requires Bounded(s) && Run(s, actions).Some?
    ensures Bounded(Run(s, actions).value)
    decreases |actions|
  {
    if actions != [] {
      StepKeepsBounded(s, actions[0]);
      QueueIsBounded(Apply(s, actions[0]), actions[1..]);
    }
  }

  /** The queue never stalls: while a task has not ended, the first such task can move. */
  lemma QueueNeverStalls(redis: Redis, actions: seq<Action>, s: State) returns (a: Action)
    requires Run(Initial(redis), actions) == Some(s) && HarmlessCancels(Initial(redis), actions)
    requires exists k :: 0 <= k < |s.tasks| && !s.tasks[k].status.Done?
    ensures Enabled(s, a) && (a.Begin? || a.Finish? || a.Cancel?)
  {
    var m := RunKeepsInv(Initial(redis), redis, 0, actions);
    var i := FirstNotDone(s.tasks);
    if i < m {
      assert Spent(s.tasks, i);
    } else {
      assert Chained(s.tasks, m, i);
    }
    a := if s.tasks[i].status.Running? then Finish(i, false)
         else if PreviousCancelled(s, i) then Cancel(i, false) else Begin(i);
  }

  lemma {:induction false} FirstNotDone(tasks: seq<Task>) returns (i: nat)
    requires exists k :: 0 <= k < |tasks| && !tasks[k].status.Done?
    ensures i < |tasks| && !tasks[i].status.Done? && forall k :: 0 <= k < i ==> tasks[k].status.Done?
  {
    if !tasks[0].status.Done? {
      i := 0;
    } else {
      var k :| 0 <= k < |tasks| && !tasks[k].status.Done?;
      assert tasks[1..][k - 1] == tasks[k];
      var j := FirstNotDone(tasks[1..]);
      i := j + 1;
      forall m | 0 <= m < i
        ensures tasks[m].status.Done?
      {
        assert m > 0 ==> tasks[m] == tasks[1..][m - 1];
      }
    }
  }

  /* ----- The two operations that touch the shared dictionaries ----- */

  class Queue {
    var tasks: seq<Task>
    var tail: Option<nat>
    var pending: nat
    var redis: Redis

    function View(): State
      reads this
    {
      State(tasks, tail, pending, redis)
    }

    constructor (redis: Redis)
      ensures View() == Initial(redis)
    {
      tasks, tail, pending, this.redis := [], None, 0, redis;
    }

    /** `_enqueue_redis_mutation`: the new task, or None when a droppable one was dropped. */
    method EnqueueMutation(op: Mutation, droppable: bool) returns (task: Option<nat>)
      modifies this
      ensures View() == Apply(old(View()), Enqueue(op, droppable))
      ensures task == if droppable && old(pending) >= MAX_PENDING then None else Some(old(|tasks|))
      ensures task.None? ==> View() == old(View())
      ensures task.Some? ==>
                && tasks == old(tasks) + [Task(op, droppable, old(tail), Waiting, false)]
                && tail == task && pending == old(pending) + 1 && redis == old(redis)
    {
      if droppable && pending >= MAX_PENDING {
        return None;
      }
      var previous := tail;
      task := Some(|tasks|);
      pending := pending + 1;
      tail := task;
      tasks := tasks + [Task(op, droppable, previous, Waiting, false)];
    }

    /** The done callbacks `_clear_redis_tail` and `_release_redis_slot`. */
    method SettleTask(i: nat)
      requires Enabled(View(), Settle(i))
      modifies this
      ensures View() == Apply(old(View()), Settle(i))
      ensures tail == if old(tail) == Some(i) then None else old(tail)
      ensures pending == if old(pending) == 0 then 0 else old(pending) - 1
      ensures redis == old(redis) && tasks == old(tasks)[i := old(tasks)[i].(settled := true)]
    {
      tasks := tasks[i := tasks[i].(settled := true)];
      if tail == Some(i) {
        tail := None;
      }
      var remaining := (if pending == 0 then 1 else pending) - 1;
      pending := if remaining <= 0 then 0 else remaining;
    }
  }
}
