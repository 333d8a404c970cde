// tcbot/database/cache/twolevel.py: how old a value that `get_or_fetch` returns can be. One
// key, one clock, and the latencies and lifetimes of the layers.
module Staleness {
  import opened Wrappers

  type Value = int

  /** The database value at every moment; any history whatever. */
  type History = real -> Value

  /** Bounds: reading the database and returning, waiting in the mutation queue, Redis TTL,
      one Redis GET, in-memory TTL. */
  datatype Times = Times(fetch: real, queue: real, redisTtl: real, get: real, memTtl: real) {
    predicate Valid() {
      fetch >= 0.0 && queue >= 0.0 && redisTtl >= 0.0 && get >= 0.0 && memTtl >= 0.0
    }

    function Bound(): real {
      fetch + queue + redisTtl + get + memTtl
    }
  }

  /** A value with the moment at which the database held it. */
  datatype Seen = Seen(value: Value, readAt: real)

  /** A cached value; it is served strictly before `until`. */
  datatype Entry = Entry(seen: Seen, until: real)

  /** A queued Redis mutation: a write, or a delete. */
  datatype Queued = Queued(write: Option<Seen>, enqueuedAt: real)

  /** A call in progress: Redis answered at `at`, or fetch() has read the database. */
  datatype Flight = FromRedis(seen: Seen, at: real) | FromDb(seen: Seen)

  datatype Answer = Answer(seen: Seen, at: real)

  datatype State = State(
    clock: real, l1: Option<Entry>, l2: Option<Entry>, queue: seq<Queued>, flights: seq<Flight>, answers: seq<Answer>)

  datatype Action =
    | Tick(delta: real)
    | MemoryHit
    | RedisGet
    | RedisReply(i: nat)
    | DbRead
    | FetchReply(i: nat, queued: bool)
    | Put(seen: Seen, queued: bool)
    | Invalidate(queued: bool)
    | Deliver(lands: bool)
    | LoseMemory
    | LoseRedis

  const INIT := State(0.0, None, None, [], [], [])

  predicate Enabled(s: State, t: Times, db: History, a: Action) {
    match a
    case Tick(delta) => delta >= 0.0
    case MemoryHit => s.l1.Some? && s.clock < s.l1.value.until
    case RedisGet => s.l2.Some? && s.clock < s.l2.value.until
    case RedisReply(i) => i < |s.flights| && s.flights[i].FromRedis? && s.clock <= s.flights[i].at + t.get
    case DbRead => true
    case FetchReply(i, _) => i < |s.flights| && s.flights[i].FromDb? && s.clock <= s.flights[i].seen.readAt + t.fetch
    case Put(seen, _) => seen.value == db(seen.readAt) && seen.readAt <= s.clock <= seen.readAt + t.fetch
    case Invalidate(_) => true
    case Deliver(_) => s.queue != [] && s.clock <= s.queue[0].enqueuedAt + t.queue
    case LoseMemory => true
    case LoseRedis => true
  }

  function Enqueue(s: State, write: Option<Seen>, queued: bool): seq<Queued> {
    if queued then s.queue + [Queued(write, s.clock)] else s.queue
  }

  function Apply(s: State, t: Times, db: History, a: Action): State
    requires Enabled(s, t, db, a)
  {
    match a
    case Tick(delta) => s.(clock := s.clock + delta)
    case MemoryHit => s.(answers := s.answers + [Answer(s.l1.value.seen, s.clock)])
    case RedisGet => s.(flights := s.flights + [FromRedis(s.l2.value.seen, s.clock)])
    case RedisReply(i) =>
      var seen := s.flights[i].seen;
      s.(l1 := Some(Entry(seen, s.clock + t.memTtl)), answers := s.answers + [Answer(seen, s.clock)])
    case DbRead => s.(flights := s.flights + [FromDb(Seen(db(s.clock), s.clock))])
    case FetchReply(i, queued) =>
      var seen := s.flights[i].seen;
      s.(l1 := Some(Entry(seen, s.clock + t.memTtl)), queue := Enqueue(s, Some(seen), queued),
         answers := s.answers + [Answer(seen, s.clock)])
    case Put(seen, queued) =>
      s.(l1 := Some(Entry(seen, s.clock + t.memTtl)), queue := Enqueue(s, Some(seen), queued))
    case Invalidate(queued) => s.(l1 := None, queue := Enqueue(s, None, queued))
    case Deliver(lands) =>
      s.(l2 := if !lands then s.l2
               else match s.queue[0].write
                    case None => None
                    case Some(seen) => Some(Entry(seen, s.clock + t.redisTtl)),
         queue := s.queue[1..])
    case LoseMemory => s.(l1 := None)
    case LoseRedis => s.(l2 := None)
  }

  function Run(s: State, t: Times, db: History, actions: seq<Action>): Option<State>
    decreases |actions|
  {
    if actions == [] then Some(s)
    else if Enabled(s, t, db, actions[0]) then Run(Apply(s, t, db, actions[0]), t, db, actions[1..])
    else None
  }

  /* ----- The invariant: how much of its life a copy has left in each place ----- */

  predicate True(seen: Seen, db: History, clock: real) {
    seen.value == db(seen.readAt) && seen.readAt <= clock
  }

  /** The last moment at which Redis may serve the value. */
  function RedisLife(seen: Seen, t: Times): real {
    seen.readAt + t.fetch + t.queue + t.redisTtl
  }

  predicate FlightFine(f: Flight, t: Times, db: History, clock: real) {
    True(f.seen, db, clock) && (f.FromRedis? ==> f.at < RedisLife(f.seen, t) && f.at <= clock)
  }

  predicate QueuedFine(q: Queued, t: Times, db: History, clock: real) {
    q.write.Some? ==> True(q.write.value, db, clock) && q.enqueuedAt <= q.write.value.readAt + t.fetch
  }

  predicate AnswerFine(a: Answer, t: Times, db: History) {
    a.seen.value == db(a.seen.readAt) && a.seen.readAt <= a.at <= a.seen.readAt + t.Bound()
  }

  predicate Inv(s: State, t: Times, db: History) {
    && (s.l1.Some? ==> True(s.l1.value.seen, db, s.clock) && s.l1.value.until <= s.l1.value.seen.readAt + t.Bound())
    && (s.l2.Some? ==> True(s.l2.value.seen, db, s.clock) && s.l2.value.until <= RedisLife(s.l2.value.seen, t))
    && (forall i :: 0 <= i < |s.queue| ==> QueuedFine(s.queue[i], t, db, s.clock))
    && (forall i :: 0 <= i < |s.flights| ==> FlightFine(s.flights[i], t, db, s.clock))
    && (forall i :: 0 <= i < |s.answers| ==> AnswerFine(s.answers[i], t, db))
  }

  lemma StepKeepsInv(s: State, t: Times, db: History, a: Action)
    requires t.Valid() && Inv(s, t, db) && Enabled(s, t, db, a)
    ensures Inv(Apply(s, t, db, a), t, db)
  {
    var s' := Apply(s, t, db, a);
    forall i | 0 <= i < |s'.queue|
      ensures QueuedFine(s'.queue[i], t, db, s'.clock)
    {
      if a.Deliver? {
        assert QueuedFine(s.queue[i + 1], t, db, s.clock);
      } else if i < |s.queue| {
        assert QueuedFine(s.queue[i], t, db, s.clock);
      } else if a.FetchReply? {
        assert FlightFine(s.flights[a.i], t, db, s.clock);
      }
    }
    forall i | 0 <= i < |s'.flights|
      ensures FlightFine(s'.flights[i], t, db, s'.clock)
    {
      assert i < |s.flights| ==> FlightFine(s.flights[i], t, db, s.clock);
    }
    forall i | 0 <= i < |s'.answers|
      ensures AnswerFine(s'.answers[i], t, db)
    {
      if i < |s.answers| {
        assert AnswerFine(s.answers[i], t, db);
      } else if !a.MemoryHit? {
        assert FlightFine(s.flights[a.i], t, db, s.clock);
      }
    }
    if a.Deliver? {
      assert QueuedFine(s.queue[0], t, db, s.clock);
    } else if a.RedisReply? || a.FetchReply? {
      assert FlightFine(s.flights[a.i], t, db, s.clock);
    }
  }

  lemma {:induction false} RunKeepsInv(s: State, t: Times, db: History, actions: seq<Action>)
    requires t.Valid() && Inv(s, t, db) && Run(s, t, db, actions).Some?
    ensures Inv(Run(s, t, db, actions).value, t, db)
    decreases |actions|
  {
    if actions != [] {
      StepKeepsInv(s, t, db, actions[0]);
      RunKeepsInv(Apply(s, t, db, actions[0]), t, db, actions[1..]);
    }
  }

  /** Bounded staleness: every value ever returned was the database value no longer ago than
      fetch latency + queue delay + Redis TTL + Redis GET latency + memory TTL. */
  lemma BoundedStaleness(t: Times, db: History, actions: seq<Action>, s: State)
    requires t.Valid() && Run(INIT, t, db, actions) == Some(s)
    ensures forall a :: a in s.answers ==>
              exists r :: r <= a.at && a.seen.value == db(r) && a.at - r <= t.Bound()
  {
    RunKeepsInv(INIT, t, db, actions);
    forall a | a in s.answers
      ensures exists r :: r <= a.at && a.seen.value == db(r) && a.at - r <= t.Bound()
    {
      assert AnswerFine(a, t, db);
      assert a.seen.value == db(a.seen.readAt);
    }
  }

  /* ----- What invalidation does ----- */

  predicate FillsMemory(a: Action) {
    a.RedisReply? || a.FetchReply? || a.Put?
  }

  predicate NoFill(actions: seq<Action>) {
    forall a :: a in actions ==> !FillsMemory(a)
  }

  lemma {:induction false} EmptyMemoryStays(s: State, t: Times, db: History, actions: seq<Action>)
    requires s.l1.None? && NoFill(actions) && Run(s, t, db, actions).Some?
    ensures Run(s, t, db, actions).value.l1.None?
    decreases |actions|
  {
    if actions != [] {
      assert actions[0] in actions && forall a :: a in actions[1..] ==> a in actions;
      EmptyMemoryStays(Apply(s, t, db, actions[0]), t, db, actions[1..]);
    }
  }

  /** After an invalidation, as after an eviction, nothing is served from memory until a reply of
      Redis, a fetch or a put fills it again. */
  lemma NoHitAfterInvalidate(s: State, t: Times, db: History, gone: Action, actions: seq<Action>)
    requires Enabled(s, t, db, gone) && (gone.Invalidate? || gone.LoseMemory?)
    requires NoFill(actions) && Run(Apply(s, t, db, gone), t, db, actions).Some?
    ensures !Enabled(Run(Apply(s, t, db, gone), t, db, actions).value, t, db, MemoryHit)
  {
    EmptyMemoryStays(Apply(s, t, db, gone), t, db, actions);
  }

  /** A write that lands in Redis. */
  predicate LandsWrite(s: State, a: Action) {
    a.Deliver? && a.lands && s.queue != [] && s.queue[0].write.Some?
  }

  predicate NoWriteLands(s: State, t: Times, db: History, actions: seq<Action>)
    requires Run(s, t, db, actions).Some?
    decreases |actions|
  {
    actions == [] ||
    (!LandsWrite(s, actions[0]) && NoWriteLands(Apply(s, t, db, actions[0]), t, db, actions[1..]))
  }

  lemma {:induction false} EmptyRedisStays(s: State, t: Times, db: History, actions: seq<Action>)
    requires s.l2.None? && Run(s, t, db, actions).Some? && NoWriteLands(s, t, db, actions)
    ensures Run(s, t, db, actions).value.l2.None?
    decreases |actions|
  {
    if actions != [] {
      EmptyRedisStays(Apply(s, t, db, actions[0]), t, db, actions[1..]);
    }
  }

  function Deliveries(actions: seq<Action>): nat {
    if actions == [] then 0 else (if actions[0].Deliver? then 1 else 0) + Deliveries(actions[1..])
  }

  /** The queue is served from the front. */
  lemma {:induction false} QueueAdvances(s: State, t: Times, db: History, actions: seq<Action>, k: nat)
    requires k < |s.queue| && Deliveries(actions) <= k && Run(s, t, db, actions).Some?
    ensures var s' := Run(s, t, db, actions).value;
            k - Deliveries(actions) < |s'.queue| && s'.queue[k - Deliveries(actions)] == s.queue[k]
    decreases |actions|
  {
    if actions != [] {
      QueueAdvances(Apply(s, t, db, actions[0]), t, db, actions[1..], if actions[0].Deliver? then k - 1 else k);
    }
  }

  /** An accepted invalidation is delivered after the mutations queued before it; when its delete
      lands, nothing is served from Redis until a later write lands. */
  lemma NoGetAfterDelete(s: State, t: Times, db: History, before: seq<Action>, s1: State, after: seq<Action>)
    requires Run(Apply(s, t, db, Invalidate(true)), t, db, before) == Some(s1) && Deliveries(before) == |s.queue|
    requires Enabled(s1, t, db, Deliver(true))
    requires var s2 := Apply(s1, t, db, Deliver(true)); Run(s2, t, db, after).Some? && NoWriteLands(s2, t, db, after)
    ensures Apply(s1, t, db, Deliver(true)).l2.None?
    ensures !Enabled(Run(Apply(s1, t, db, Deliver(true)), t, db, after).value, t, db, RedisGet)
  {
    QueueAdvances(Apply(s, t, db, Invalidate(true)), t, db, before, |s.queue|);
    EmptyRedisStays(Apply(s1, t, db, Deliver(true)), t, db, after);
  }

  /* ----- Where answers come from ----- */

  predicate InMemory(s: State, x: Seen) {
    s.l1.Some? && s.l1.value.seen == x
  }

  predicate InFlight(s: State, x: Seen) {
    exists i :: 0 <= i < |s.flights| && s.flights[i].seen == x
  }

  predicate QueuedFrom(s: State, x: Seen, k: nat) {
    exists i :: k <= i < |s.queue| && s.queue[i].write == Some(x)
  }

  /** No copy of the reading is left anywhere. */
  predicate Forgotten(s: State, x: Seen) {
    !InMemory(s, x) && !InFlight(s, x) && !QueuedFrom(s, x, 0) && (s.l2.Some? ==> s.l2.value.seen != x)
  }

  /** The step reads the same once more from the database, or puts it. */
  predicate Makes(s: State, db: History, a: Action, x: Seen) {
    (a.DbRead? && Seen(db(s.clock), s.clock) == x) || (a.Put? && a.seen == x)
  }

  predicate NeverMade(s: State, t: Times, db: History, actions: seq<Action>, x: Seen)
    requires Run(s, t, db, actions).Some?
    decreases |actions|
  {
    actions == [] ||
    (!Makes(s, db, actions[0], x) && NeverMade(Apply(s, t, db, actions[0]), t, db, actions[1..], x))
  }

  /** A GET reads it from Redis. */
  predicate Gets(s: State, a: Action, x: Seen) {
    a.RedisGet? && s.l2.Some? && s.l2.value.seen == x
  }

  predicate NeverMadeOrGot(s: State, t: Times, db: History, actions: seq<Action>, x: Seen)
    requires Run(s, t, db, actions).Some?
    decreases |actions|
  {
    actions == [] ||
    (&& !Makes(s, db, actions[0], x) && !Gets(s, actions[0], x)
     && NeverMadeOrGot(Apply(s, t, db, actions[0]), t, db, actions[1..], x))
  }

  predicate NoAnswerFrom(answers: seq<Answer>, from: nat, x: Seen) {
    forall i :: from <= i < |answers| ==> answers[i].seen != x
  }

  lemma ForgottenStep(s: State, t: Times, db: History, a: Action, x: Seen, from: nat)
    requires Forgotten(s, x) && NoAnswerFrom(s.answers, from, x) && Enabled(s, t, db, a) && !Makes(s, db, a, x)
    ensures Forgotten(Apply(s, t, db, a), x) && NoAnswerFrom(Apply(s, t, db, a).answers, from, x)
  {
    var s' := Apply(s, t, db, a);
    forall i | 0 <= i < |s'.queue|
      ensures s'.queue[i].write != Some(x)
    {
      assert i < |s.queue| ==> s.queue[i].write != Some(x);
      assert a.Deliver? ==> s'.queue[i] == s.queue[i + 1];
    }
    forall i | 0 <= i < |s'.flights|
      ensures s'.flights[i].seen != x
    {
      assert i < |s.flights| ==> s.flights[i].seen != x;
    }
  }

  /** What is forgotten is never answered again, unless it is read or put anew. */
  lemma {:induction false} ForgottenStaysForgotten(
      s: State, t: Times, db: History, actions: seq<Action>, x: Seen, from: nat)
    requires Forgotten(s, x) && NoAnswerFrom(s.answers, from, x)
    requires Run(s, t, db, actions).Some? && NeverMade(s, t, db, actions, x)
    ensures NoAnswerFrom(Run(s, t, db, actions).value.answers, from, x)
    decreases |actions|
  {
    if actions != [] {
      ForgottenStep(s, t, db, actions[0], x, from);
      ForgottenStaysForgotten(Apply(s, t, db, actions[0]), t, db, actions[1..], x, from);
    }
  }

  /** While the delete is on its way, `k` places from the front, the reading may still be in
      Redis or queued ahead of the delete, but nowhere else. */
  predicate Leaving(s: State, x: Seen, k: nat) {
    && k < |s.queue| && s.queue[k].write.None?
    && !InMemory(s, x) && !InFlight(s, x) && !QueuedFrom(s, x, k)
  }

  lemma LeavingStep(s: State, t: Times, db: History, a: Action, x: Seen, k: nat, from: nat)
    requires Leaving(s, x, k) && NoAnswerFrom(s.answers, from, x) && Enabled(s, t, db, a) && !Makes(s, db, a, x)
    requires !Gets(s, a, x) && (a.Deliver? ==> k > 0)
    ensures Leaving(Apply(s, t, db, a), x, if a.Deliver? then k - 1 else k)
    ensures NoAnswerFrom(Apply(s, t, db, a).answers, from, x)
  {
    var s', k' := Apply(s, t, db, a), if a.Deliver? then k - 1 else k;
    forall i | k' <= i < |s'.queue|
      ensures s'.queue[i].write != Some(x)
    {
      assert !a.Deliver? && i < |s.queue| ==> s.queue[i].write != Some(x);
      assert a.Deliver? ==> s'.queue[i] == s.queue[i + 1];
    }
    forall i | 0 <= i < |s'.flights|
      ensures s'.flights[i].seen != x
    {
      assert i < |s.flights| ==> s.flights[i].seen != x;
    }
  }

  lemma {:induction false} LeavingRun(s: State, t: Times, db: History, actions: seq<Action>, x: Seen, k: nat, from: nat)
    requires Leaving(s, x, k) && NoAnswerFrom(s.answers, from, x)
    requires Run(s, t, db, actions).Some? && NeverMadeOrGot(s, t, db, actions, x) && Deliveries(actions) == k
    ensures Leaving(Run(s, t, db, actions).value, x, 0)
    ensures NoAnswerFrom(Run(s, t, db, actions).value.answers, from, x)
    decreases |actions|
  {
    if actions != [] {
      var a := actions[0];
      LeavingStep(s, t, db, a, x, k, from);
      LeavingRun(Apply(s, t, db, a), t, db, actions[1..], x, if a.Deliver? then k - 1 else k, from);
    }
  }

  /** The invalidated entry never comes back: once its delete has landed, no answer given since the
      invalidation comes from it, except from a reply that was in flight before, from a GET that
      read it while the delete was on its way, or from reading or putting it anew. */
  lemma InvalidatedNeverReturns(
      s: State, t: Times, db: History, x: Seen, before: seq<Action>, s1: State, after: seq<Action>)
    requires !InFlight(s, x)
    requires var s0 := Apply(s, t, db, Invalidate(true));
             && Run(s0, t, db, before) == Some(s1) && Deliveries(before) == |s.queue|
             && NeverMadeOrGot(s0, t, db, before, x)
    requires Enabled(s1, t, db, Deliver(true))
    requires var s2 := Apply(s1, t, db, Deliver(true)); Run(s2, t, db, after).Some? && NeverMade(s2, t, db, after, x)
    ensures NoAnswerFrom(Run(Apply(s1, t, db, Deliver(true)), t, db, after).value.answers, |s.answers|, x)
  {
    var s0 := Apply(s, t, db, Invalidate(true));
    LeavingRun(s0, t, db, before, x, |s.queue|, |s.answers|);
    var s2 := Apply(s1, t, db, Deliver(true));
    assert Forgotten(s2, x) by {
      assert forall i :: 0 <= i < |s2.queue| ==> s2.queue[i] == s1.queue[i + 1];
    }
    ForgottenStaysForgotten(s2, t, db, after, x, |s.answers|);
  }

  /* ----- What fills the layers, and for how long ----- */

  predicate Fills(a: Action) {
    a.Put? || a.RedisReply? || a.FetchReply?
  }

  /** The value that a filling step puts into memory. */
  function FilledWith(s: State, t: Times, db: History, a: Action): Seen
    requires Fills(a) && Enabled(s, t, db, a)
  {
    if a.Put? then a.seen else s.flights[a.i].seen
  }

  /** A put and the reply of Redis or a fetch are served from memory for exactly the lifetime
      there; a reply is also answered at once, and all but that of Redis queue a write. */
  lemma FillsAreServed(s: State, t: Times, db: History, a: Action, later: real)
    requires Fills(a) && Enabled(s, t, db, a) && later >= 0.0
    ensures var filled, seen := Apply(s, t, db, a), FilledWith(s, t, db, a);
            var waited := Apply(filled, t, db, Tick(later));
            && (Enabled(waited, t, db, MemoryHit) <==> later < t.memTtl)
            && (later < t.memTtl ==>
                  Apply(waited, t, db, MemoryHit).answers == filled.answers + [Answer(seen, s.clock + later)])
            && filled.answers == s.answers + (if a.Put? then [] else [Answer(seen, s.clock)])
            && filled.queue == s.queue + if !a.RedisReply? && a.queued then [Queued(Some(seen), s.clock)] else []
  {
  }

  /** A read of the database, or of Redis, can be answered for as long as a fetch or a GET takes,
      with what was there when it was made; so long a value that was read can also be put. */
  lemma ReadsAreAnswered(s: State, t: Times, db: History, a: Action, later: real, queued: bool)
    requires (a.DbRead? || a.RedisGet?) && Enabled(s, t, db, a) && later >= 0.0
    ensures var waited := Apply(Apply(s, t, db, a), t, db, Tick(later));
            var reply := if a.DbRead? then FetchReply(|s.flights|, queued) else RedisReply(|s.flights|);
            && (Enabled(waited, t, db, reply) <==> later <= if a.DbRead? then t.fetch else t.get)
            && (Enabled(waited, t, db, reply) ==>
                  FilledWith(waited, t, db, reply)
                  == if a.DbRead? then Seen(db(s.clock), s.clock) else s.l2.value.seen)
            && (a.DbRead? ==> (Enabled(waited, t, db, Put(Seen(db(s.clock), s.clock), queued)) <==> later <= t.fetch))
  {
  }

  /** A write that lands is served from Redis for exactly the lifetime there. */
  lemma LandedWriteIsServed(s: State, t: Times, db: History, seen: Seen, later: real)
    requires Enabled(s, t, db, Deliver(true)) && s.queue[0].write == Some(seen) && later >= 0.0
    ensures var waited := Apply(Apply(s, t, db, Deliver(true)), t, db, Tick(later));
            && (Enabled(waited, t, db, RedisGet) <==> later < t.redisTtl)
            && (later < t.redisTtl ==>
                  Apply(waited, t, db, RedisGet).flights == s.flights + [FromRedis(seen, s.clock + later)])
  {
  }

  /** A write that does not land, and a lost key, leave Redis as it was, or empty. */
  lemma LostWritesAndKeys(s: State, t: Times, db: History)
    ensures Enabled(s, t, db, Deliver(false)) ==>
              Apply(s, t, db, Deliver(false)).l2 == s.l2 && Apply(s, t, db, Deliver(false)).queue == s.queue[1..]
    ensures !Enabled(Apply(s, t, db, LoseRedis), t, db, RedisGet)
  {
  }

  /* ----- The GET latency ----- */

  /** The bound that leaves the latency of the Redis GET out. */
  function GetFreeBound(t: Times): real {
    t.fetch + t.queue + t.redisTtl + t.memTtl
  }

  /** The answer was the database value at some moment no longer ago than the bound. */
  ghost predicate NoOlderThan(a: Answer, db: History, bound: real) {
    exists r :: a.at - bound <= r <= a.at && db(r) == a.seen.value
  }

  /** Entries that live for no time at all are never read back. */
  predicate NothingFromRedis(s: State) {
    && (s.l2.Some? ==> s.l2.value.until <= s.clock)
    && forall i :: 0 <= i < |s.flights| ==> s.flights[i].FromDb?
  }

  /** Then the GET latency plays no part: the run is one of a Redis that answers at once. */
  lemma {:induction false} WithoutLifetimeNoGet(s: State, t: Times, db: History, actions: seq<Action>)
    requires t.Valid() && t.redisTtl == 0.0 && NothingFromRedis(s) && Run(s, t, db, actions).Some?
    ensures Run(s, t.(get := 0.0), db, actions) == Run(s, t, db, actions)
    decreases |actions|
  {
    if actions != [] {
      assert NothingFromRedis(Apply(s, t, db, actions[0]));
      assert Apply(s, t.(get := 0.0), db, actions[0]) == Apply(s, t, db, actions[0]);
      WithoutLifetimeNoGet(Apply(s, t, db, actions[0]), t, db, actions[1..]);
    }
  }

  lemma GetFreeBoundHolds(t: Times, db: History, actions: seq<Action>, s: State)
    requires t.Valid() && (t.get == 0.0 || t.redisTtl == 0.0) && Run(INIT, t, db, actions) == Some(s)
    ensures forall a :: a in s.answers ==> NoOlderThan(a, db, GetFreeBound(t))
  {
    if t.get > 0.0 {
      WithoutLifetimeNoGet(INIT, t, db, actions);
    }
    BoundedStaleness(t.(get := 0.0), db, actions, s);
    assert t.(get := 0.0).Bound() == GetFreeBound(t);
    forall a | a in s.answers
      ensures NoOlderThan(a, db, GetFreeBound(t))
    {
      var r :| r <= a.at && a.seen.value == db(r) && a.at - r <= t.(get := 0.0).Bound();
      assert a.at - GetFreeBound(t) <= r;
    }
  }

  /** Append one action to a run. */
  lemma {:induction false} Extend(s: State, t: Times, db: History, actions: seq<Action>, a: Action)
    requires Run(s, t, db, actions).Some? && Enabled(Run(s, t, db, actions).value, t, db, a)
    ensures Run(s, t, db, actions + [a]) == Some(Apply(Run(s, t, db, actions).value, t, db, a))
    decreases |actions|
  {
    if actions == [] {
      assert actions + [a] == [a];
      assert Run(Apply(s, t, db, a), t, db, [a][1..]) == Some(Apply(s, t, db, a));
    } else {
      assert (actions + [a])[1..] == actions[1..] + [a];
      Extend(Apply(s, t, db, actions[0]), t, db, actions[1..], a);
    }
  }

  lemma Next(t: Times, db: History, actions: seq<Action>, now: State, a: Action)
      returns (actions': seq<Action>, now': State)
    requires Run(INIT, t, db, actions) == Some(now) && Enabled(now, t, db, a)
    ensures now' == Apply(now, t, db, a) && Run(INIT, t, db, actions') == Some(now')
  {
    Extend(INIT, t, db, actions, a);
    actions', now' := actions + [a], Apply(now, t, db, a);
  }

  lemma NoSteps(t: Times, db: History)
    ensures Run(INIT, t, db, []) == Some(INIT)
  {
  }

  /** The slowest way of a database value into Redis ... */
  lemma SlowestFill(t: Times, db: History) returns (run: seq<Action>, s: State)
    requires t.Valid()
    ensures Run(INIT, t, db, run) == Some(s)
    ensures s.clock == t.fetch + t.queue && s.l2 == Some(Entry(Seen(db(0.0), 0.0), s.clock + t.redisTtl))
    ensures s.flights == [FromDb(Seen(db(0.0), 0.0))]
  {
    hide Run;
    NoSteps(t, db);
    run, s := Next(t, db, [], INIT, DbRead);
    run, s := Next(t, db, run, s, Tick(t.fetch));
    run, s := Next(t, db, run, s, FetchReply(0, true));
    run, s := Next(t, db, run, s, Tick(t.queue));
    run, s := Next(t, db, run, s, Deliver(true));
  }

  /** ... out of it, a moment `e` before it expires ... */
  lemma SlowestGet(t: Times, db: History, e: real) returns (run: seq<Action>, s: State)
    requires t.Valid() && 0.0 < e <= t.redisTtl
    ensures Run(INIT, t, db, run) == Some(s)
    ensures s.clock == t.fetch + t.queue + t.redisTtl - e + t.get
    ensures s.l1 == Some(Entry(Seen(db(0.0), 0.0), s.clock + t.memTtl))
    ensures Answer(Seen(db(0.0), 0.0), s.clock) in s.answers
  {
    hide Run;
    run, s := SlowestFill(t, db);
    run, s := Next(t, db, run, s, Tick(t.redisTtl - e));
    run, s := Next(t, db, run, s, LoseMemory);
    run, s := Next(t, db, run, s, RedisGet);
    run, s := Next(t, db, run, s, Tick(t.get));
    run, s := Next(t, db, run, s, RedisReply(1));
    assert s.answers[|s.answers| - 1] == Answer(Seen(db(0.0), 0.0), s.clock);
  }

  /** ... and out of memory, a moment before that entry expires. */
  lemma SlowestAnswer(t: Times, db: History) returns (run: seq<Action>, s: State, a: Answer)
    requires t.Valid() && t.get > 0.0 && t.redisTtl > 0.0
    ensures Run(INIT, t, db, run) == Some(s) && a in s.answers
    ensures a.seen == Seen(db(0.0), 0.0) && a.at > GetFreeBound(t)
  {
    hide Run;
    var e := (if t.get < t.redisTtl then t.get else t.redisTtl) / 4.0;
    run, s := SlowestGet(t, db, e);
    a := Answer(Seen(db(0.0), 0.0), s.clock);
    if t.memTtl > 0.0 {
      var e' := if e < t.memTtl then e else t.memTtl;
      run, s := Next(t, db, run, s, Tick(t.memTtl - e'));
      run, s := Next(t, db, run, s, MemoryHit);
      a := s.answers[|s.answers| - 1];
    }
  }

  /** A database whose value changes right after the first moment. */
  function Once(r: real): Value {
    if r <= 0.0 then 0 else 1
  }

  lemma GetFreeBoundFails(t: Times) returns (actions: seq<Action>, s: State, a: Answer)
    requires t.Valid() && t.get > 0.0 && t.redisTtl > 0.0
    ensures Run(INIT, t, Once, actions) == Some(s) && a in s.answers
    ensures forall r :: a.at - GetFreeBound(t) <= r <= a.at ==> Once(r) != a.seen.value
    ensures !NoOlderThan(a, Once, GetFreeBound(t))
  {
    actions, s, a := SlowestAnswer(t, Once);
  }

  /** The GET latency counts, exactly when there is one and Redis keeps anything at all: the
      bound without it holds of every answer of every run over every database history if and
      only if one of the two is zero. */
  lemma GetLatencyCounts(t: Times)
    requires t.Valid()
    ensures (forall db: History, actions: seq<Action>, a: Answer ::
               Run(INIT, t, db, actions).Some? && a in Run(INIT, t, db, actions).value.answers
               ==> NoOlderThan(a, db, GetFreeBound(t)))
       <==> t.get == 0.0 || t.redisTtl == 0.0
  {
    if t.get == 0.0 || t.redisTtl == 0.0 {
      forall db: History, actions: seq<Action>, a: Answer
        | Run(INIT, t, db, actions).Some? && a in Run(INIT, t, db, actions).value.answers
        ensures NoOlderThan(a, db, GetFreeBound(t))
      {
        GetFreeBoundHolds(t, db, actions, Run(INIT, t, db, actions).value);
      }
    } else {
      var actions, s, a := GetFreeBoundFails(t);
      hide NoOlderThan;
    }
  }
}
