// tcbot/database/warns_db and tcbot/database/scheduler/jobs.py: warn history and warn
// counters, two collections that every operation must keep related.
module Warns {
  import opened Wrappers

  type User = int
  type Chat = int
  type Moment = real

  datatype Key = Key(user: User, chat: Chat)

  datatype Counter = Counter(count: int, updatedAt: Moment)

  /** The timestamps of the warns of each pair, in order of insertion, and the counters. */
  datatype Db = Db(history: map<Key, seq<Moment>>, counters: map<Key, Counter>)

  const DAY := 86400.0

  function Warnings(db: Db, k: Key): seq<Moment> {
    if k in db.history then db.history[k] else []
  }

  function CounterOf(db: Db, k: Key): Option<Counter> {
    if k in db.counters then Some(db.counters[k]) else None
  }

  /** A missing counter counts zero. */
  function CountOf(counter: Option<Counter>): int {
    if counter.Some? then counter.value.count else 0
  }

  function Count(db: Db, k: Key): int {
    CountOf(CounterOf(db, k))
  }

  /** How one database call ends; one that raised has taken effect or not. */
  datatype Call = Ok | Raised(applied: bool) {
    predicate Took() {
      Ok? || applied
    }
  }

  /* ----- The operations, as functions of the two collections ----- */

  /** `_store_warn_count`. */
  function Stored(db: Db, k: Key, count: int, now: Moment): Db {
    if count <= 0 then db.(counters := db.counters - {k}) else db.(counters := db.counters[k := Counter(count, now)])
  }

  /** `_recount_and_store`. */
  function Recounted(db: Db, k: Key, now: Moment): Db {
    Stored(db, k, |Warnings(db, k)|, now)
  }

  /** `add_warn`: the row, the counter, and the row's rollback when the counter raises. */
  function Added(db: Db, k: Key, now: Moment, update: Call, rollback: Call): Db {
    Db(if update.Ok? || !rollback.Took() then db.history[k := Warnings(db, k) + [now]] else db.history,
       if update.Took() then db.counters[k := Counter(Count(db, k) + 1, now)] else db.counters)
  }

  /** The newest row: the latest timestamp, among equals the last inserted. */
  function Newest(stamps: seq<Moment>): (i: nat)
    requires stamps != []
    ensures i < |stamps|
    ensures forall j :: 0 <= j < |stamps| ==> stamps[j] <= stamps[i] && (j > i ==> stamps[j] < stamps[i])
  {
    var n := |stamps| - 1;
    if n == 0 then 0
    else
      var i := Newest(stamps[..n]);
      if stamps[n] >= stamps[i] then n else i
  }

  function Without(stamps: seq<Moment>, i: nat): (rest: seq<Moment>)
    requires i < |stamps|
    ensures |rest| == |stamps| - 1
    ensures forall t :: t in rest ==> t in stamps
  {
    stamps[..i] + stamps[i + 1..]
  }

  /** `remove_last_warn`: the row and the counter at once; unless both went well the counter is
      rebuilt. */
  function Removed(db: Db, k: Key, now: Moment, delete: Call, update: Call, recount: Call): Db {
    var stamps := Warnings(db, k);
    if stamps == [] then db
    else
      var after := Db(if delete.Took() then db.history[k := Without(stamps, Newest(stamps))] else db.history,
                      if Count(db, k) > 0 && update.Took() then db.counters[k := Counter(Count(db, k) - 1, now)]
                      else db.counters);
      if delete.Ok? && update.Ok? && Count(db, k) > 0 then after
      else if recount.Took() then Recounted(after, k, now)
      else after
  }

  /** `clear_warns`: both deletes at once; a counter delete that raised is repaired by a
      recount. */
  function Cleared(db: Db, k: Key, now: Moment, rows: Call, update: Call, repair: Call): Db {
    var after := Db(if rows.Took() then db.history - {k} else db.history,
                    if update.Took() then db.counters - {k} else db.counters);
    if update.Ok? || !repair.Took() then after else Recounted(after, k, now)
  }

  /** `clear_all_warns`; `counts` is the last of the repeated counter deletes. */
  function AllCleared(db: Db, u: User, rows: Call, counts: Call): Db {
    Db(if rows.Took() then map k | k in db.history && k.user != u :: db.history[k] else db.history,
       if counts.Took() then map k | k in db.counters && k.user != u :: db.counters[k] else db.counters)
  }

  /** `_sync_warn_count`: a missing counter is backfilled from the history. */
  function Synced(db: Db, k: Key, now: Moment): Db {
    if k in db.counters then db else if Warnings(db, k) == [] then db else Recounted(db, k, now)
  }

  function SyncedCount(db: Db, k: Key): int {
    if k in db.counters then db.counters[k].count else |Warnings(db, k)|
  }

  function Cutoff(days: int, now: Moment): Moment {
    now - days as real * DAY
  }

  /** `expire_old_warns`: two deletes at once. */
  function Expired(db: Db, days: int, now: Moment, counts: Call, rows: Call): Db {
    if days <= 0 then db
    else
      Db(if rows.Took() then map k | k in db.history :: Younger(db.history[k], Cutoff(days, now)) else db.history,
         if counts.Took() then
           map k | k in db.counters && db.counters[k].updatedAt >= Cutoff(days, now) :: db.counters[k]
         else db.counters)
  }

  function Younger(stamps: seq<Moment>, cutoff: Moment): (rest: seq<Moment>)
    ensures |rest| <= |stamps|
    ensures forall t :: t in rest <==> t in stamps && t >= cutoff
  {
    if stamps == [] then []
    else
      assert stamps == [stamps[0]] + stamps[1..];
      (if stamps[0] >= cutoff then [stamps[0]] else []) + Younger(stamps[1..], cutoff)
  }

  /** The cutoff keeps order and multiplicity: it acts on every row by itself. */
  lemma {:induction false} YoungerIsAFilter(a: seq<Moment>, b: seq<Moment>, cutoff: Moment)
    ensures Younger(a + b, cutoff) == Younger(a, cutoff) + Younger(b, cutoff)
    ensures forall t :: multiset(Younger(a, cutoff))[t] == if t >= cutoff then multiset(a)[t] else 0
    decreases |a|
  {
    if a == [] {
      assert a + b == b;
      assert multiset(a) == multiset{};
    } else {
      assert (a + b)[1..] == a[1..] + b;
      assert a == [a[0]] + a[1..];
      YoungerIsAFilter(a[1..], b, cutoff);
    }
  }

  /** `migrate_records`: where a key's history and counter end up. */
  function HistoryMoved(db: Db, from: Chat, to: Chat, repoint: Call, k: Key): seq<Moment> {
    if from == to || !repoint.Took() then Warnings(db, k)
    else if k.chat == from then []
    else if k.chat == to then Warnings(db, k) + Warnings(db, Key(k.user, from))
    else Warnings(db, k)
  }

  function CounterMoved(db: Db, from: Chat, to: Chat, now: Moment, k: Key): Option<Counter> {
    if k.chat == from then None
    else if k.chat == to && Count(db, Key(k.user, from)) > 0 then
      Some(Counter(Count(db, k) + Count(db, Key(k.user, from)), now))
    else CounterOf(db, k)
  }

  function Moved(keys: set<Key>, to: Chat): set<Key> {
    keys + set k | k in keys :: Key(k.user, to)
  }

  function Migrated(db: Db, from: Chat, to: Chat, now: Moment, repoint: Call): Db {
    Db(map k | k in Moved(db.history.Keys, to) && HistoryMoved(db, from, to, repoint, k) != [] ::
         HistoryMoved(db, from, to, repoint, k),
       map k | k in Moved(db.counters.Keys, to) && CounterMoved(db, from, to, now, k).Some? ::
         CounterMoved(db, from, to, now, k).value)
  }

  lemma MigratedAt(db: Db, from: Chat, to: Chat, now: Moment, repoint: Call, k: Key)
    ensures Warnings(Migrated(db, from, to, now, repoint), k) == HistoryMoved(db, from, to, repoint, k)
    ensures CounterOf(Migrated(db, from, to, now, repoint), k) == CounterMoved(db, from, to, now, k)
  {
    if k.chat == to {
      var k0 := Key(k.user, from);
      assert k0 in db.history ==> Key(k0.user, to) in Moved(db.history.Keys, to);
      assert k0 in db.counters ==> Key(k0.user, to) in Moved(db.counters.Keys, to);
    }
  }

  /* ----- Runs ----- */

  /** An operation with the answers of its database calls. */
  datatype Op =
    | Add(key: Key, update: Call, rollback: Call)
    | RemoveLast(key: Key, delete: Call, update: Call, recount: Call)
    | Clear(key: Key, rows: Call, update: Call, repair: Call)
    | ClearAll(user: User, rows: Call, counts: Call)
    | Read(key: Key)
    | Migrate(from: Chat, to: Chat, repoint: Call)
    | Expire(days: int, counts: Call, rows: Call)

  function Apply(db: Db, op: Op, now: Moment): Db {
    match op
    case Add(k, update, rollback) => Added(db, k, now, update, rollback)
    case RemoveLast(k, delete, update, recount) => Removed(db, k, now, delete, update, recount)
    case Clear(k, rows, update, repair) => Cleared(db, k, now, rows, update, repair)
    case ClearAll(u, rows, counts) => AllCleared(db, u, rows, counts)
    case Read(k) => Synced(db, k, now)
    case Migrate(from, to, repoint) => Migrated(db, from, to, now, repoint)
    case Expire(days, counts, rows) => Expired(db, days, now, counts, rows)
  }

  datatype Event = Event(op: Op, at: Moment)

  predicate InOrder(events: seq<Event>, clock: Moment) {
    events != [] ==> clock <= events[0].at && InOrder(events[1..], events[0].at)
  }

  function Run(db: Db, events: seq<Event>): Db
    decreases |events|
  {
    if events == [] then db else Run(Apply(db, events[0].op, events[0].at), events[1..])
  }

  const EMPTY := Db(map[], map[])

  /** The operations that leave the history of `k` without its counter, or one short or too old:
      a failed rollback or a decrement whose row stayed, when the counter has nothing to spare; a
      clear or an expiry that lost only the counter; a migration that left the rows behind. */
  predicate Uncovers(db: Db, op: Op, now: Moment, k: Key) {
    match op
    case Add(key, update, rollback) =>
      && key == k && !update.Took() && !rollback.Took()
      && (Count(db, k) == |Warnings(db, k)| || k !in db.counters || db.counters[k].updatedAt < now)
    case RemoveLast(key, delete, update, recount) =>
      && key == k && Warnings(db, k) != [] && Count(db, k) == |Warnings(db, k)|
      && !delete.Took() && update.Took() && !recount.Took()
    case Clear(key, rows, update, repair) =>
      key == k && Warnings(db, k) != [] && !rows.Took() && update.Took() && (update.Ok? || !repair.Took())
    case ClearAll(u, rows, counts) => k.user == u && Warnings(db, k) != [] && !rows.Took() && counts.Took()
    case Read(_) => false
    case Migrate(from, to, repoint) => k.chat == from && Warnings(db, k) != [] && (from == to || !repoint.Took())
    case Expire(days, counts, rows) =>
      && days > 0 && Warnings(db, k) != [] && counts.Took() && !rows.Took()
      && k in db.counters && db.counters[k].updatedAt < Cutoff(days, now)
  }

  /** No operation of the run uncovers anything. */
  ghost predicate NothingUncovered(db: Db, events: seq<Event>)
    decreases |events|
  {
    events == [] ||
    (&& (forall k :: !Uncovers(db, events[0].op, events[0].at, k))
     && NothingUncovered(Apply(db, events[0].op, events[0].at), events[1..]))
  }

  /** Every database call of the operation goes well. */
  predicate Smooth(op: Op) {
    match op
    case Add(_, update, _) => update.Ok?
    case RemoveLast(_, delete, update, _) => delete.Ok? && update.Ok?
    case Clear(_, rows, update, _) => rows.Ok? && update.Ok?
    case ClearAll(_, rows, counts) => rows.Ok? && counts.Ok?
    case Read(_) => true
    case Migrate(from, to, repoint) => from != to && repoint.Ok?
    case Expire(_, counts, rows) => counts.Ok? && rows.Ok?
  }

  /* ----- The invariant ----- */

  /** The counter is at least as large as the history and at least as young as every row. */
  predicate Covers(counter: Option<Counter>, stamps: seq<Moment>, clock: Moment) {
    && |stamps| <= CountOf(counter)
    && (counter.Some? ==> counter.value.updatedAt <= clock)
    && forall t :: t in stamps ==> counter.Some? && t <= counter.value.updatedAt
  }

  predicate Fine(db: Db, k: Key, clock: Moment, exact: bool) {
    && Covers(CounterOf(db, k), Warnings(db, k), clock)
    && (exact ==> Count(db, k) == |Warnings(db, k)|)
  }

  ghost predicate AllFine(db: Db, clock: Moment, exact: bool) {
    forall k :: Fine(db, k, clock, exact)
  }

  predicate OnOnePair(op: Op) {
    op.Add? || op.RemoveLast? || op.Clear? || op.Read?
  }

  /** What an operation on one pair leaves alone. */
  lemma OtherKeysStay(db: Db, op: Op, now: Moment, k: Key)
    requires OnOnePair(op) && k != op.key
    ensures Warnings(Apply(db, op, now), k) == Warnings(db, k) && CounterOf(Apply(db, op, now), k) == CounterOf(db, k)
  {
  }

  lemma NewestIsThere(stamps: seq<Moment>)
    ensures stamps != [] ==> stamps[Newest(stamps)] in stamps
  {
  }

  lemma PairOpKeepsFine(db: Db, op: Op, clock: Moment, now: Moment, exact: bool)
    requires OnOnePair(op) && Fine(db, op.key, clock, exact) && clock <= now
    requires !Uncovers(db, op, now, op.key) && (exact ==> Smooth(op))
    ensures Fine(Apply(db, op, now), op.key, now, exact)
  {
    NewestIsThere(Warnings(db, op.key));
  }

  lemma MigrateKeepsFine(db: Db, from: Chat, to: Chat, repoint: Call, clock: Moment, now: Moment, k: Key, exact: bool)
    requires clock <= now && Fine(db, k, clock, exact) && Fine(db, Key(k.user, from), clock, exact)
    requires !Uncovers(db, Migrate(from, to, repoint), now, k) && (exact ==> from != to && repoint.Ok?)
    ensures Fine(Migrated(db, from, to, now, repoint), k, now, exact)
  {
    MigratedAt(db, from, to, now, repoint, k);
    hide Migrated;
    var moved := Warnings(db, Key(k.user, from));
    assert Count(db, Key(k.user, from)) <= 0 ==> moved == [];
  }

  lemma ExpiredAt(db: Db, days: int, now: Moment, counts: Call, rows: Call, k: Key)
    requires days > 0
    ensures Warnings(Expired(db, days, now, counts, rows), k)
         == if rows.Took() then Younger(Warnings(db, k), Cutoff(days, now)) else Warnings(db, k)
    ensures CounterOf(Expired(db, days, now, counts, rows), k)
         == if counts.Took() && k in db.counters && db.counters[k].updatedAt < Cutoff(days, now) then None
            else CounterOf(db, k)
  {
  }

  lemma ExpireKeepsFine(db: Db, days: int, counts: Call, rows: Call, clock: Moment, now: Moment, k: Key)
    requires Fine(db, k, clock, false) && clock <= now && !Uncovers(db, Expire(days, counts, rows), now, k)
    ensures Fine(Expired(db, days, now, counts, rows), k, now, false)
  {
    if days > 0 {
      ExpiredAt(db, days, now, counts, rows, k);
      hide Expired;
      NoneLeft(Warnings(db, k), Cutoff(days, now));
    }
  }

  lemma NoneLeft(stamps: seq<Moment>, cutoff: Moment)
    ensures (forall t :: t in stamps ==> t < cutoff) ==> Younger(stamps, cutoff) == []
  {
    if Younger(stamps, cutoff) != [] {
      assert Younger(stamps, cutoff)[0] in Younger(stamps, cutoff);
    }
  }

  lemma StepKeepsFineAt(db: Db, op: Op, clock: Moment, now: Moment, exact: bool, k: Key)
    requires AllFine(db, clock, exact) && clock <= now && !Uncovers(db, op, now, k)
    requires exact ==> Smooth(op) && !op.Expire?
    ensures Fine(Apply(db, op, now), k, now, exact)
  {
    assert Fine(db, k, clock, exact);
    if op.Migrate? {
      assert Fine(db, Key(k.user, op.from), clock, exact);
      hide Fine;
      MigrateKeepsFine(db, op.from, op.to, op.repoint, clock, now, k, exact);
    } else if op.Expire? {
      ExpireKeepsFine(db, op.days, op.counts, op.rows, clock, now, k);
    } else if op.ClearAll? {
      assert Fine(AllCleared(db, op.user, op.rows, op.counts), k, now, exact);
    } else if op.key == k {
      PairOpKeepsFine(db, op, clock, now, exact);
    } else {
      OtherKeysStay(db, op, now, k);
    }
  }

  lemma {:induction false} RunKeepsFine(db: Db, events: seq<Event>, clock: Moment, exact: bool) returns (end: Moment)
    requires AllFine(db, clock, exact) && InOrder(events, clock) && NothingUncovered(db, events)
    requires exact ==> forall e :: e in events ==> Smooth(e.op) && !e.op.Expire?
    ensures AllFine(Run(db, events), end, exact)
    decreases |events|
  {
    if events == [] {
      end := clock;
    } else {
      var op, now := events[0].op, events[0].at;
      assert events[0] in events;
      assert AllFine(Apply(db, op, now), now, exact) by {
        forall k ensures Fine(Apply(db, op, now), k, now, exact) {
          StepKeepsFineAt(db, op, clock, now, exact, k);
        }
      }
      assert forall e :: e in events[1..] ==> e in events;
      hide AllFine, Apply, Uncovers, Smooth;
      end := RunKeepsFine(Apply(db, op, now), events[1..], now, exact);
    }
  }

  /** Expiry never resurrects warns: after any run of adds, removals, clears, reads, migrations
      and expiries, failing calls included as long as none of them uncovers a history, every
      counter is at least its history and at least as young as every row left; so a missing
      counter has no history, and reading it finds zero and stores nothing. */
  lemma ExpiryNeverResurrects(events: seq<Event>, start: Moment, k: Key, now: Moment)
    requires InOrder(events, start) && NothingUncovered(EMPTY, events)
    ensures var db := Run(EMPTY, events);
            && |Warnings(db, k)| <= Count(db, k)
            && (forall t :: t in Warnings(db, k) ==> k in db.counters && t <= db.counters[k].updatedAt)
            && (k !in db.counters ==> SyncedCount(db, k) == 0 && Synced(db, k, now) == db)
  {
    var end := RunKeepsFine(EMPTY, events, start, false);
    assert Fine(Run(EMPTY, events), k, end, false);
  }

  /** The guard is exact, in every state that a run keeps covered: one more operation leaves the
      history covered if and only if it does not uncover it. */
  lemma CoverIsLostExactlyWhen(db: Db, op: Op, clock: Moment, now: Moment, k: Key)
    requires AllFine(db, clock, false) && clock <= now
    ensures Covers(CounterOf(Apply(db, op, now), k), Warnings(Apply(db, op, now), k), now)
       <==> !Uncovers(db, op, now, k)
  {
    assert Fine(db, k, clock, false);
    if !Uncovers(db, op, now, k) {
      StepKeepsFineAt(db, op, clock, now, false, k);
    } else if op.Migrate? {
      MigratedAt(db, op.from, op.to, now, op.repoint, k);
    } else if op.Expire? {
      ExpiredAt(db, op.days, now, op.counts, op.rows, k);
    } else if op.Add? {
      assert now in Warnings(Apply(db, op, now), k) by {
        assert Warnings(Apply(db, op, now), k)[|Warnings(db, k)|] == now;
      }
    }
  }

  /** The smallest input: the first warn of a pair, whose counter and whose rollback both fail. */
  lemma FailedRollbackExample(k: Key, now: Moment)
    ensures var db := Run(EMPTY, [Event(Add(k, Raised(false), Raised(false)), now)]);
            |Warnings(db, k)| == 1 && Count(db, k) == 0
  {
    var event := Event(Add(k, Raised(false), Raised(false)), now);
    assert [event][1..] == [];
    assert Run(EMPTY, [event]) == Apply(EMPTY, event.op, now);
  }

  /** In particular nothing is uncovered as long as every database call goes well and a chat
      migrates to another one. */
  lemma {:induction false} SmoothRunsUncoverNothing(db: Db, events: seq<Event>)
    requires forall e :: e in events ==> Smooth(e.op)
    ensures NothingUncovered(db, events)
    decreases |events|
  {
    if events != [] {
      assert events[0] in events;
      assert forall e :: e in events[1..] ==> e in events;
      SmoothRunsUncoverNothing(Apply(db, events[0].op, events[0].at), events[1..]);
    }
  }

  /** Without expiry and failures the two are equal, so every read returns the size of the
      history. */
  lemma WithoutExpiryCountersAreExact(events: seq<Event>, start: Moment, k: Key)
    requires InOrder(events, start) && forall e :: e in events ==> Smooth(e.op) && !e.op.Expire?
    ensures Count(Run(EMPTY, events), k) == |Warnings(Run(EMPTY, events), k)| == SyncedCount(Run(EMPTY, events), k)
  {
    SmoothRunsUncoverNothing(EMPTY, events);
    var end := RunKeepsFine(EMPTY, events, start, true);
    assert Fine(Run(EMPTY, events), k, end, true);
  }

  /** With expiry they are not: the old row goes, the refreshed counter stays full. */
  lemma PartialExpiryKeepsTheCount(k: Key)
    ensures var add := Add(k, Ok, Ok);
            var db := Run(EMPTY, [Event(add, 0.0), Event(add, DAY), Event(Expire(1, Ok, Ok), 1.5 * DAY)]);
            |Warnings(db, k)| == 1 && Count(db, k) == 2
  {
    var one := Added(EMPTY, k, 0.0, Ok, Ok);
    assert Warnings(one, k) == [0.0];
    var two := Added(one, k, DAY, Ok, Ok);
    assert Warnings(two, k) == [0.0, DAY] && two.counters[k] == Counter(2, DAY);
    var three := Expired(two, 1, 1.5 * DAY, Ok, Ok);
    assert [0.0, DAY][1..] == [DAY] && [DAY][1..] == [];
    assert Younger([0.0, DAY], 0.5 * DAY) == [DAY];
    var add := Add(k, Ok, Ok);
    var events := [Event(add, 0.0), Event(add, DAY), Event(Expire(1, Ok, Ok), 1.5 * DAY)];
    assert Run(one, events[1..]) == Run(two, events[1..][1..]);
    assert Run(two, events[2..]) == Run(three, events[2..][1..]) == three;
    assert events[1..][1..] == events[2..];
  }

  lemma NewestOfAppended(stamps: seq<Moment>, now: Moment)
    requires forall t :: t in stamps ==> t <= now
    ensures Newest(stamps + [now]) == |stamps| && Without(stamps + [now], |stamps|) == stamps
  {
    var all := stamps + [now];
    assert forall j :: 0 <= j < |stamps| ==> all[j] == stamps[j] && stamps[j] in stamps;
    assert all[|stamps|] == now;
  }

  /** Removing the last warn undoes adding it: the same rows, the same count. */
  lemma RemoveUndoesAdd(db: Db, k: Key, now: Moment, later: Moment)
    requires Fine(db, k, now, false)
    ensures var db' := Removed(Added(db, k, now, Ok, Ok), k, later, Ok, Ok, Ok);
            Warnings(db', k) == Warnings(db, k) && Count(db', k) == Count(db, k)
  {
    var stamps := Warnings(db, k);
    NewestOfAppended(stamps, now);
    assert Warnings(Added(db, k, now, Ok, Ok), k) == stamps + [now];
    hide Newest, Without;
  }

  /* ----- What each operation promises, over the rows and the counters alone ----- */

  /** A warn that is added is one more row and one more on the counter; when the counter raised
      the row is gone again unless its rollback failed too. */
  lemma AddPromises(db: Db, k: Key, now: Moment, update: Call, rollback: Call)
    ensures var after := Apply(db, Add(k, update, rollback), now);
            && (update.Ok? ==> Warnings(after, k) == Warnings(db, k) + [now] && Count(after, k) == Count(db, k) + 1)
            && (!update.Ok? && rollback.Took() ==> Warnings(after, k) == Warnings(db, k))
            && (!update.Ok? && !rollback.Took() ==> Warnings(after, k) == Warnings(db, k) + [now])
            && (update.Took() ==> CounterOf(after, k) == Some(Counter(Count(db, k) + 1, now)))
            && (!update.Took() ==> CounterOf(after, k) == CounterOf(db, k))
  {
  }

  /** A removal takes the row at some position that no other row is newer than, and leaves the
      others in their order; the counter goes down by one, or is set to the rows left. */
  lemma RemovePromises(db: Db, k: Key, now: Moment, delete: Call, update: Call, recount: Call)
    ensures var after, rows := Apply(db, RemoveLast(k, delete, update, recount), now), Warnings(db, k);
            var smooth := delete.Ok? && update.Ok? && Count(db, k) > 0;
            && (rows == [] ==> after == db)
            && (rows != [] && !delete.Took() ==> Warnings(after, k) == rows)
            && (rows != [] && delete.Took() ==>
                  exists i :: 0 <= i < |rows| && Warnings(after, k) == rows[..i] + rows[i + 1..]
                    && forall j :: 0 <= j < |rows| ==> rows[j] <= rows[i] && (j > i ==> rows[j] < rows[i]))
            && (rows != [] && smooth ==> CounterOf(after, k) == Some(Counter(Count(db, k) - 1, now)))
            && (rows != [] && !smooth && recount.Took() ==> Count(after, k) == |Warnings(after, k)|)
            && (rows != [] && !smooth && !recount.Took() ==>
                  Count(after, k) == Count(db, k) - if Count(db, k) > 0 && update.Took() then 1 else 0)
  {
    var rows := Warnings(db, k);
    if rows != [] && delete.Took() {
      assert Warnings(Apply(db, RemoveLast(k, delete, update, recount), now), k)
          == rows[..Newest(rows)] + rows[Newest(rows) + 1..];
    }
  }

  /** After a clear whose row delete took effect no row is left, and after one whose counter
      delete went well no counter; a counter delete that raised is repaired to the rows left. The
      other pairs keep both. */
  lemma ClearPromises(db: Db, k: Key, now: Moment, rows: Call, update: Call, repair: Call, j: Key)
    ensures var after := Apply(db, Clear(k, rows, update, repair), now);
            && Warnings(after, k) == (if rows.Took() then [] else Warnings(db, k))
            && (update.Ok? ==> CounterOf(after, k) == None)
            && (!update.Ok? && repair.Took() ==>
                  CounterOf(after, k)
                  == if Warnings(after, k) == [] then None else Some(Counter(|Warnings(after, k)|, now)))
            && (!update.Ok? && !repair.Took() ==>
                  CounterOf(after, k) == if update.applied then None else CounterOf(db, k))
            && (j != k ==> Warnings(after, j) == Warnings(db, j) && CounterOf(after, j) == CounterOf(db, j))
  {
  }

  /** A clear of a user empties every pair of that user, as far as its two deletes took effect,
      and touches no other user. */
  lemma ClearAllPromises(db: Db, u: User, now: Moment, rows: Call, counts: Call, j: Key)
    ensures var after := Apply(db, ClearAll(u, rows, counts), now);
            && Warnings(after, j) == (if j.user == u && rows.Took() then [] else Warnings(db, j))
            && CounterOf(after, j) == (if j.user == u && counts.Took() then None else CounterOf(db, j))
  {
  }

  /** A read keeps the rows and a counter that is there; it stores the rows' number for a missing
      one, and what it returns is the count it leaves. */
  lemma ReadPromises(db: Db, k: Key, now: Moment)
    ensures var after := Apply(db, Read(k), now);
            && Warnings(after, k) == Warnings(db, k) && Count(after, k) == SyncedCount(db, k)
            && CounterOf(after, k)
               == if CounterOf(db, k).Some? then CounterOf(db, k)
                  else if Warnings(db, k) == [] then None
                  else Some(Counter(|Warnings(db, k)|, now))
  {
  }

  /** A migration to another chat loses and invents no row: the new chat ends up with both chats'
      rows, the old one with none; if the update did not take effect, all stay. */
  lemma MigrationKeepsEveryRow(db: Db, from: Chat, to: Chat, now: Moment, repoint: Call, u: User)
    requires from != to
    ensures var after := Apply(db, Migrate(from, to, repoint), now);
            var source, target := Key(u, from), Key(u, to);
            && multiset(Warnings(after, source)) + multiset(Warnings(after, target))
               == multiset(Warnings(db, source)) + multiset(Warnings(db, target))
            && (if repoint.Took() then Warnings(after, source) == []
                else Warnings(after, target) == Warnings(db, target))
  {
    MigratedAt(db, from, to, now, repoint, Key(u, from));
    MigratedAt(db, from, to, now, repoint, Key(u, to));
  }

  /** An expiry keeps, of every row, all copies that are young enough and none that is older, and
      drops a counter that was not updated since; with no positive number of days it does
      nothing. */
  lemma ExpirePromises(db: Db, days: int, now: Moment, counts: Call, rows: Call, k: Key, t: Moment)
    ensures var after, oldest := Apply(db, Expire(days, counts, rows), now), now - days as real * 86400.0;
            && (days <= 0 ==> after == db)
            && multiset(Warnings(after, k))[t]
               == (if days > 0 && rows.Took() && t < oldest then 0 else multiset(Warnings(db, k))[t])
            && CounterOf(after, k)
               == (if days > 0 && counts.Took() && k in db.counters && db.counters[k].updatedAt < oldest then None
                   else CounterOf(db, k))
  {
    if days > 0 {
      ExpiredAt(db, days, now, counts, rows, k);
      YoungerIsAFilter(Warnings(db, k), [], Cutoff(days, now));
    }
  }

  /** How many warns of `k` stand after `events`, counted on the operations alone: an add is one
      more, a removal one fewer, a clear leaves none, a migration brings the other chat's. */
  function Standing(events: seq<Event>, k: Key): nat
    decreases |events|
  {
    if events == [] then 0
    else
      var n := |events| - 1;
      var before := Standing(events[..n], k);
      match events[n].op
      case Add(key, _, _) => if key == k then before + 1 else before
      case RemoveLast(key, _, _, _) => if key == k && before > 0 then before - 1 else before
      case Clear(key, _, _, _) => if key == k then 0 else before
      case ClearAll(u, _, _) => if k.user == u then 0 else before
      case Migrate(from, to, _) =>
        if k.chat == from then 0
        else if k.chat == to then before + Standing(events[..n], Key(k.user, from))
        else before
      case _ => before
  }

  lemma {:induction false} RunSnoc(db: Db, events: seq<Event>, e: Event)
    ensures Run(db, events + [e]) == Apply(Run(db, events), e.op, e.at)
    decreases |events|
  {
    if events == [] {
      assert events + [e] == [e] && [e][1..] == [];
      assert Run(Apply(db, e.op, e.at), []) == Apply(db, e.op, e.at);
    } else {
      assert (events + [e])[1..] == events[1..] + [e] && (events + [e])[0] == events[0];
      hide Apply;
      RunSnoc(Apply(db, events[0].op, events[0].at), events[1..], e);
    }
  }

  lemma StandingStep(db: Db, op: Op, now: Moment, k: Key)
    requires Smooth(op) && !op.Expire?
    ensures |Warnings(Apply(db, op, now), k)|
         == match op
            case Add(key, _, _) => |Warnings(db, k)| + (if key == k then 1 else 0)
            case RemoveLast(key, _, _, _) =>
              |Warnings(db, k)| - (if key == k && Warnings(db, k) != [] then 1 else 0)
            case Clear(key, _, _, _) => if key == k then 0 else |Warnings(db, k)|
            case ClearAll(u, _, _) => if k.user == u then 0 else |Warnings(db, k)|
            case Migrate(from, to, _) =>
              if k.chat == from then 0
              else if k.chat == to then |Warnings(db, k)| + |Warnings(db, Key(k.user, from))|
              else |Warnings(db, k)|
            case _ => |Warnings(db, k)|
  {
    if op.Migrate? {
      MigratedAt(db, op.from, op.to, now, op.repoint, k);
    }
  }

  /** Without expiry and failures the history of every pair holds exactly the warns that stand,
      and so does what a read returns. */
  lemma WarnsStand(events: seq<Event>, start: Moment, k: Key)
    requires InOrder(events, start) && forall e :: e in events ==> Smooth(e.op) && !e.op.Expire?
    ensures |Warnings(Run(EMPTY, events), k)| == Standing(events, k) == SyncedCount(Run(EMPTY, events), k)
  {
    HistoryStands(events, k);
    WithoutExpiryCountersAreExact(events, start, k);
  }

  lemma {:induction false} HistoryStands(events: seq<Event>, k: Key)
    requires forall e :: e in events ==> Smooth(e.op) && !e.op.Expire?
    ensures |Warnings(Run(EMPTY, events), k)| == Standing(events, k)
    decreases |events|
  {
    if events != [] {
      var n := |events| - 1;
      var e := events[n];
      assert events == events[..n] + [e];
      assert e in events && forall e' :: e' in events[..n] ==> e' in events;
      RunSnoc(EMPTY, events[..n], e);
      HistoryStands(events[..n], k);
      if e.op.Migrate? {
        HistoryStands(events[..n], Key(k.user, e.op.from));
      }
      StandingStep(Run(EMPTY, events[..n]), e.op, e.at, k);
      hide Run, Apply, Warnings;
    }
  }

  /* ----- Migration and the federation-wide count ----- */

  function Active(db: Db, k: Key): nat {
    if Count(db, k) > 0 then Count(db, k) else 0
  }

  /** `federation_warn_count`: the positive counters of a user, over the given chats. */
  function FederationWarnCount(db: Db, u: User, chats: seq<Chat>): nat {
    if chats == [] then 0 else Active(db, Key(u, chats[0])) + FederationWarnCount(db, u, chats[1..])
  }

  lemma {:induction false} FederationSplit(db: Db, u: User, chats: seq<Chat>, i: nat)
    requires i < |chats|
    ensures FederationWarnCount(db, u, chats)
         == Active(db, Key(u, chats[i])) + FederationWarnCount(db, u, chats[..i] + chats[i + 1..])
  {
    if i > 0 {
      FederationSplit(db, u, chats[1..], i - 1);
      assert (chats[..i] + chats[i + 1..])[1..] == chats[1..][..i - 1] + chats[1..][i..];
    } else {
      assert chats[..0] + chats[1..] == chats[1..];
    }
  }

  lemma {:induction false} SameElsewhere(db: Db, db': Db, u: User, chats: seq<Chat>)
    requires forall c :: c in chats ==> Count(db, Key(u, c)) == Count(db', Key(u, c))
    ensures FederationWarnCount(db, u, chats) == FederationWarnCount(db', u, chats)
  {
    if chats != [] {
      assert chats[0] in chats;
      SameElsewhere(db, db', u, chats[1..]);
    }
  }

  predicate Distinct(chats: seq<Chat>) {
    forall i, j :: 0 <= i < j < |chats| ==> chats[i] != chats[j]
  }

  lemma RestIsDistinct(chats: seq<Chat>, i: nat)
    requires Distinct(chats) && i < |chats|
    ensures var rest := chats[..i] + chats[i + 1..];
            Distinct(rest) && chats[i] !in rest && forall c :: c in chats && c != chats[i] ==> c in rest
  {
    var rest := chats[..i] + chats[i + 1..];
    forall c | c in chats && c != chats[i]
      ensures c in rest
    {
      var j :| 0 <= j < |chats| && chats[j] == c;
      assert rest[if j < i then j else j - 1] == c;
    }
  }

  /** One chat fewer, and the two chats of a migration apart from all others. */
  lemma FederationOfTwo(u: User, chats: seq<Chat>, from: Chat, to: Chat) returns (others: seq<Chat>)
    requires Distinct(chats) && from in chats && to in chats && from != to
    ensures from !in others && to !in others
    ensures forall db: Db :: FederationWarnCount(db, u, chats)
              == Active(db, Key(u, from)) + Active(db, Key(u, to)) + FederationWarnCount(db, u, others)
  {
    var i :| 0 <= i < |chats| && chats[i] == from;
    var rest := chats[..i] + chats[i + 1..];
    RestIsDistinct(chats, i);
    var j :| 0 <= j < |rest| && rest[j] == to;
    others := rest[..j] + rest[j + 1..];
    RestIsDistinct(rest, j);
    forall db: Db
      ensures FederationWarnCount(db, u, chats)
           == Active(db, Key(u, from)) + Active(db, Key(u, to)) + FederationWarnCount(db, u, others)
    {
      hide FederationWarnCount, Active, Distinct;
      FederationSplit(db, u, chats, i);
      FederationSplit(db, u, rest, j);
    }
  }

  lemma MovesCount(db: Db, from: Chat, to: Chat, now: Moment, repoint: Call, k: Key)
    ensures Count(Migrated(db, from, to, now, repoint), k)
         == if k.chat == from then 0
            else if k.chat == to && Count(db, Key(k.user, from)) > 0 then Count(db, k) + Count(db, Key(k.user, from))
            else Count(db, k)
  {
    MigratedAt(db, from, to, now, repoint, k);
  }

  /** A complete migration keeps every user's federation-wide count, exactly when the chats
      differ or the user has nothing to lose: migrating a chat to itself deletes its counters. */
  lemma MigrationKeepsFederationCountExactly(
      db: Db, from: Chat, to: Chat, now: Moment, repoint: Call, u: User, chats: seq<Chat>)
    requires Distinct(chats) && from in chats && to in chats && Count(db, Key(u, to)) >= 0
    ensures FederationWarnCount(Migrated(db, from, to, now, repoint), u, chats) == FederationWarnCount(db, u, chats)
            <==> from != to || Count(db, Key(u, from)) <= 0
  {
    var db' := Migrated(db, from, to, now, repoint);
    forall c
      ensures Count(db', Key(u, c)) == if c == from then 0
                else if c == to && Count(db, Key(u, from)) > 0 then Count(db, Key(u, c)) + Count(db, Key(u, from))
                else Count(db, Key(u, c))
    {
      MovesCount(db, from, to, now, repoint, Key(u, c));
    }
    hide Migrated, Count, FederationWarnCount;
    if from == to {
      var i :| 0 <= i < |chats| && chats[i] == from;
      RestIsDistinct(chats, i);
      hide Distinct;
      var rest := chats[..i] + chats[i + 1..];
      FederationSplit(db, u, chats, i);
      FederationSplit(db', u, chats, i);
      SameElsewhere(db, db', u, rest);
    } else {
      var others := FederationOfTwo(u, chats, from, to);
      SameElsewhere(db, db', u, others);
    }
  }

  /* ----- The collections, updated in place ----- */

  class WarnStore {
    var history: map<Key, seq<Moment>>
    var counters: map<Key, Counter>

    function Contents(): Db
      reads this
    {
      Db(history, counters)
    }

    constructor ()
      ensures Contents() == EMPTY
    {
      history, counters := map[], map[];
    }

    method StoreWarnCount(k: Key, count: int, now: Moment)
      modifies this
      ensures Contents() == Stored(old(Contents()), k, count, now)
    {
      if count <= 0 {
        counters := counters - {k};
        return;
      }
      counters := counters[k := Counter(count, now)];
    }

    method RecountAndStore(k: Key, now: Moment)
      modifies this
      ensures Contents() == Recounted(old(Contents()), k, now)
    {
      StoreWarnCount(k, if k in history then |history[k]| else 0, now);
    }

    /** Returns the new count, or None when it raises. */
    method AddWarn(k: Key, now: Moment, update: Call, rollback: Call) returns (count: Option<int>)
      modifies this
      ensures forall j :: Warnings(Contents(), j) == Warnings(Added(old(Contents()), k, now, update, rollback), j)
      ensures counters == Added(old(Contents()), k, now, update, rollback).counters
      ensures count == if update.Ok? then Some(old(Count(Contents(), k)) + 1) else None
    {
      var stamps := if k in history then history[k] else [];
      history := history[k := stamps + [now]];
      var before := if k in counters then counters[k].count else 0;
      if update.Took() {
        counters := counters[k := Counter(before + 1, now)];
      }
      if update.Ok? {
        return Some(before + 1);
      }
      if rollback.Took() {
        history := history[k := history[k][..|stamps|]];
      }
      count := None;
    }

    /** Returns whether a row was removed, or None when it raises. */
    method RemoveLastWarn(k: Key, now: Moment, delete: Call, update: Call, recount: Call)
        returns (removed: Option<bool>)
      modifies this
      ensures Contents() == Removed(old(Contents()), k, now, delete, update, recount)
      ensures removed == if old(Warnings(Contents(), k)) == [] then Some(false)
                         else if delete.Ok? && ((update.Ok? && old(Count(Contents(), k)) > 0) || recount.Ok?) then
                           Some(true)
                         else None
    {
      hide Newest, Without, Recounted, Stored;
      if k !in history || history[k] == [] { return Some(false); }
      if delete.Took() {
        history := history[k := Without(history[k], Newest(history[k]))];
      }
      var matched := k in counters && counters[k].count > 0;
      if matched && update.Took() {
        counters := counters[k := Counter(counters[k].count - 1, now)];
      }
      if delete.Ok? && update.Ok? && matched {
        return Some(true);
      }
      if recount.Took() {
        RecountAndStore(k, now);
      }
      removed := if delete.Ok? && recount.Ok? then Some(true) else None;
    }

    /** Returns how many rows were deleted, or None when it raises. */
    method ClearWarns(k: Key, now: Moment, rows: Call, update: Call, repair: Call) returns (deleted: Option<nat>)
      modifies this
      ensures Contents() == Cleared(old(Contents()), k, now, rows, update, repair)
      ensures deleted == if rows.Ok? then Some(|old(Warnings(Contents(), k))|) else None
    {
      deleted := if !rows.Ok? then None else if k in history then Some(|history[k]|) else Some(0);
      if rows.Took() {
        history := history - {k};
      }
      if update.Took() {
        counters := counters - {k};
      }
      if !update.Ok? && repair.Took() {
        RecountAndStore(k, now);
      }
    }

    method ClearAllWarns(u: User, rows: Call, counts: Call)
      modifies this
      ensures Contents() == AllCleared(old(Contents()), u, rows, counts)
    {
      if rows.Took() {
        history := map k | k in history && k.user != u :: history[k];
      }
      if counts.Took() {
        counters := map k | k in counters && k.user != u :: counters[k];
      }
    }

    method WarnCount(k: Key, now: Moment) returns (count: int)
      modifies this
      ensures Contents() == Synced(old(Contents()), k, now)
      ensures count == SyncedCount(old(Contents()), k)
    {
      if k in counters { return counters[k].count; }
      count := if k in history then |history[k]| else 0;
      if count > 0 {
        counters := counters[k := Counter(count, now)];
      }
    }

    method ExpireOldWarns(days: int, now: Moment, counts: Call, rows: Call)
      modifies this
      ensures Contents() == Expired(old(Contents()), days, now, counts, rows)
    {
      if days <= 0 { return; }
      var cutoff := now - days as real * DAY;
      if counts.Took() {
        counters := map k | k in counters && counters[k].updatedAt >= cutoff :: counters[k];
      }
      if rows.Took() {
        history := map k | k in history :: Younger(history[k], cutoff);
      }
    }

    /** `_repoint_chat` on the history; a failure is logged and reported as nothing matched. */
    method Repoint(from: Chat, to: Chat, reply: Call) returns (matched: bool)
      modifies this`history
      ensures forall k :: Warnings(Contents(), k) == HistoryMoved(old(Contents()), from, to, reply, k)
      ensures matched <==> reply.Ok? && exists k: Key :: k.chat == from && old(Warnings(Contents(), k)) != []
    {
      ghost var before := Contents();
      matched := reply.Ok? && exists k :: k in history && k.chat == from && history[k] != [];
      assert matched <==> reply.Ok? && exists k: Key :: k.chat == from && Warnings(before, k) != [];
      history := Migrated(Contents(), from, to, 0.0, reply).history;
      forall k ensures Warnings(Contents(), k) == HistoryMoved(before, from, to, reply, k) {
        MigratedAt(before, from, to, 0.0, reply, k);
      }
    }

    /** The atomic take of one counter and the merge of the count read before. */
    method TakeAndMerge(k: Key, to: Chat, now: Moment, count: int) returns (taken: bool)
      modifies this`counters
      ensures taken <==> k in old(counters)
      ensures counters == if taken then TakenOver(old(counters), k, to, now, count) else old(counters)
    {
      if k !in counters { return false; }
      counters := counters - {k};
      var there := Key(k.user, to);
      counters := counters[there := Counter((if there in counters then counters[there].count else 0) + count, now)];
      taken := true;
    }

    /** Each counter of the old chat is taken and merged, then what is left there is deleted. */
    method MergeCounters(from: Chat, to: Chat, now: Moment) returns (matched: bool)
      modifies this`counters
      ensures forall k :: CounterOf(Contents(), k) == CounterMoved(old(Contents()), from, to, now, k)
      ensures matched <==> exists k: Key :: k.chat == from && old(Count(Contents(), k)) > 0
    {
      ghost var before := Contents();
      var snapshot := counters;
      var todo := set k | k in snapshot && k.chat == from;
      matched := false;
      MidwayAtStart(before, from, to, now, todo);
      hide Midway, CounterMidway, TakenOver, CounterMoved, CounterOf, Taken;
      while todo != {}
        invariant snapshot == before.counters
        invariant forall k :: k in todo ==> k.chat == from && k in snapshot
        invariant Midway(before, counters, from, to, now, todo)
        invariant matched <==> exists k: Key :: Taken(before, from, todo, k)
        decreases todo
      {
        var k: Key :| k in todo;
        var count := snapshot[k].count;
        assert count == Count(before, k);
        MidwayStep(before, counters, from, to, now, todo, k);
        TakenStep(before, from, todo, k);
        if count > 0 {
          var taken := TakeAndMerge(k, to, now, count);
          matched := matched || taken;
        }
        todo := todo - {k};
      }
      MidwayAtEnd(before, counters, from, to, now);
      counters := map k | k in counters && k.chat != from :: counters[k];
      assert Contents() == before.(counters := counters);
    }

    /** `migrate_records` when the calls on the counters go well. */
    method MigrateRecords(from: Chat, to: Chat, now: Moment, repoint: Call) returns (matched: bool)
      modifies this
      ensures forall k :: Warnings(Contents(), k) == HistoryMoved(old(Contents()), from, to, repoint, k)
      ensures forall k :: CounterOf(Contents(), k) == CounterMoved(old(Contents()), from, to, now, k)
      ensures matched <==> exists k: Key ::
                k.chat == from && ((repoint.Ok? && old(Warnings(Contents(), k)) != []) || old(Count(Contents(), k)) > 0)
    {
      var repointed := Repoint(from, to, repoint);
      hide Warnings, CounterOf, HistoryMoved, CounterMoved;
      var merged := MergeCounters(from, to, now);
      matched := repointed || merged;
    }
  }

  /* ----- The loop of migrate_records ----- */

  /** Where a counter is while the counters of `todo` are still to be taken. */
  function CounterMidway(db: Db, from: Chat, to: Chat, now: Moment, todo: set<Key>, k: Key): Option<Counter> {
    var source := Key(k.user, from);
    if k.chat == to && source !in todo && Count(db, source) > 0 then
      Some(Counter((if from == to then 0 else Count(db, k)) + Count(db, source), now))
    else if k.chat == from && k !in todo && Count(db, k) > 0 then None
    else CounterOf(db, k)
  }

  ghost predicate Midway(db: Db, counters: map<Key, Counter>, from: Chat, to: Chat, now: Moment, todo: set<Key>) {
    forall k :: CounterOf(db.(counters := counters), k) == CounterMidway(db, from, to, now, todo, k)
  }

  function TakenOver(counters: map<Key, Counter>, k: Key, to: Chat, now: Moment, count: int): map<Key, Counter> {
    var rest, there := counters - {k}, Key(k.user, to);
    rest[there := Counter((if there in rest then rest[there].count else 0) + count, now)]
  }

  lemma MidwayStep(db: Db, counters: map<Key, Counter>, from: Chat, to: Chat, now: Moment, todo: set<Key>, k: Key)
    requires Midway(db, counters, from, to, now, todo) && k in todo && k.chat == from && k in db.counters
    ensures k in counters
    ensures Midway(db, if Count(db, k) > 0 then TakenOver(counters, k, to, now, Count(db, k)) else counters,
                   from, to, now, todo - {k})
  {
    assert CounterOf(db.(counters := counters), k) == CounterOf(db, k);
    var counters' := if Count(db, k) > 0 then TakenOver(counters, k, to, now, Count(db, k)) else counters;
    forall j
      ensures CounterOf(db.(counters := counters'), j) == CounterMidway(db, from, to, now, todo - {k}, j)
    {
      assert CounterOf(db.(counters := counters), j) == CounterMidway(db, from, to, now, todo, j);
    }
  }

  lemma MidwayAtStart(db: Db, from: Chat, to: Chat, now: Moment, todo: set<Key>)
    requires todo == set k | k in db.counters && k.chat == from
    ensures Midway(db, db.counters, from, to, now, todo)
    ensures forall k :: !Taken(db, from, todo, k)
  {
  }

  lemma MidwayAtEnd(db: Db, counters: map<Key, Counter>, from: Chat, to: Chat, now: Moment)
    requires Midway(db, counters, from, to, now, {})
    ensures var left := map k | k in counters && k.chat != from :: counters[k];
            forall k :: CounterOf(db.(counters := left), k) == CounterMoved(db, from, to, now, k)
    ensures (exists k: Key :: Taken(db, from, {}, k)) <==> exists k: Key :: k.chat == from && Count(db, k) > 0
  {
    forall k
      ensures CounterMoved(db, from, to, now, k)
           == if k.chat == from then None else CounterOf(db.(counters := counters), k)
    {
      assert CounterOf(db.(counters := counters), k) == CounterMidway(db, from, to, now, {}, k);
    }
    forall k: Key
      ensures Taken(db, from, {}, k) <==> k.chat == from && Count(db, k) > 0
    {
    }
  }

  predicate Taken(db: Db, from: Chat, todo: set<Key>, k: Key) {
    k.chat == from && Count(db, k) > 0 && k !in todo
  }

  lemma TakenStep(db: Db, from: Chat, todo: set<Key>, k: Key)
    requires k in todo && k.chat == from
    ensures (exists j: Key :: Taken(db, from, todo - {k}, j))
       <==> Count(db, k) > 0 || exists j: Key :: Taken(db, from, todo, j)
  {
    if Count(db, k) > 0 {
      assert Taken(db, from, todo - {k}, k);
    }
    if j: Key :| Taken(db, from, todo, j) {
      assert Taken(db, from, todo - {k}, j);
    }
    if j: Key :| Taken(db, from, todo - {k}, j) && j != k {
      assert Taken(db, from, todo, j);
    }
  }
}
