// tcbot/modules/syncing: the bounded sweep that reconciles Telegram memberships with the
// active bans and mutes.
module Syncing {
  type Id = int

  datatype Pair = Pair(user: Id, chat: Id)

  datatype Status = Owner | Administrator | Member | Restricted | Left | Banned

  /** Membership of each pair; a pair that is not listed never was a member. */
  type World = map<Pair, Status>

  function StatusOf(w: World, p: Pair): Status {
    if p in w then w[p] else Left
  }

  function Put(w: World, p: Pair, status: Status): World {
    if StatusOf(w, p) == status then w else w[p := status]
  }

  /** How Telegram answers one call: it succeeds, refuses (BadRequest or a benign error), or
      fails. And what becomes of one slot: the open circuit skips it, or it runs. */
  datatype Reply = Done | Refused | Failed

  datatype Fate = CircuitOpen | Runs(probe: Reply, write: Reply)

  type Fates = Pair -> Fate

  datatype Kind = Ban | Unban | Mute

  /** The outcome labels, and an exception that fan_out returns as a value. */
  datatype Outcome = Enforced | Unenforced | Remuted | Error | Ok | Absent | Privileged | Raised

  const SYNC_MAX_CHECKS: nat := 200
  const FAILED_SAMPLE_N: nat := 5

  /* ----- One pair ----- */

  predicate IsPrivileged(status: Status) {
    status.Administrator? || status.Owner?
  }

  /** Outcome of a probe or write that did not succeed. */
  function NotDone(reply: Reply): Outcome {
    if reply.Refused? then Absent else Error
  }

  /** What a sweep of this kind leaves alone, and how it reports that. */
  function Settled(kind: Kind, status: Status): (outcome: Outcome) {
    match kind
    case Ban =>
      if status.Banned? then Ok
      else if status.Left? then Absent
      else if IsPrivileged(status) then Privileged
      else Enforced
    case Unban => if status.Banned? then Unenforced else Ok
    case Mute =>
      if status.Restricted? || status.Banned? then Ok
      else if status.Left? then Absent
      else if IsPrivileged(status) then Privileged
      else Remuted
  }

  predicate IsWrite(outcome: Outcome) {
    outcome.Enforced? || outcome.Unenforced? || outcome.Remuted?
  }

  function Written(kind: Kind): Status {
    match kind
    case Ban => Banned
    case Unban => Left
    case Mute => Restricted
  }

  function OutcomeOf(kind: Kind, status: Status, fate: Fate): Outcome {
    match fate
    case CircuitOpen => Raised
    case Runs(probe, write) =>
      if !probe.Done? then NotDone(probe)
      else if IsWrite(Settled(kind, status)) && !write.Done? then NotDone(write)
      else Settled(kind, status)
  }

  function StatusAfter(kind: Kind, status: Status, fate: Fate): Status {
    if IsWrite(OutcomeOf(kind, status, fate)) then Written(kind) else status
  }

  /* ----- take_pairs ----- */

  function Row(user: Id, chats: seq<Id>): (row: seq<Pair>)
    ensures |row| == |chats|
    ensures forall j :: 0 <= j < |chats| ==> row[j] == Pair(user, chats[j])
  {
    if chats == [] then [] else [Pair(user, chats[0])] + Row(user, chats[1..])
  }

  function Cross(users: seq<Id>, chats: seq<Id>): (pairs: seq<Pair>)
    ensures |pairs| == |users| * |chats|
  {
    if users == [] then []
    else
      OneRowMore(|users|, |chats|);
      Row(users[0], chats) + Cross(users[1..], chats)
  }

  lemma OneRowMore(rows: nat, width: nat)
    ensures (rows - 1) * width + width == rows * width
  {
  }

  function TakePairs(users: seq<Id>, chats: seq<Id>, maxChecks: int): (result: (seq<Pair>, bool)) {
    var limit := if maxChecks < 0 then 0 else maxChecks;
    var all := Cross(users, chats);
    var pairs := if limit < |all| then all[..limit] else all;
    (pairs, |users| * |chats| > |pairs|)
  }

  predicate Distinct<T(==)>(s: seq<T>) {
    forall i, j :: 0 <= i < j < |s| ==> s[i] != s[j]
  }

  /** Row-major order: the chats of the first user, then those of the second, ... */
  lemma {:induction false} CrossIsRowMajor(users: seq<Id>, chats: seq<Id>, i: nat, j: nat)
    requires i < |users| && j < |chats|
    ensures i * |chats| + j < |Cross(users, chats)|
    ensures Cross(users, chats)[i * |chats| + j] == Pair(users[i], chats[j])
  {
    var row, rest := Row(users[0], chats), Cross(users[1..], chats);
    assert Cross(users, chats) == row + rest;
    hide Cross;
    if i > 0 {
      CrossIsRowMajor(users[1..], chats, i - 1, j);
      OneRowMore(i, |chats|);
      assert (row + rest)[i * |chats| + j] == rest[(i - 1) * |chats| + j];
    }
  }

  lemma {:induction false} CrossHolds(users: seq<Id>, chats: seq<Id>, p: Pair)
    ensures p in Cross(users, chats) <==> p.user in users && p.chat in chats
  {
    if users != [] {
      var row, rest := Row(users[0], chats), Cross(users[1..], chats);
      assert Cross(users, chats) == row + rest;
      assert users == [users[0]] + users[1..];
      CrossHolds(users[1..], chats, p);
      hide Cross;
      if p.user == users[0] && p.chat in chats {
        var j :| 0 <= j < |chats| && chats[j] == p.chat;
        assert row[j] == p;
      }
    }
  }

  lemma {:induction false} CrossIsDistinct(users: seq<Id>, chats: seq<Id>)
    requires Distinct(users) && Distinct(chats)
    ensures Distinct(Cross(users, chats))
  {
    if users != [] {
      CrossIsDistinct(users[1..], chats);
      var row, rest := Row(users[0], chats), Cross(users[1..], chats);
      assert Cross(users, chats) == row + rest;
      hide Cross;
      forall i, j | 0 <= i < j < |row + rest|
        ensures (row + rest)[i] != (row + rest)[j]
      {
        if i < |row| <= j {
          assert rest[j - |row|] in rest;
          CrossHolds(users[1..], chats, rest[j - |row|]);
          assert users[0] !in users[1..];
        }
      }
    }
  }

  /** The bounding policy: as many pairs as the budget and the work allow, in row-major order. */
  lemma TakePairsIsBounded(users: seq<Id>, chats: seq<Id>, maxChecks: int)
    ensures var pairs := TakePairs(users, chats, maxChecks).0;
            && pairs <= Cross(users, chats)
            && |pairs| == (if maxChecks <= 0 then 0
                           else if maxChecks < |users| * |chats| then maxChecks
                           else |users| * |chats|)
  {
  }

  /** The flag is set exactly when some pair was left out, and no pair is taken twice. */
  lemma {:induction false} TruncatedExactlyWhenPairsAreLeft(users: seq<Id>, chats: seq<Id>, maxChecks: int)
    requires Distinct(users) && Distinct(chats)
    ensures var (pairs, truncated) := TakePairs(users, chats, maxChecks);
            && Distinct(pairs)
            && (truncated <==> exists p: Pair :: p.user in users && p.chat in chats && p !in pairs)
  {
    CrossIsDistinct(users, chats);
    TakePairsIsBounded(users, chats, maxChecks);
    var all, pairs := Cross(users, chats), TakePairs(users, chats, maxChecks).0;
    if |pairs| < |all| {
      var p := all[|pairs|];
      CrossHolds(users, chats, p);
      assert p in all && p !in pairs;
    } else {
      assert pairs == all;
      forall p: Pair | p.user in users && p.chat in chats
        ensures p in pairs
      {
        CrossHolds(users, chats, p);
      }
    }
  }

  /* ----- Telegram as the source drives it ----- */

  /** The world after the pairs of one fan_out, and their outcomes. The pairs are distinct, so
      the order in which the slots run does not matter (SweepActsPointwise). */
  function Swept(kind: Kind, w: World, pairs: seq<Pair>, fates: Fates): World
    decreases |pairs|
  {
    if pairs == [] then w
    else
      var p := pairs[0];
      Swept(kind, Put(w, p, StatusAfter(kind, StatusOf(w, p), fates(p))), pairs[1..], fates)
  }

  function Outcomes(kind: Kind, w: World, pairs: seq<Pair>, fates: Fates): (outcomes: seq<Outcome>)
    ensures |outcomes| == |pairs|
  {
    seq(|pairs|, i requires 0 <= i < |pairs| => OutcomeOf(kind, StatusOf(w, pairs[i]), fates(pairs[i])))
  }

  lemma {:induction false} SweepActsPointwise(kind: Kind, w: World, pairs: seq<Pair>, fates: Fates, p: Pair)
    requires Distinct(pairs)
    ensures StatusOf(Swept(kind, w, pairs, fates), p)
         == if p in pairs then StatusAfter(kind, StatusOf(w, p), fates(p)) else StatusOf(w, p)
    decreases |pairs|
  {
    if pairs != [] {
      var q := pairs[0];
      assert pairs == [q] + pairs[1..];
      assert q !in pairs[1..];
      hide StatusAfter;
      SweepActsPointwise(kind, Put(w, q, StatusAfter(kind, StatusOf(w, q), fates(q))), pairs[1..], fates, p);
    }
  }

  lemma {:induction false} SweptAppend(kind: Kind, w: World, a: seq<Pair>, p: Pair, fates: Fates)
    ensures var w' := Swept(kind, w, a, fates);
            Swept(kind, w, a + [p], fates) == Put(w', p, StatusAfter(kind, StatusOf(w', p), fates(p)))
    decreases |a|
  {
    if a == [] {
      assert a + [p] == [p] && [p][1..] == [];
    } else {
      assert (a + [p])[1..] == a[1..] + [p];
      hide StatusAfter;
      SweptAppend(kind, Put(w, a[0], StatusAfter(kind, StatusOf(w, a[0]), fates(a[0]))), a[1..], p, fates);
    }
  }

  class Telegram {
    var world: World

    constructor (world: World)
      ensures this.world == world
    {
      this.world := world;
    }

    /** `_sync_ban_pair`. */
    method SyncBanPair(p: Pair, probe: Reply, write: Reply) returns (outcome: Outcome)
      modifies this
      ensures world == Put(old(world), p, StatusAfter(Ban, StatusOf(old(world), p), Runs(probe, write)))
      ensures outcome == OutcomeOf(Ban, StatusOf(old(world), p), Runs(probe, write))
    {
      var status := StatusOf(world, p);
      if !probe.Done? { return if probe.Refused? then Absent else Error; }
      if status == Banned { return Ok; }
      if status == Left { return Absent; }
      if status == Administrator || status == Owner { return Privileged; }
      if !write.Done? { return if write.Refused? then Absent else Error; }
      world := world[p := Banned];
      outcome := Enforced;
    }

    /** `_sync_unban_pair`. */
    method SyncUnbanPair(p: Pair, probe: Reply, write: Reply) returns (outcome: Outcome)
      modifies this
      ensures world == Put(old(world), p, StatusAfter(Unban, StatusOf(old(world), p), Runs(probe, write)))
      ensures outcome == OutcomeOf(Unban, StatusOf(old(world), p), Runs(probe, write))
    {
      var status := StatusOf(world, p);
      if !probe.Done? { return if probe.Refused? then Absent else Error; }
      if status != Banned { return Ok; }
      if !write.Done? { return if write.Refused? then Absent else Error; }
      world := world[p := Left];
      outcome := Unenforced;
    }

    /** `_sync_mute_pair`. */
    method SyncMutePair(p: Pair, probe: Reply, write: Reply) returns (outcome: Outcome)
      modifies this
      ensures world == Put(old(world), p, StatusAfter(Mute, StatusOf(old(world), p), Runs(probe, write)))
      ensures outcome == OutcomeOf(Mute, StatusOf(old(world), p), Runs(probe, write))
    {
      var status := StatusOf(world, p);
      if !probe.Done? { return if probe.Refused? then Absent else Error; }
      if status == Restricted { return Ok; }
      if status == Banned { return Ok; }
      if status == Left { return Absent; }
      if status == Administrator || status == Owner { return Privileged; }
      if !write.Done? { return if write.Refused? then Absent else Error; }
      world := world[p := Restricted];
      outcome := Remuted;
    }

    method SyncPair(kind: Kind, p: Pair, fate: Fate) returns (outcome: Outcome)
      modifies this
      ensures world == Put(old(world), p, StatusAfter(kind, StatusOf(old(world), p), fate))
      ensures outcome == OutcomeOf(kind, StatusOf(old(world), p), fate)
    {
      if fate.CircuitOpen? { return Raised; }
      match kind
      case Ban => outcome := SyncBanPair(p, fate.probe, fate.write);
      case Unban => outcome := SyncUnbanPair(p, fate.probe, fate.write);
      case Mute => outcome := SyncMutePair(p, fate.probe, fate.write);
    }

    /** The fan_out over the pairs of one list. */
    method FanOut(kind: Kind, pairs: seq<Pair>, fates: Fates) returns (outcomes: seq<Outcome>)
      requires Distinct(pairs)
      modifies this
      ensures world == Swept(kind, old(world), pairs, fates)
      ensures outcomes == Outcomes(kind, old(world), pairs, fates)
    {
      outcomes := [];
      for i := 0 to |pairs|
        invariant world == Swept(kind, old(world), pairs[..i], fates)
        invariant outcomes == Outcomes(kind, old(world), pairs, fates)[..i]
      {
        hide StatusAfter, OutcomeOf;
        SweepActsPointwise(kind, old(world), pairs[..i], fates, pairs[i]);
        SweptAppend(kind, old(world), pairs[..i], pairs[i], fates);
        assert pairs[..i + 1] == pairs[..i] + [pairs[i]];
        var outcome := SyncPair(kind, pairs[i], fates(pairs[i]));
        outcomes := outcomes + [outcome];
      }
      assert pairs[..|pairs|] == pairs;
    }
  }

  /* ----- _summarize ----- */

  datatype SyncCounts = SyncCounts(
    checked: nat, enforcedBans: nat, enforcedUnbans: nat, enforcedMutes: nat, skipped: nat, failed: nat,
    truncated: bool, failedTitles: seq<string>)

  const NOTHING_CHECKED := SyncCounts(0, 0, 0, 0, 0, 0, false, [])

  predicate IsFailure(outcome: Outcome) {
    outcome.Error? || outcome.Raised?
  }

  function FailedTitles(pairs: seq<Pair>, outcomes: seq<Outcome>, title: Id -> string): seq<string>
    requires |pairs| == |outcomes|
  {
    if pairs == [] then []
    else
      var n := |pairs| - 1;
      FailedTitles(pairs[..n], outcomes[..n], title) + if IsFailure(outcomes[n]) then [title(pairs[n].chat)] else []
  }

  function Sample(titles: seq<string>): seq<string> {
    if |titles| <= FAILED_SAMPLE_N then titles else titles[..FAILED_SAMPLE_N]
  }

  datatype Tally = Tally(enforced: nat, unenforced: nat, remuted: nat, error: nat, skip: nat)

  /** How often each outcome occurs. */
  function TallyOf(outcomes: seq<Outcome>): Tally {
    var m := multiset(outcomes);
    Tally(m[Enforced], m[Unenforced], m[Remuted], m[Error] + m[Raised], m[Ok] + m[Absent] + m[Privileged])
  }

  /** How many pairs have an outcome: the loop stops at the shorter list. */
  function Zipped(pairs: seq<Pair>, outcomes: seq<Outcome>): nat {
    if |pairs| < |outcomes| then |pairs| else |outcomes|
  }

  function Summary(pairs: seq<Pair>, outcomes: seq<Outcome>, title: Id -> string, truncated: bool): SyncCounts {
    var n := Zipped(pairs, outcomes);
    var tally := TallyOf(outcomes[..n]);
    SyncCounts(|pairs|, tally.enforced, tally.unenforced, tally.remuted, tally.skip, tally.error,
               truncated, Sample(FailedTitles(pairs[..n], outcomes[..n], title)))
  }

  method Summarize(pairs: seq<Pair>, outcomes: seq<Outcome>, title: Id -> string, truncated: bool)
      returns (counts: SyncCounts)
    ensures counts == Summary(pairs, outcomes, title, truncated)
  {
    var tally, failedTitles := Tally(0, 0, 0, 0, 0), [];
    for i := 0 to Zipped(pairs, outcomes)
      invariant tally == TallyOf(outcomes[..i])
      invariant failedTitles == Sample(FailedTitles(pairs[..i], outcomes[..i], title))
    {
      SummaryStep(pairs, outcomes, title, i);
      hide FailedTitles, TallyOf;
      tally := match outcomes[i]
        case Enforced => tally.(enforced := tally.enforced + 1)
        case Unenforced => tally.(unenforced := tally.unenforced + 1)
        case Remuted => tally.(remuted := tally.remuted + 1)
        case Error => tally.(error := tally.error + 1)
        case Raised => tally.(error := tally.error + 1)
        case _ => tally.(skip := tally.skip + 1);
      if IsFailure(outcomes[i]) && |failedTitles| < FAILED_SAMPLE_N {
        failedTitles := failedTitles + [title(pairs[i].chat)];
      }
    }
    counts := SyncCounts(|pairs|, tally.enforced, tally.unenforced, tally.remuted, tally.skip, tally.error,
                         truncated, failedTitles);
  }

  function Counted(tally: Tally, outcome: Outcome): Tally {
    Tally(
      tally.enforced + if outcome.Enforced? then 1 else 0,
      tally.unenforced + if outcome.Unenforced? then 1 else 0,
      tally.remuted + if outcome.Remuted? then 1 else 0,
      tally.error + if IsFailure(outcome) then 1 else 0,
      tally.skip + if IsFailure(outcome) || IsWrite(outcome) then 0 else 1)
  }

  lemma TallyStep(outcomes: seq<Outcome>, i: nat)
    requires i < |outcomes|
    ensures TallyOf(outcomes[..i + 1]) == Counted(TallyOf(outcomes[..i]), outcomes[i])
  {
    assert outcomes[..i + 1] == outcomes[..i] + [outcomes[i]];
  }

  lemma SummaryStep(pairs: seq<Pair>, outcomes: seq<Outcome>, title: Id -> string, i: nat)
    requires i < Zipped(pairs, outcomes)
    ensures TallyOf(outcomes[..i + 1]) == Counted(TallyOf(outcomes[..i]), outcomes[i])
    ensures FailedTitles(pairs[..i + 1], outcomes[..i + 1], title)
         == FailedTitles(pairs[..i], outcomes[..i], title)
            + if IsFailure(outcomes[i]) then [title(pairs[i].chat)] else []
  {
    TallyStep(outcomes, i);
    hide TallyOf;
    assert pairs[..i + 1][..i] == pairs[..i] && outcomes[..i + 1][..i] == outcomes[..i];
  }

  lemma {:induction false} TallyPartitions(outcomes: seq<Outcome>)
    ensures var t := TallyOf(outcomes);
            t.enforced + t.unenforced + t.remuted + t.error + t.skip == |outcomes|
  {
    if outcomes != [] {
      var n := |outcomes| - 1;
      TallyStep(outcomes, n);
      assert outcomes[..n + 1] == outcomes;
      hide TallyOf;
      TallyPartitions(outcomes[..n]);
    }
  }

  lemma {:induction false} FailedTitlesBound(pairs: seq<Pair>, outcomes: seq<Outcome>, title: Id -> string)
    requires |pairs| == |outcomes|
    ensures |FailedTitles(pairs, outcomes, title)| == TallyOf(outcomes).error
  {
    if pairs != [] {
      var n := |pairs| - 1;
      SummaryStep(pairs, outcomes, title, n);
      assert pairs[..n + 1] == pairs && outcomes[..n + 1] == outcomes;
      FailedTitlesBound(pairs[..n], outcomes[..n], title);
      hide TallyOf, FailedTitles;
      assert |FailedTitles(pairs[..n], outcomes[..n], title)| == TallyOf(outcomes[..n]).error;
    } else {
      assert multiset(outcomes) == multiset{};
    }
  }

  lemma {:induction false} FailedTitleAt(pairs: seq<Pair>, outcomes: seq<Outcome>, title: Id -> string, i: nat)
    requires |pairs| == |outcomes| && i < |pairs| && IsFailure(outcomes[i])
    ensures var k, titles := TallyOf(outcomes[..i]).error, FailedTitles(pairs, outcomes, title);
            k < |titles| && titles[k] == title(pairs[i].chat)
    decreases |pairs|
  {
    var n := |pairs| - 1;
    SummaryStep(pairs, outcomes, title, n);
    assert pairs[..n + 1] == pairs && outcomes[..n + 1] == outcomes;
    hide TallyOf, FailedTitles;
    if i == n {
      FailedTitlesBound(pairs[..n], outcomes[..n], title);
    } else {
      FailedTitleAt(pairs[..n], outcomes[..n], title, i);
      assert outcomes[..n][..i] == outcomes[..i];
    }
  }

  /** The sample names the chats of the first failed pairs, in their order. */
  lemma SampleNamesTheFirstFailures(
      pairs: seq<Pair>, outcomes: seq<Outcome>, title: Id -> string, truncated: bool, i: nat)
    requires i < Zipped(pairs, outcomes) && IsFailure(outcomes[i])
    ensures var titles, k := Summary(pairs, outcomes, title, truncated).failedTitles, TallyOf(outcomes[..i]).error;
            k < FAILED_SAMPLE_N ==> k < |titles| && titles[k] == title(pairs[i].chat)
  {
    var n := Zipped(pairs, outcomes);
    FailedTitleAt(pairs[..n], outcomes[..n], title, i);
    assert outcomes[..n][..i] == outcomes[..i];
    hide TallyOf, FailedTitles;
  }

  /** The counters add up to `checked` exactly when no pair lacks its outcome, and the sample
      names a failure for each failed pair up to its cap. */
  lemma CountsAddUp(pairs: seq<Pair>, outcomes: seq<Outcome>, title: Id -> string, truncated: bool)
    ensures var c := Summary(pairs, outcomes, title, truncated);
            && c.checked == |pairs|
            && (c.enforcedBans + c.enforcedUnbans + c.enforcedMutes + c.skipped + c.failed == c.checked
                <==> |outcomes| >= |pairs|)
            && |c.failedTitles| == (if c.failed < FAILED_SAMPLE_N then c.failed else FAILED_SAMPLE_N)
  {
    var n := Zipped(pairs, outcomes);
    TallyPartitions(outcomes[..n]);
    FailedTitlesBound(pairs[..n], outcomes[..n], title);
  }

  /* ----- What the counters say about the world ----- */

  /** How many of the pairs, counted with multiplicity, have a property. */
  function CountIf(pairs: seq<Pair>, holds: Pair -> bool): nat {
    if pairs == [] then 0
    else CountIf(pairs[..|pairs| - 1], holds) + if holds(pairs[|pairs| - 1]) then 1 else 0
  }

  /** An outcome occurs as often as the property that leads to it. */
  lemma {:induction false} OutcomeCount(pairs: seq<Pair>, outcomes: seq<Outcome>, f: Pair -> bool, o: Outcome)
    requires |pairs| == |outcomes|
    requires forall i :: 0 <= i < |pairs| ==> (outcomes[i] == o <==> f(pairs[i]))
    ensures multiset(outcomes)[o] == CountIf(pairs, f)
  {
    if pairs != [] {
      var n := |pairs| - 1;
      assert outcomes == outcomes[..n] + [outcomes[n]];
      OutcomeCount(pairs[..n], outcomes[..n], f, o);
    }
  }

  lemma {:induction false} FailureCount(pairs: seq<Pair>, outcomes: seq<Outcome>, f: Pair -> bool)
    requires |pairs| == |outcomes|
    requires forall i :: 0 <= i < |pairs| ==> (IsFailure(outcomes[i]) <==> f(pairs[i]))
    ensures TallyOf(outcomes).error == CountIf(pairs, f)
  {
    if pairs != [] {
      var n := |pairs| - 1;
      TallyStep(outcomes, n);
      assert outcomes[..n + 1] == outcomes;
      FailureCount(pairs[..n], outcomes[..n], f);
    }
  }

  /** Whether a membership of this status calls for the write of this sweep. */
  predicate CallsForWrite(kind: Kind, status: Status) {
    match kind
    case Ban => status.Member? || status.Restricted?
    case Unban => status.Banned?
    case Mute => status.Member?
  }

  /** The slot failed: skipped by the open circuit, or its probe or the write it needed failed. */
  predicate Fails(kind: Kind, status: Status, fate: Fate) {
    || fate.CircuitOpen? || fate.probe.Failed?
    || (fate.probe.Done? && fate.write.Failed? && CallsForWrite(kind, status))
  }

  predicate Changes(kind: Kind, status: Status, fate: Fate) {
    StatusAfter(kind, status, fate) != status
  }

  /** The write label that a sweep of this kind uses. */
  function LabelOf(kind: Kind): Outcome {
    match kind
    case Ban => Enforced
    case Unban => Unenforced
    case Mute => Remuted
  }

  lemma OutcomeTells(kind: Kind, status: Status, fate: Fate)
    ensures var outcome := OutcomeOf(kind, status, fate);
            && (outcome == LabelOf(kind) <==> Changes(kind, status, fate))
            && (IsFailure(outcome) <==> Fails(kind, status, fate))
            && (IsWrite(outcome) ==> outcome == LabelOf(kind))
  {
  }

  /** `changed` and `failed` say what the sweep does to each of its pairs. */
  ghost predicate Tells(
      kind: Kind, w: World, pairs: seq<Pair>, fates: Fates, changed: Pair -> bool, failed: Pair -> bool)
  {
    forall p :: p in pairs ==>
      && changed(p) == Changes(kind, StatusOf(w, p), fates(p))
      && failed(p) == Fails(kind, StatusOf(w, p), fates(p))
  }

  /** Of one fan_out: its own write label counts the memberships that changed, no other write
      label occurs, and the failures are the slots that failed. */
  lemma SweepIsCounted(
      kind: Kind, w: World, pairs: seq<Pair>, fates: Fates, changed: Pair -> bool, failed: Pair -> bool)
    requires Tells(kind, w, pairs, fates, changed, failed)
    ensures var outcomes := Outcomes(kind, w, pairs, fates);
            && multiset(outcomes)[LabelOf(kind)] == CountIf(pairs, changed)
            && (forall o :: IsWrite(o) && o != LabelOf(kind) ==> o !in outcomes)
            && TallyOf(outcomes).error == CountIf(pairs, failed)
  {
    hide OutcomeOf, Changes, Fails, IsWrite, IsFailure, LabelOf, CountIf, TallyOf;
    var outcomes := Outcomes(kind, w, pairs, fates);
    forall i | 0 <= i < |pairs|
      ensures outcomes[i] == LabelOf(kind) <==> changed(pairs[i])
      ensures IsFailure(outcomes[i]) <==> failed(pairs[i])
      ensures IsWrite(outcomes[i]) ==> outcomes[i] == LabelOf(kind)
    {
      assert pairs[i] in pairs;
      OutcomeTells(kind, StatusOf(w, pairs[i]), fates(pairs[i]));
    }
    OutcomeCount(pairs, outcomes, changed, LabelOf(kind));
    FailureCount(pairs, outcomes, failed);
  }

  /** The sum of two tallies, field by field. */
  lemma TallyAppend(a: seq<Outcome>, b: seq<Outcome>)
    ensures var s, t, u := TallyOf(a + b), TallyOf(a), TallyOf(b);
            && s.enforced == t.enforced + u.enforced && s.unenforced == t.unenforced + u.unenforced
            && s.remuted == t.remuted + u.remuted && s.error == t.error + u.error
  {
    assert multiset(a + b) == multiset(a) + multiset(b);
  }

  lemma LabelTally(kind: Kind, outcomes: seq<Outcome>)
    requires forall o :: IsWrite(o) && o != LabelOf(kind) ==> o !in outcomes
    ensures var t, n := TallyOf(outcomes), multiset(outcomes)[LabelOf(kind)];
            && t.enforced == (if kind.Ban? then n else 0)
            && t.unenforced == (if kind.Unban? then n else 0)
            && t.remuted == (if kind.Mute? then n else 0)
  {
    assert kind.Ban? || Enforced !in outcomes;
    assert kind.Unban? || Unenforced !in outcomes;
    assert kind.Mute? || Remuted !in outcomes;
  }

  /** The counters of a sweep that is followed by one of mutes. */
  lemma SummaryTells(
      kind: Kind, w: World, pairs: seq<Pair>, fates: Fates, changed: Pair -> bool, failed: Pair -> bool,
      mid: World, remutes: seq<Pair>, mutes: Fates, muted: Pair -> bool, unmuted: Pair -> bool,
      title: Id -> string, truncated: bool)
    requires !kind.Mute?
    requires Tells(kind, w, pairs, fates, changed, failed) && Tells(Mute, mid, remutes, mutes, muted, unmuted)
    ensures var outcomes := Outcomes(kind, w, pairs, fates) + Outcomes(Mute, mid, remutes, mutes);
            var c := Summary(pairs + remutes, outcomes, title, truncated);
            && c.enforcedBans == (if kind.Ban? then CountIf(pairs, changed) else 0)
            && c.enforcedUnbans == (if kind.Ban? then 0 else CountIf(pairs, changed))
            && c.enforcedMutes == CountIf(remutes, muted)
            && c.failed == CountIf(pairs, failed) + CountIf(remutes, unmuted)
  {
    hide Tells, TallyOf, FailedTitles, CountIf, IsWrite, LabelOf;
    var a, b := Outcomes(kind, w, pairs, fates), Outcomes(Mute, mid, remutes, mutes);
    SweepIsCounted(kind, w, pairs, fates, changed, failed);
    SweepIsCounted(Mute, mid, remutes, mutes, muted, unmuted);
    LabelTally(kind, a);
    LabelTally(Mute, b);
    TallyAppend(a, b);
    assert (a + b)[..|a + b|] == a + b;
  }
}
