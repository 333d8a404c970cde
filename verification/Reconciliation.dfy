// tcbot/modules/syncing/__init__.py: the sweep over all active bans and mutes, and the check
// of one user in both directions.
module Reconciliation {
  import opened Syncing

  /** The active bans and mutes, the connected groups and the budget. */
  datatype Job = Job(bans: seq<Id>, mutes: seq<Id>, chats: seq<Id>, maxChecks: int) {
    predicate Valid() {
      Distinct(bans) && Distinct(mutes) && Distinct(chats)
    }

    function BanPairs(): seq<Pair> {
      TakePairs(bans, chats, maxChecks).0
    }

    /** Bans take budget first. */
    function MutePairs(): seq<Pair> {
      TakePairs(mutes, chats, Rest(maxChecks, |BanPairs()|)).0
    }

    function Truncated(): bool {
      TakePairs(bans, chats, maxChecks).1 || TakePairs(mutes, chats, Rest(maxChecks, |BanPairs()|)).1
    }
  }

  function Rest(maxChecks: int, taken: nat): nat {
    if maxChecks > taken then maxChecks - taken else 0
  }

  function WorldAfter(job: Job, w: World, bans: Fates, mutes: Fates): World {
    Swept(Mute, Swept(Ban, w, job.BanPairs(), bans), job.MutePairs(), mutes)
  }

  function AllOutcomes(job: Job, w: World, bans: Fates, mutes: Fates): seq<Outcome> {
    Outcomes(Ban, w, job.BanPairs(), bans)
    + Outcomes(Mute, Swept(Ban, w, job.BanPairs(), bans), job.MutePairs(), mutes)
  }

  function Counts(job: Job, w: World, bans: Fates, mutes: Fates, title: Id -> string): SyncCounts {
    if job.BanPairs() + job.MutePairs() == [] then NOTHING_CHECKED
    else Summary(job.BanPairs() + job.MutePairs(), AllOutcomes(job, w, bans, mutes), title, job.Truncated())
  }

  /** `run_ban_sync`. */
  method RunBanSync(telegram: Telegram, job: Job, bans: Fates, mutes: Fates, title: Id -> string)
      returns (counts: SyncCounts)
    requires job.Valid()
    modifies telegram
    ensures telegram.world == WorldAfter(job, old(telegram.world), bans, mutes)
    ensures counts == Counts(job, old(telegram.world), bans, mutes, title)
  {
    hide Swept, Outcomes, Summary;
    TakenAreDistinct(job);
    var (pairs, truncated) := TakePairs(job.bans, job.chats, job.maxChecks);
    var outcomes := [];
    if pairs != [] {
      outcomes := telegram.FanOut(Ban, pairs, bans);
    } else {
      NothingSwept(Ban, telegram.world, bans);
    }
    var muteTruncated := false;
    NothingSwept(Mute, telegram.world, mutes);
    if job.mutes != [] {
      var (mutePairs, cut) := TakePairs(job.mutes, job.chats, Rest(job.maxChecks, |pairs|));
      muteTruncated := cut;
      if mutePairs != [] {
        var muteOutcomes := telegram.FanOut(Mute, mutePairs, mutes);
        pairs, outcomes := pairs + mutePairs, outcomes + muteOutcomes;
      }
    }
    assert pairs == job.BanPairs() + job.MutePairs();
    assert outcomes == AllOutcomes(job, old(telegram.world), bans, mutes);
    if pairs == [] {
      return NOTHING_CHECKED;
    }
    counts := Summarize(pairs, outcomes, title, truncated || muteTruncated);
  }

  lemma NothingSwept(kind: Kind, w: World, fates: Fates)
    ensures Swept(kind, w, [], fates) == w && Outcomes(kind, w, [], fates) == []
  {
  }

  lemma TakenAreDistinct(job: Job)
    requires job.Valid()
    ensures Distinct(job.BanPairs()) && Distinct(job.MutePairs())
  {
    TruncatedExactlyWhenPairsAreLeft(job.bans, job.chats, job.maxChecks);
    TruncatedExactlyWhenPairsAreLeft(job.mutes, job.chats, Rest(job.maxChecks, |job.BanPairs()|));
  }

  /* ----- What a sweep is for ----- */

  /** Banned, gone, or beyond the bot's power. */
  predicate BanHolds(status: Status) {
    status.Banned? || status.Left? || IsPrivileged(status)
  }

  /** Muted or stronger. */
  predicate MuteHolds(status: Status) {
    status.Restricted? || BanHolds(status)
  }

  predicate Succeeds(fate: Fate) {
    fate == Runs(Done, Done)
  }

  /** Nothing lifted: the status stays, or becomes a restriction or a ban. */
  predicate NoWeaker(before: Status, after: Status) {
    || after == before
    || (after.Banned? && (before.Member? || before.Restricted?))
    || (after.Restricted? && before.Member?)
  }

  predicate InBans(job: Job, p: Pair) {
    p.user in job.bans && p.chat in job.chats
  }

  predicate InMutes(job: Job, p: Pair) {
    p.user in job.mutes && p.chat in job.chats
  }

  /** What the sweep does to one pair. */
  lemma SweptPair(job: Job, w: World, bans: Fates, mutes: Fates, p: Pair)
    requires job.Valid()
    ensures var mid := if p in job.BanPairs() then StatusAfter(Ban, StatusOf(w, p), bans(p)) else StatusOf(w, p);
            && StatusOf(Swept(Ban, w, job.BanPairs(), bans), p) == mid
            && StatusOf(WorldAfter(job, w, bans, mutes), p)
               == if p in job.MutePairs() then StatusAfter(Mute, mid, mutes(p)) else mid
  {
    hide StatusAfter;
    TakenAreDistinct(job);
    SweepActsPointwise(Ban, w, job.BanPairs(), bans, p);
    SweepActsPointwise(Mute, Swept(Ban, w, job.BanPairs(), bans), job.MutePairs(), mutes, p);
  }

  /** Whose pairs are covered when the flag is not set. */
  lemma UntruncatedCovers(job: Job, p: Pair)
    requires job.Valid() && !job.Truncated()
    ensures InBans(job, p) ==> p in job.BanPairs()
    ensures InMutes(job, p) ==> p in job.MutePairs()
  {
    TruncatedExactlyWhenPairsAreLeft(job.bans, job.chats, job.maxChecks);
    TruncatedExactlyWhenPairsAreLeft(job.mutes, job.chats, Rest(job.maxChecks, |job.BanPairs()|));
  }

  /** `truncated` tells the truth, work left out, exactly when the budget is positive or there
      is no work at all: with a budget of zero or less the early return reports a complete
      sweep. */
  lemma FlagIsTrueExactlyWhen(job: Job, w: World, bans: Fates, mutes: Fates, title: Id -> string)
    requires job.Valid()
    ensures var flag := Counts(job, w, bans, mutes, title).truncated;
            var leftOut := exists p: Pair ::
              (InBans(job, p) && p !in job.BanPairs()) || (InMutes(job, p) && p !in job.MutePairs());
            (flag <==> leftOut) <==> (job.maxChecks > 0 || job.chats == [] || (job.bans == [] && job.mutes == []))
  {
    LeftOutIsTruncated(job);
    var pairs := job.BanPairs() + job.MutePairs();
    TakePairsIsBounded(job.bans, job.chats, job.maxChecks);
    TakePairsIsBounded(job.mutes, job.chats, Rest(job.maxChecks, |job.BanPairs()|));
    NoWork(job.bans, job.chats);
    NoWork(job.mutes, job.chats);
    assert pairs == [] <==> |job.BanPairs()| == 0 && |job.MutePairs()| == 0;
  }

  /** One ban, one group, no budget: nothing is checked and nothing said to be left out. */
  lemma ZeroBudgetExample(w: World, fates: Fates, title: Id -> string)
    ensures var job := Job([1], [], [5], 0);
            && !Counts(job, w, fates, fates, title).truncated
            && InBans(job, Pair(1, 5)) && Pair(1, 5) !in job.BanPairs()
  {
    var job := Job([1], [], [5], 0);
    TakePairsIsBounded(job.bans, job.chats, 0);
    TakePairsIsBounded(job.mutes, job.chats, Rest(0, |job.BanPairs()|));
  }

  lemma LeftOutIsTruncated(job: Job)
    requires job.Valid()
    ensures job.Truncated() <==>
              exists p: Pair :: (InBans(job, p) && p !in job.BanPairs()) || (InMutes(job, p) && p !in job.MutePairs())
  {
    TruncatedExactlyWhenPairsAreLeft(job.bans, job.chats, job.maxChecks);
    TruncatedExactlyWhenPairsAreLeft(job.mutes, job.chats, Rest(job.maxChecks, |job.BanPairs()|));
    hide TakePairs;
    if TakePairs(job.bans, job.chats, job.maxChecks).1 {
      var p: Pair :| p.user in job.bans && p.chat in job.chats && p !in job.BanPairs();
      assert InBans(job, p);
    } else if TakePairs(job.mutes, job.chats, Rest(job.maxChecks, |job.BanPairs()|)).1 {
      var p: Pair :| p.user in job.mutes && p.chat in job.chats && p !in job.MutePairs();
      assert InMutes(job, p);
    }
  }

  lemma NoWork(users: seq<Id>, chats: seq<Id>)
    ensures |users| * |chats| == 0 <==> users == [] || chats == []
  {
  }

  lemma FlagClearMeansComplete(job: Job, w: World, bans: Fates, mutes: Fates, title: Id -> string)
    requires job.Valid() && job.maxChecks > 0 && !Counts(job, w, bans, mutes, title).truncated
    ensures !job.Truncated()
  {
    FlagIsTrueExactlyWhen(job, w, bans, mutes, title);
    LeftOutIsTruncated(job);
  }

  /** Convergence: after a sweep that does not report truncation, on a positive budget, every
      pair whose calls succeed is where it should be. */
  lemma {:induction false} SweepConverges(job: Job, w: World, bans: Fates, mutes: Fates, title: Id -> string, p: Pair)
    requires job.Valid() && job.maxChecks > 0 && !Counts(job, w, bans, mutes, title).truncated
    ensures var after := StatusOf(WorldAfter(job, w, bans, mutes), p);
            && (InBans(job, p) && Succeeds(bans(p)) ==> BanHolds(after))
            && (InMutes(job, p) && Succeeds(mutes(p)) ==> MuteHolds(after))
  {
    hide *;
    FlagClearMeansComplete(job, w, bans, mutes, title);
    UntruncatedCovers(job, p);
    SweptPair(job, w, bans, mutes, p);
    var mid := if p in job.BanPairs() then StatusAfter(Ban, StatusOf(w, p), bans(p)) else StatusOf(w, p);
    SuccessSettles(StatusOf(w, p), bans(p));
    SuccessSettles(mid, mutes(p));
  }

  lemma SuccessSettles(status: Status, fate: Fate)
    ensures Succeeds(fate) ==> BanHolds(StatusAfter(Ban, status, fate)) && MuteHolds(StatusAfter(Mute, status, fate))
    ensures BanHolds(status) ==> StatusAfter(Mute, status, fate) == status
  {
  }

  lemma PrefixHolds(part: seq<Pair>, whole: seq<Pair>, p: Pair)
    requires part <= whole
    ensures p in part ==> p in whole
  {
  }

  lemma TakenPairIsWork(job: Job, p: Pair)
    ensures p in job.BanPairs() ==> InBans(job, p)
    ensures p in job.MutePairs() ==> InMutes(job, p)
  {
    TakePairsIsBounded(job.bans, job.chats, job.maxChecks);
    TakePairsIsBounded(job.mutes, job.chats, Rest(job.maxChecks, |job.BanPairs()|));
    CrossHolds(job.bans, job.chats, p);
    CrossHolds(job.mutes, job.chats, p);
    PrefixHolds(job.BanPairs(), Cross(job.bans, job.chats), p);
    PrefixHolds(job.MutePairs(), Cross(job.mutes, job.chats), p);
  }

  /** A sweep only ever bans or restricts, and only whom the records name and by calls that
      succeed; owners, administrators and absent users stay as they are. */
  lemma NothingIsLifted(job: Job, w: World, bans: Fates, mutes: Fates, p: Pair)
    requires job.Valid()
    ensures var before, after := StatusOf(w, p), StatusOf(WorldAfter(job, w, bans, mutes), p);
            && NoWeaker(before, after)
            && (after != before ==>
                  || (after.Banned? && InBans(job, p) && Succeeds(bans(p)))
                  || (after.Restricted? && InMutes(job, p) && Succeeds(mutes(p))))
  {
    SweptPair(job, w, bans, mutes, p);
    TakenPairIsWork(job, p);
  }

  /** The whole budget is used as far as there is work, bans come first, and every checked pair is
      counted exactly once. */
  lemma {:induction false} BudgetIsKept(job: Job, w: World, bans: Fates, mutes: Fates, title: Id -> string)
    ensures var c := Counts(job, w, bans, mutes, title);
            && c.enforcedBans + c.enforcedMutes + c.enforcedUnbans + c.skipped + c.failed == c.checked
            && c.checked == |job.BanPairs()| + |job.MutePairs()|
            && c.checked == (if job.maxChecks <= 0 then 0
                             else if job.maxChecks < (|job.bans| + |job.mutes|) * |job.chats| then job.maxChecks
                             else (|job.bans| + |job.mutes|) * |job.chats|)
            && (job.MutePairs() != [] ==> |job.BanPairs()| == |job.bans| * |job.chats|)
  {
    TakePairsIsBounded(job.bans, job.chats, job.maxChecks);
    TakePairsIsBounded(job.mutes, job.chats, Rest(job.maxChecks, |job.BanPairs()|));
    assert (|job.bans| + |job.mutes|) * |job.chats| == |job.bans| * |job.chats| + |job.mutes| * |job.chats|;
    CountsAddUp(job.BanPairs() + job.MutePairs(), AllOutcomes(job, w, bans, mutes), title, job.Truncated());
  }

  function BecomesBanned(w: World, w': World): Pair -> bool {
    p => !StatusOf(w, p).Banned? && StatusOf(w', p).Banned?
  }

  function BecomesRestricted(w: World, w': World): Pair -> bool {
    p => !StatusOf(w, p).Restricted? && StatusOf(w', p).Restricted?
  }

  function Failing(kind: Kind, w: World, fates: Fates): Pair -> bool {
    p => Fails(kind, StatusOf(w, p), fates(p))
  }

  /** What one pair goes through: the first sweep if it took the pair, then the one of mutes. The
      memberships before and after show what either did. */
  lemma StatusTells(
      kind: Kind, before: Status, mid: Status, after: Status, fate: Fate, mute: Fate, taken: bool, remuted: bool)
    requires !kind.Mute?
    requires mid == if taken then StatusAfter(kind, before, fate) else before
    requires after == if remuted then StatusAfter(Mute, mid, mute) else mid
    ensures taken && kind.Ban? ==> (Changes(kind, before, fate) <==> !before.Banned? && after.Banned?)
    ensures taken && kind.Unban? ==> (Changes(kind, before, fate) <==> before.Banned? && !after.Banned?)
    ensures remuted ==> (Changes(Mute, mid, mute) <==> !before.Restricted? && after.Restricted?)
    ensures remuted ==> (Fails(Mute, mid, mute) <==> Fails(Mute, after, mute))
  {
  }

  /** `w'` is `w` with one sweep applied pair by pair. */
  ghost predicate SweptTo(kind: Kind, w: World, pairs: seq<Pair>, fates: Fates, w': World) {
    forall p :: StatusOf(w', p) == if p in pairs then StatusAfter(kind, StatusOf(w, p), fates(p)) else StatusOf(w, p)
  }

  lemma SweepReaches(kind: Kind, w: World, pairs: seq<Pair>, fates: Fates)
    requires Distinct(pairs)
    ensures SweptTo(kind, w, pairs, fates, Swept(kind, w, pairs, fates))
  {
    forall p
      ensures StatusOf(Swept(kind, w, pairs, fates), p)
           == if p in pairs then StatusAfter(kind, StatusOf(w, p), fates(p)) else StatusOf(w, p)
    {
      SweepActsPointwise(kind, w, pairs, fates, p);
    }
  }

  function Changed(kind: Kind, w: World, w': World): Pair -> bool {
    if kind.Ban? then BecomesBanned(w, w') else BecomesBanned(w', w)
  }

  lemma TwoSweepsTell(
      kind: Kind, w: World, pairs: seq<Pair>, fates: Fates, mid: World, remutes: seq<Pair>, mutes: Fates, w': World)
    requires !kind.Mute? && SweptTo(kind, w, pairs, fates, mid) && SweptTo(Mute, mid, remutes, mutes, w')
    ensures Tells(kind, w, pairs, fates, Changed(kind, w, w'), Failing(kind, w, fates))
    ensures Tells(Mute, mid, remutes, mutes, BecomesRestricted(w, w'), Failing(Mute, w', mutes))
  {
    forall p
      ensures p in pairs ==> (Changed(kind, w, w')(p) <==> Changes(kind, StatusOf(w, p), fates(p)))
      ensures p in remutes ==>
                && (BecomesRestricted(w, w')(p) <==> Changes(Mute, StatusOf(mid, p), mutes(p)))
                && (Failing(Mute, w', mutes)(p) <==> Fails(Mute, StatusOf(mid, p), mutes(p)))
    {
      hide StatusAfter, Changes, Fails, StatusOf;
      StatusTells(kind, StatusOf(w, p), StatusOf(mid, p), StatusOf(w', p), fates(p), mutes(p),
                  p in pairs, p in remutes);
    }
    hide StatusAfter, Changes, Fails, StatusOf, Changed, BecomesRestricted, SweptTo;
  }

  /** What the counters say is true of the memberships: so many were banned by the sweep, so many
      restricted, none unbanned, and so many slots failed. */
  lemma CountsAreTrue(job: Job, w: World, bans: Fates, mutes: Fates, title: Id -> string)
    requires job.Valid()
    ensures var c, w' := Counts(job, w, bans, mutes, title), WorldAfter(job, w, bans, mutes);
            && c.enforcedBans == CountIf(job.BanPairs(), BecomesBanned(w, w'))
            && c.enforcedMutes == CountIf(job.MutePairs(), BecomesRestricted(w, w'))
            && c.enforcedUnbans == 0
            && c.failed == CountIf(job.BanPairs(), Failing(Ban, w, bans))
                           + CountIf(job.MutePairs(), Failing(Mute, w', mutes))
  {
    var w', mid := WorldAfter(job, w, bans, mutes), Swept(Ban, w, job.BanPairs(), bans);
    TakenAreDistinct(job);
    SweepReaches(Ban, w, job.BanPairs(), bans);
    SweepReaches(Mute, mid, job.MutePairs(), mutes);
    hide SweptTo, Tells, Outcomes, Summary, Swept, BecomesBanned, BecomesRestricted, Failing, TakePairs, Distinct;
    TwoSweepsTell(Ban, w, job.BanPairs(), bans, mid, job.MutePairs(), mutes, w');
    SummaryTells(Ban, w, job.BanPairs(), bans, Changed(Ban, w, w'), Failing(Ban, w, bans),
                 mid, job.MutePairs(), mutes, BecomesRestricted(w, w'), Failing(Mute, w', mutes),
                 title, job.Truncated());
  }

  /* ----- A second sweep ----- */

  predicate AllSucceed(fates: Fates, pairs: seq<Pair>) {
    forall p :: p in pairs ==> Succeeds(fates(p))
  }

  lemma {:induction false} NoWrites(outcomes: seq<Outcome>)
    requires forall i :: 0 <= i < |outcomes| ==> !IsWrite(outcomes[i])
    ensures TallyOf(outcomes).enforced == TallyOf(outcomes).unenforced == TallyOf(outcomes).remuted == 0
  {
    forall o | IsWrite(o)
      ensures o !in outcomes
    {
    }
    assert Enforced !in outcomes && Unenforced !in outcomes && Remuted !in outcomes;
  }

  /** Every pair the job names is settled. */
  predicate Reconciled(job: Job, w: World) {
    && (forall p :: p in job.BanPairs() ==> BanHolds(StatusOf(w, p)))
    && (forall p :: p in job.MutePairs() ==> MuteHolds(StatusOf(w, p)))
  }

  lemma SettledStays(kind: Kind, w: World, pairs: seq<Pair>, fates: Fates)
    requires Distinct(pairs)
    requires forall p :: p in pairs ==> !IsWrite(Settled(kind, StatusOf(w, p)))
    ensures forall p :: StatusOf(Swept(kind, w, pairs, fates), p) == StatusOf(w, p)
    ensures forall i :: 0 <= i < |pairs| ==> !IsWrite(Outcomes(kind, w, pairs, fates)[i])
  {
    forall p
      ensures StatusOf(Swept(kind, w, pairs, fates), p) == StatusOf(w, p)
    {
      SweepActsPointwise(kind, w, pairs, fates, p);
    }
  }

  /** A reconciled world is left alone, whatever the calls do. */
  lemma {:induction false} ReconciledIsLeftAlone(job: Job, w: World, bans: Fates, mutes: Fates, title: Id -> string)
    requires job.Valid() && Reconciled(job, w)
    ensures var c := Counts(job, w, bans, mutes, title);
            c.enforcedBans == 0 && c.enforcedMutes == 0 && c.enforcedUnbans == 0
    ensures forall p :: StatusOf(WorldAfter(job, w, bans, mutes), p) == StatusOf(w, p)
  {
    TakenAreDistinct(job);
    SettledStays(Ban, w, job.BanPairs(), bans);
    var mid := Swept(Ban, w, job.BanPairs(), bans);
    SettledStays(Mute, mid, job.MutePairs(), mutes);
    hide OutcomeOf, StatusAfter, TallyOf;
    var outcomes := AllOutcomes(job, w, bans, mutes);
    assert outcomes[..|outcomes|] == outcomes;
    NoWrites(outcomes);
  }

  /** After a complete sweep in which all calls succeed, a second one, on any budget and with
      any answers from Telegram, enforces nothing and changes nothing. */
  lemma {:induction false} SecondSweepEnforcesNothing(
      job: Job, w: World, bans: Fates, mutes: Fates, title: Id -> string, budget: int, bans': Fates, mutes': Fates)
    requires job.Valid() && job.maxChecks > 0 && !Counts(job, w, bans, mutes, title).truncated
    requires AllSucceed(bans, job.BanPairs()) && AllSucceed(mutes, job.MutePairs())
    ensures var again, w' := job.(maxChecks := budget), WorldAfter(job, w, bans, mutes);
            var c := Counts(again, w', bans', mutes', title);
            && c.enforcedBans == 0 && c.enforcedMutes == 0 && c.enforcedUnbans == 0
            && forall p :: StatusOf(WorldAfter(again, w', bans', mutes'), p) == StatusOf(w', p)
  {
    var again, w' := job.(maxChecks := budget), WorldAfter(job, w, bans, mutes);
    FlagClearMeansComplete(job, w, bans, mutes, title);
    CompleteSweepReconciles(job, w, bans, mutes, again);
    hide *;
    ReconciledIsLeftAlone(again, w', bans', mutes', title);
  }

  lemma CompleteSweepReconciles(job: Job, w: World, bans: Fates, mutes: Fates, again: Job)
    requires job.Valid() && !job.Truncated() && again == job.(maxChecks := again.maxChecks)
    requires AllSucceed(bans, job.BanPairs()) && AllSucceed(mutes, job.MutePairs())
    ensures again.Valid() && Reconciled(again, WorldAfter(job, w, bans, mutes))
  {
    hide WorldAfter;
    forall p
      ensures p in again.BanPairs() ==> p in job.BanPairs()
      ensures p in again.MutePairs() ==> p in job.MutePairs()
      ensures p in job.BanPairs() ==> BanHolds(StatusOf(WorldAfter(job, w, bans, mutes), p))
      ensures p in job.MutePairs() ==> MuteHolds(StatusOf(WorldAfter(job, w, bans, mutes), p))
    {
      TakenPairIsWork(again, p);
      UntruncatedCovers(job, p);
      SweptPair(job, w, bans, mutes, p);
    }
  }

  /* ----- verify_user: one user, both directions ----- */

  datatype Check = Check(user: Id, chats: seq<Id>, banned: bool, muted: bool) {
    predicate Valid() {
      Distinct(chats)
    }

    function Direction(): Kind {
      if banned then Ban else Unban
    }

    function Pairs(): seq<Pair> {
      TakePairs([user], chats, SYNC_MAX_CHECKS).0
    }

    function Remutes(): (seq<Pair>, bool) {
      if muted then TakePairs([user], chats, Rest(SYNC_MAX_CHECKS, |Pairs()|)) else ([], false)
    }

    /** The mute replay counts for the flag only if it took a pair. */
    function Truncated(): bool {
      TakePairs([user], chats, SYNC_MAX_CHECKS).1 || (Remutes().0 != [] && Remutes().1)
    }
  }

  function WorldChecked(check: Check, w: World, fates: Fates, mutes: Fates): World {
    Swept(Mute, Swept(check.Direction(), w, check.Pairs(), fates), check.Remutes().0, mutes)
  }

  function CheckCounts(check: Check, w: World, fates: Fates, mutes: Fates, title: Id -> string): SyncCounts {
    if check.Pairs() == [] then NOTHING_CHECKED
    else
      Summary(check.Pairs() + check.Remutes().0,
              Outcomes(check.Direction(), w, check.Pairs(), fates)
              + Outcomes(Mute, Swept(check.Direction(), w, check.Pairs(), fates), check.Remutes().0, mutes),
              title, check.Truncated())
  }

  lemma CheckedAreDistinct(check: Check)
    requires check.Valid()
    ensures Distinct(check.Pairs()) && Distinct(check.Remutes().0)
  {
    TruncatedExactlyWhenPairsAreLeft([check.user], check.chats, SYNC_MAX_CHECKS);
    TruncatedExactlyWhenPairsAreLeft([check.user], check.chats, Rest(SYNC_MAX_CHECKS, |check.Pairs()|));
  }

  /** How many chats each half reaches. */
  lemma CheckedCounts(check: Check)
    ensures var n := |check.chats|;
            && |check.Pairs()| == (if n < SYNC_MAX_CHECKS then n else SYNC_MAX_CHECKS)
            && |check.Remutes().0| == (if !check.muted || n >= SYNC_MAX_CHECKS then 0
                                       else if 2 * n <= SYNC_MAX_CHECKS then n else SYNC_MAX_CHECKS - n)
            && (check.Truncated() <==> n > SYNC_MAX_CHECKS || (check.muted && n < SYNC_MAX_CHECKS < 2 * n))
  {
    TakePairsIsBounded([check.user], check.chats, SYNC_MAX_CHECKS);
    TakePairsIsBounded([check.user], check.chats, Rest(SYNC_MAX_CHECKS, |check.Pairs()|));
  }

  /** `verify_user`. */
  method VerifyUser(telegram: Telegram, check: Check, fates: Fates, mutes: Fates, title: Id -> string)
      returns (counts: SyncCounts)
    requires check.Valid()
    modifies telegram
    ensures telegram.world == WorldChecked(check, old(telegram.world), fates, mutes)
    ensures counts == CheckCounts(check, old(telegram.world), fates, mutes, title)
  {
    hide Swept, Outcomes, Summary;
    CheckedAreDistinct(check);
    CheckedCounts(check);
    hide TakePairs;
    var (pairs, truncated) := TakePairs([check.user], check.chats, SYNC_MAX_CHECKS);
    if pairs == [] {
      assert check.Remutes().0 == [];
      NothingSwept(check.Direction(), telegram.world, fates);
      NothingSwept(Mute, telegram.world, mutes);
      return NOTHING_CHECKED;
    }
    var outcomes := telegram.FanOut(if check.banned then Ban else Unban, pairs, fates);
    NothingSwept(Mute, telegram.world, mutes);
    if check.muted {
      var (mutePairs, cut) := TakePairs([check.user], check.chats, Rest(SYNC_MAX_CHECKS, |pairs|));
      if mutePairs != [] {
        var muteOutcomes := telegram.FanOut(Mute, mutePairs, mutes);
        pairs, outcomes := pairs + mutePairs, outcomes + muteOutcomes;
        truncated := truncated || cut;
      }
    }
    assert pairs == check.Pairs() + check.Remutes().0;
    assert outcomes == Outcomes(check.Direction(), old(telegram.world), check.Pairs(), fates)
      + Outcomes(Mute, Swept(check.Direction(), old(telegram.world), check.Pairs(), fates), check.Remutes().0, mutes);
    counts := Summarize(pairs, outcomes, title, truncated);
  }

  /** The flag tells the truth, some check was left out, except for a muted user when the
      number of groups is exactly the budget: the mute replay is dropped without a word. */
  lemma CheckFlagIsTrueExactlyWhen(check: Check, w: World, fates: Fates, mutes: Fates, title: Id -> string)
    ensures var flag := CheckCounts(check, w, fates, mutes, title).truncated;
            var n := |check.chats|;
            var leftOut := |check.Pairs()| < n || (check.muted && |check.Remutes().0| < n);
            (flag <==> leftOut) <==> !(check.muted && n == SYNC_MAX_CHECKS)
  {
    CheckedCounts(check);
  }

  /** 200 groups: the mute replay checks none of them, and the flag is not set. */
  lemma SilentReplayExample(w: World, fates: Fates, title: Id -> string)
    ensures var check := Check(1, seq(SYNC_MAX_CHECKS, i => i + 1), false, true);
            && check.Valid() && check.Remutes().0 == []
            && !CheckCounts(check, w, fates, fates, title).truncated
  {
    CheckedCounts(Check(1, seq(SYNC_MAX_CHECKS, i => i + 1), false, true));
  }

  lemma CheckedPair(check: Check, w: World, fates: Fates, mutes: Fates, p: Pair)
    requires check.Valid()
    ensures var mid := if p in check.Pairs() then StatusAfter(check.Direction(), StatusOf(w, p), fates(p))
                       else StatusOf(w, p);
            StatusOf(WorldChecked(check, w, fates, mutes), p)
            == if p in check.Remutes().0 then StatusAfter(Mute, mid, mutes(p)) else mid
  {
    hide StatusAfter;
    CheckedAreDistinct(check);
    SweepActsPointwise(check.Direction(), w, check.Pairs(), fates, p);
    SweepActsPointwise(Mute, Swept(check.Direction(), w, check.Pairs(), fates), check.Remutes().0, mutes, p);
  }

  /** Each reached pair whose calls succeed ends up as the records say: banned or gone with an
      active ban, not banned without one, and muted or stronger with an active mute. */
  lemma CheckConverges(check: Check, w: World, fates: Fates, mutes: Fates, p: Pair)
    requires check.Valid()
    ensures var after := StatusOf(WorldChecked(check, w, fates, mutes), p);
            && (p in check.Pairs() && Succeeds(fates(p)) ==> if check.banned then BanHolds(after) else !after.Banned?)
            && (p in check.Remutes().0 && Succeeds(mutes(p)) ==> MuteHolds(after))
  {
    CheckedPair(check, w, fates, mutes, p);
    hide WorldChecked;
    SuccessSettles(StatusOf(w, p), fates(p));
    var mid := if p in check.Pairs() then StatusAfter(check.Direction(), StatusOf(w, p), fates(p)) else StatusOf(w, p);
    SuccessSettles(mid, mutes(p));
  }

  /** The only thing ever lifted is a ban without a record behind it, and nothing changes but by
      calls that succeed. */
  lemma CheckLiftsOnlyStaleBans(check: Check, w: World, fates: Fates, mutes: Fates, p: Pair)
    requires check.Valid()
    ensures var before, after := StatusOf(w, p), StatusOf(WorldChecked(check, w, fates, mutes), p);
            && (NoWeaker(before, after) || (!check.banned && before.Banned? && after.Left?))
            && (after != before ==>
                  || (&& p in check.Pairs() && Succeeds(fates(p))
                      && if check.banned then after.Banned? else before.Banned?)
                  || (p in check.Remutes().0 && Succeeds(mutes(p)) && after.Restricted?))
  {
    CheckedPair(check, w, fates, mutes, p);
    hide WorldChecked;
  }

  /** The counters of a check are true of the memberships, in both directions. */
  lemma CheckCountsAreTrue(check: Check, w: World, fates: Fates, mutes: Fates, title: Id -> string)
    requires check.Valid()
    ensures var c, w' := CheckCounts(check, w, fates, mutes, title), WorldChecked(check, w, fates, mutes);
            && c.enforcedBans == (if check.banned then CountIf(check.Pairs(), BecomesBanned(w, w')) else 0)
            && c.enforcedUnbans == (if check.banned then 0 else CountIf(check.Pairs(), BecomesBanned(w', w)))
            && c.enforcedMutes == CountIf(check.Remutes().0, BecomesRestricted(w, w'))
            && c.failed == CountIf(check.Pairs(), Failing(check.Direction(), w, fates))
                           + CountIf(check.Remutes().0, Failing(Mute, w', mutes))
  {
    var kind, w' := check.Direction(), WorldChecked(check, w, fates, mutes);
    var mid := Swept(kind, w, check.Pairs(), fates);
    CheckedAreDistinct(check);
    CheckedCounts(check);
    SweepReaches(kind, w, check.Pairs(), fates);
    SweepReaches(Mute, mid, check.Remutes().0, mutes);
    hide SweptTo, Tells, Outcomes, Summary, Swept, BecomesBanned, BecomesRestricted, Failing, TakePairs, Distinct;
    TwoSweepsTell(kind, w, check.Pairs(), fates, mid, check.Remutes().0, mutes, w');
    SummaryTells(kind, w, check.Pairs(), fates, Changed(kind, w, w'), Failing(kind, w, fates),
                 mid, check.Remutes().0, mutes, BecomesRestricted(w, w'), Failing(Mute, w', mutes),
                 title, check.Truncated());
  }
}
