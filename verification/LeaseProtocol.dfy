// tcbot/database/mtproto/lifecycle.py over lease.py: many processes, one lease row, one
// clock. A step is one database call of one process, so every interleaving of claims,
// retries, heartbeats, releases and crashes is a sequence of steps.
module LeaseProtocol {
  import opened Wrappers
  import opened Lease

  /** A database call that a crashed process had sent and that may still land. */
  datatype Stray = StrayTake(now: int) | StrayInsert(now: int) | StrayRefresh(at: int) | StrayRelease

  /** Where a process is. `now` and `at` are the clock readings that the call in progress
      took when it began. */
  datatype Phase =
    | Taking(now: int, attempt: nat)
    | Inserting(now: int, attempt: nat)
    | Held(until: int, beat: Option<int>)
    | Leaving
    | Gone(since: int)
    | Dead(since: int, stray: Option<Stray>)

  datatype State = State(clock: int, row: Option<Row>, phases: map<Owner, Phase>)

  datatype Action =
    | Tick(delta: nat)
    | ClaimStart(p: Owner)
    | TakeStep(p: Owner, reply: Reply)
    | InsertStep(p: Owner, reply: Reply)
    | BeatStart(p: Owner)
    | BeatStep(p: Owner, reply: Reply)
    | StopStart(p: Owner)
    | StopStep(p: Owner, lands: bool)
    | Crash(p: Owner)
    | StrayStep(p: Owner)
    | LateBeat(p: Owner, at: int)

  const INIT := State(0, None, map[])

  /** The last moment at which `phase` can have made a call. */
  function LastCall(phase: Phase, clock: int): int {
    if phase.Gone? || phase.Dead? then phase.since else clock
  }

  /** A late beat is a heartbeat that had raised, begun at some earlier `at`, and lands now. */
  predicate Enabled(s: State, a: Action) {
    match a
    case Tick(_) => true
    case ClaimStart(p) => p !in s.phases
    case TakeStep(p, _) => p in s.phases && s.phases[p].Taking?
    case InsertStep(p, _) => p in s.phases && s.phases[p].Inserting?
    case BeatStart(p) => p in s.phases && s.phases[p].Held? && s.phases[p].beat.None?
    case BeatStep(p, _) => p in s.phases && s.phases[p].Held? && s.phases[p].beat.Some?
    case StopStart(p) => p in s.phases && s.phases[p].Held?
    case StopStep(p, _) => p in s.phases && s.phases[p].Leaving?
    case Crash(p) => p in s.phases && !s.phases[p].Gone? && !s.phases[p].Dead?
    case StrayStep(p) => p in s.phases && s.phases[p].Dead? && s.phases[p].stray.Some?
    case LateBeat(p, at) =>
      p in s.phases && !s.phases[p].Taking? && !s.phases[p].Inserting? && at <= LastCall(s.phases[p], s.clock)
  }

  function AfterTake(s: State, p: Owner, reply: Reply, ttl: nat): Phase
    requires p in s.phases && s.phases[p].Taking?
  {
    var Taking(now, attempt) := s.phases[p];
    match TakeOutcome(s.row, p, now, reply, attempt)
    case Won => Held(now + ttl, None)
    case Missed => Inserting(now, 0)
    case Again => Taking(now, attempt + 1)
    case Lost => Gone(s.clock)
  }

  function AfterInsert(s: State, p: Owner, reply: Reply, ttl: nat): Phase
    requires p in s.phases && s.phases[p].Inserting?
  {
    var Inserting(now, attempt) := s.phases[p];
    match InsertOutcome(s.row, reply, attempt)
    case Again => Inserting(now, attempt + 1)
    case Lost => Gone(s.clock)
    case _ => Held(now + ttl, None)
  }

  /** The heartbeat: an exception keeps the client and waits for the next beat; an answer
      that nothing matched stops the client. */
  function AfterBeat(s: State, p: Owner, reply: Reply, ttl: nat): Phase
    requires p in s.phases && s.phases[p].Held? && s.phases[p].beat.Some?
  {
    var Held(until, beat) := s.phases[p];
    if !reply.Answered? then Held(until, None)
    else if s.row.Some? && s.row.value.owner == p then Held(beat.value + ttl, None)
    else Gone(s.clock)
  }

  function StrayOf(phase: Phase): Option<Stray> {
    match phase
    case Taking(now, _) => Some(StrayTake(now))
    case Inserting(now, _) => Some(StrayInsert(now))
    case Held(_, Some(at)) => Some(StrayRefresh(at))
    case Leaving => Some(StrayRelease)
    case _ => None
  }

  function StrayRow(row: Option<Row>, p: Owner, stray: Stray, ttl: nat): Option<Row> {
    match stray
    case StrayTake(now) => TakeRow(row, p, now, ttl, Answered)
    case StrayInsert(now) => InsertRow(row, p, now, ttl, Answered)
    case StrayRefresh(at) => RefreshRow(row, p, at, ttl, true)
    case StrayRelease => ReleaseRow(row, p, true)
  }

  function Apply(s: State, a: Action, ttl: nat): State
    requires Enabled(s, a)
  {
    match a
    case Tick(delta) => s.(clock := s.clock + delta)
    case ClaimStart(p) => s.(phases := s.phases[p := Taking(s.clock, 0)])
    case TakeStep(p, reply) =>
      s.(row := TakeRow(s.row, p, s.phases[p].now, ttl, reply), phases := s.phases[p := AfterTake(s, p, reply, ttl)])
    case InsertStep(p, reply) =>
      s.(row := InsertRow(s.row, p, s.phases[p].now, ttl, reply),
         phases := s.phases[p := AfterInsert(s, p, reply, ttl)])
    case BeatStart(p) => s.(phases := s.phases[p := Held(s.phases[p].until, Some(s.clock))])
    case BeatStep(p, reply) =>
      s.(row := RefreshRow(s.row, p, s.phases[p].beat.value, ttl, reply.Lands()),
         phases := s.phases[p := AfterBeat(s, p, reply, ttl)])
    case StopStart(p) => s.(phases := s.phases[p := Leaving])
    case StopStep(p, lands) =>
      s.(row := ReleaseRow(s.row, p, lands), phases := s.phases[p := Gone(s.clock)])
    case Crash(p) => s.(phases := s.phases[p := Dead(s.clock, StrayOf(s.phases[p]))])
    case StrayStep(p) =>
      s.(row := StrayRow(s.row, p, s.phases[p].stray.value, ttl),
         phases := s.phases[p := Dead(s.phases[p].since, None)])
    case LateBeat(p, at) => s.(row := RefreshRow(s.row, p, at, ttl, true))
  }

  /** The state after a sequence of actions, or None when one of them cannot happen. */
  function Run(s: State, actions: seq<Action>, ttl: nat): Option<State>
    decreases |actions|
  {
    if actions == [] then Some(s)
    else if Enabled(s, actions[0]) then Run(Apply(s, actions[0], ttl), actions[1..], ttl)
    else None
  }

  /** The process holds a claim that has not run out. */
  predicate Claims(s: State, p: Owner) {
    p in s.phases && s.phases[p].Held? && s.clock <= s.phases[p].until
  }

  /** An insert whose write concern error was swallowed is on the server, unless its claim has
      run out already; and a late heartbeat of a claim holder does not land after a younger one
      was answered. */
  predicate Trustworthy(s: State, a: Action, ttl: nat)
    requires Enabled(s, a)
  {
    match a
    case InsertStep(p, reply) =>
      s.row.None? && Swallows(reply, s.phases[p].attempt) && s.clock <= s.phases[p].now + ttl ==> reply.Lands()
    case LateBeat(p, at) => Claims(s, p) ==> at + ttl >= s.phases[p].until
    case _ => true
  }

  predicate TrustworthyRun(s: State, actions: seq<Action>, ttl: nat)
    decreases |actions|
  {
    actions == [] ||
    (&& Enabled(s, actions[0]) && Trustworthy(s, actions[0], ttl)
     && TrustworthyRun(Apply(s, actions[0], ttl), actions[1..], ttl))
  }

  /* ----- The invariant ----- */

  /** The clock readings a phase carries, and how long its claim may run. */
  predicate Timely(phase: Phase, clock: int, ttl: nat) {
    match phase
    case Taking(now, _) => now <= clock
    case Inserting(now, _) => now <= clock
    case Held(until, Some(at)) => at <= clock && until <= at + ttl
    case Held(until, None) => until <= clock + ttl
    case Leaving => true
    case Gone(since) => since <= clock
    case Dead(since, stray) =>
      && since <= clock
      && match stray
         case Some(StrayTake(now)) => now <= since
         case Some(StrayInsert(now)) => now <= since
         case Some(StrayRefresh(at)) => at <= since
         case _ => true
  }

  /** Whoever has an unexpired claim is in the row, with at least that expiry. */
  predicate ClaimBacked(s: State, p: Owner) {
    Claims(s, p) ==> s.row.Some? && s.row.value.owner == p && s.row.value.expires >= s.phases[p].until
  }

  predicate RowTimely(s: State, ttl: nat) {
    s.row.Some? ==>
      && s.row.value.owner in s.phases
      && s.row.value.expires <= LastCall(s.phases[s.row.value.owner], s.clock) + ttl
  }

  /** What every step keeps, trustworthy or not. */
  predicate TimesFit(s: State, ttl: nat) {
    (forall p :: p in s.phases ==> Timely(s.phases[p], s.clock, ttl)) && RowTimely(s, ttl)
  }

  predicate Inv(s: State, ttl: nat) {
    TimesFit(s, ttl) && forall p :: p in s.phases ==> ClaimBacked(s, p)
  }

  /** A step by `p` keeps the claim of every process `o`. */
  lemma StepBacksClaims(s: State, a: Action, ttl: nat, o: Owner)
    requires Inv(s, ttl) && Enabled(s, a) && Trustworthy(s, a, ttl)
    requires o in Apply(s, a, ttl).phases
    ensures ClaimBacked(Apply(s, a, ttl), o)
  {
    if o in s.phases {
      assert Timely(s.phases[o], s.clock, ttl) && ClaimBacked(s, o);
    }
  }

  lemma StepKeepsTimely(s: State, a: Action, ttl: nat, o: Owner)
    requires TimesFit(s, ttl) && Enabled(s, a)
    requires o in Apply(s, a, ttl).phases
    ensures Timely(Apply(s, a, ttl).phases[o], Apply(s, a, ttl).clock, ttl)
  {
    if o in s.phases {
      assert Timely(s.phases[o], s.clock, ttl);
    }
  }

  lemma StepKeepsRow(s: State, a: Action, ttl: nat)
    requires TimesFit(s, ttl) && Enabled(s, a)
    ensures RowTimely(Apply(s, a, ttl), ttl)
  {
    if !a.Tick? && a.p in s.phases {
      assert Timely(s.phases[a.p], s.clock, ttl);
    }
  }

  lemma StepKeepsTimes(s: State, a: Action, ttl: nat)
    requires TimesFit(s, ttl) && Enabled(s, a)
    ensures TimesFit(Apply(s, a, ttl), ttl)
  {
    hide Apply, Enabled, Timely, RowTimely;
    forall o | o in Apply(s, a, ttl).phases
      ensures Timely(Apply(s, a, ttl).phases[o], Apply(s, a, ttl).clock, ttl)
    {
      StepKeepsTimely(s, a, ttl, o);
    }
    StepKeepsRow(s, a, ttl);
  }

  lemma StepKeepsInv(s: State, a: Action, ttl: nat)
    requires Inv(s, ttl) && Enabled(s, a) && Trustworthy(s, a, ttl)
    ensures Inv(Apply(s, a, ttl), ttl)
  {
    hide Apply, Enabled, Trustworthy, TimesFit, ClaimBacked;
    StepKeepsTimes(s, a, ttl);
    forall o | o in Apply(s, a, ttl).phases
      ensures ClaimBacked(Apply(s, a, ttl), o)
    {
      StepBacksClaims(s, a, ttl, o);
    }
  }

  lemma {:induction false} RunKeepsTimes(s: State, actions: seq<Action>, ttl: nat)
    requires TimesFit(s, ttl) && Run(s, actions, ttl).Some?
    ensures TimesFit(Run(s, actions, ttl).value, ttl)
    decreases |actions|
  {
    if actions != [] {
      StepKeepsTimes(s, actions[0], ttl);
      RunKeepsTimes(Apply(s, actions[0], ttl), actions[1..], ttl);
    }
  }

  lemma {:induction false} RunKeepsInv(s: State, actions: seq<Action>, ttl: nat)
    requires Inv(s, ttl) && TrustworthyRun(s, actions, ttl)
    ensures Run(s, actions, ttl).Some? && Inv(Run(s, actions, ttl).value, ttl)
    decreases |actions|
  {
    if actions != [] {
      StepKeepsInv(s, actions[0], ttl);
      RunKeepsInv(Apply(s, actions[0], ttl), actions[1..], ttl);
    }
  }

  /* ----- Main results ----- */

  /** Over every interleaving, no two processes both hold an unexpired claim; and whoever
      holds one is the owner in the row. */
  lemma MutualExclusion(actions: seq<Action>, ttl: nat, s: State, p: Owner, q: Owner)
    requires TrustworthyRun(INIT, actions, ttl) && Run(INIT, actions, ttl) == Some(s)
    requires Claims(s, p)
    ensures s.row.Some? && s.row.value.owner == p && s.row.value.expires >= s.clock
    ensures Claims(s, q) ==> p == q
  {
    RunKeepsInv(INIT, actions, ttl);
    assert ClaimBacked(s, p);
    assert q in s.phases ==> ClaimBacked(s, q);
  }

  /** The claim call of `p` is over and somebody else, or nobody, has the row. */
  predicate TakenOver(s: State, p: Owner) {
    && p in s.phases
    && match s.phases[p] {
         case Taking(_, _) => false
         case Inserting(_, _) => false
         case Dead(_, Some(StrayTake(_))) => false
         case Dead(_, Some(StrayInsert(_))) => false
         case _ => s.row.None? || s.row.value.owner != p
       }
  }

  lemma StepKeepsTakenOver(s: State, a: Action, ttl: nat, p: Owner)
    requires TakenOver(s, p) && Enabled(s, a)
    ensures TakenOver(Apply(s, a, ttl), p)
  {
  }

  lemma {:induction false} TakenOverForGood(s: State, actions: seq<Action>, ttl: nat, p: Owner)
    requires TakenOver(s, p) && Run(s, actions, ttl).Some?
    ensures TakenOver(Run(s, actions, ttl).value, p)
    decreases |actions|
  {
    if actions != [] {
      StepKeepsTakenOver(s, actions[0], ttl, p);
      TakenOverForGood(Apply(s, actions[0], ttl), actions[1..], ttl, p);
    }
  }

  /** Fencing: once an owner has been taken over, then after any further run its next
      answered heartbeat stops it and leaves the row alone. */
  lemma TakenOverNeverRefreshes(s: State, actions: seq<Action>, ttl: nat, p: Owner, reply: Reply)
    requires TakenOver(s, p) && Run(s, actions, ttl).Some?
    requires Enabled(Run(s, actions, ttl).value, BeatStep(p, reply))
    ensures var before := Run(s, actions, ttl).value;
            var after := Apply(before, BeatStep(p, reply), ttl);
            && after.row == before.row
            && (reply.Answered? ==> after.phases[p].Gone?)
  {
    TakenOverForGood(s, actions, ttl, p);
  }

  /** In particular a holder whose row went to somebody else, or is gone: whatever happens next, its
      first answered heartbeat stops it, and it never writes the row again. */
  lemma FencedHolderStops(s: State, actions: seq<Action>, ttl: nat, p: Owner)
    requires p in s.phases && s.phases[p].Held? && (s.row.Some? ==> s.row.value.owner != p)
    requires Run(s, actions, ttl).Some?
    ensures var s' := Run(s, actions, ttl).value;
            && (s'.row.Some? ==> s'.row.value.owner != p)
            && (Enabled(s', BeatStep(p, Answered)) ==>
                  Apply(s', BeatStep(p, Answered), ttl).phases[p] == Gone(s'.clock))
  {
    TakenOverForGood(s, actions, ttl, p);
  }

  /** After any run at all, a holder that crashed, or gave up, more than one TTL ago is replaced
      by the first claim that gets through: its take finds the row expired. */
  lemma CrashedHolderIsReplaced(actions: seq<Action>, ttl: nat, s: State, p: Owner, q: Owner)
    requires Run(INIT, actions, ttl) == Some(s)
    requires s.row.Some? && s.row.value.owner == p && p in s.phases
    requires (s.phases[p].Dead? || s.phases[p].Gone?) && s.clock > s.phases[p].since + ttl
    requires q !in s.phases
    ensures var claim := Run(s, [ClaimStart(q), TakeStep(q, Answered)], ttl);
            claim.Some? && Claims(claim.value, q) && claim.value.row == Some(Row(q, s.clock + ttl))
  {
    RunKeepsTimes(INIT, actions, ttl);
    assert RowTimely(s, ttl);
    var s1 := Apply(s, ClaimStart(q), ttl);
    var s2 := Apply(s1, TakeStep(q, Answered), ttl);
    RunStep(s, ClaimStart(q), [TakeStep(q, Answered)], ttl);
    RunStep(s1, TakeStep(q, Answered), [], ttl);
    assert [ClaimStart(q)] + [TakeStep(q, Answered)] == [ClaimStart(q), TakeStep(q, Answered)];
    assert [TakeStep(q, Answered)] + [] == [TakeStep(q, Answered)];
  }

  /** Exclusion needs the trust in swallowed writes: two processes whose inserts were lost
      behind a swallowed write concern error both come away with a claim. */
  lemma SwallowedLossBreaksExclusion(ttl: nat)
    ensures exists actions :: Run(INIT, actions, ttl).Some?
              && Claims(Run(INIT, actions, ttl).value, 0) && Claims(Run(INIT, actions, ttl).value, 1)
  {
    var lost := Final(false);
    var a0, a1, a2 := ClaimStart(0), TakeStep(0, Answered), InsertStep(0, lost);
    var b0, b1, b2 := ClaimStart(1), TakeStep(1, Answered), InsertStep(1, lost);
    var s1 := Apply(INIT, a0, ttl);
    var s2 := Apply(s1, a1, ttl);
    var s3 := Apply(s2, a2, ttl);
    var s4 := Apply(s3, b0, ttl);
    var s5 := Apply(s4, b1, ttl);
    var s6 := Apply(s5, b2, ttl);
    assert Run(s6, [], ttl) == Some(s6);
    RunStep(s5, b2, [], ttl);
    RunStep(s4, b1, [b2], ttl);
    RunStep(s3, b0, [b1, b2], ttl);
    RunStep(s2, a2, [b0, b1, b2], ttl);
    RunStep(s1, a1, [a2, b0, b1, b2], ttl);
    RunStep(INIT, a0, [a1, a2, b0, b1, b2], ttl);
    assert Claims(s6, 0) && Claims(s6, 1);
  }

  ghost predicate TwoClaims(s: State) {
    exists p, q :: p != q && Claims(s, p) && Claims(s, q)
  }

  /** After a late heartbeat of a claim holder, its row can expire before its claim. */
  lemma LateBeatOpensTheRow(s: State, ttl: nat, p: Owner, q: Owner, at: int) returns (more: seq<Action>)
    requires Inv(s, ttl) && Claims(s, p) && Enabled(s, LateBeat(p, at)) && q !in s.phases
    requires at + ttl < s.phases[p].until
    ensures var late := Apply(s, LateBeat(p, at), ttl);
            TrustworthyRun(late, more, ttl) && Run(late, more, ttl).Some? && TwoClaims(Run(late, more, ttl).value)
  {
    assert ClaimBacked(s, p);
    var s0 := Apply(s, LateBeat(p, at), ttl);
    var a1, a2, a3 := Tick(s.phases[p].until - s.clock), ClaimStart(q), TakeStep(q, Answered);
    var s1 := Apply(s0, a1, ttl);
    var s2 := Apply(s1, a2, ttl);
    var s3 := Apply(s2, a3, ttl);
    assert Claims(s3, p) && Claims(s3, q);
    more := [a1, a2, a3];
    assert more[1..] == [a2, a3] && [a2, a3][1..] == [a3] && [a3][1..] == [];
    assert Run(s3, [], ttl) == Some(s3);
    assert Run(s2, [a3], ttl) == Some(s3) && TrustworthyRun(s2, [a3], ttl);
    assert Run(s1, [a2, a3], ttl) == Some(s3) && TrustworthyRun(s1, [a2, a3], ttl);
  }

  /** Some trustworthy continuation leads to two claims. */
  ghost predicate CanClaimTwice(s: State, ttl: nat) {
    exists more :: TrustworthyRun(s, more, ttl) && Run(s, more, ttl).Some? && TwoClaims(Run(s, more, ttl).value)
  }

  lemma NeverTwoClaims(s: State, ttl: nat)
    requires Inv(s, ttl)
    ensures !CanClaimTwice(s, ttl)
  {
    forall more | TrustworthyRun(s, more, ttl) && Run(s, more, ttl).Some?
      ensures !TwoClaims(Run(s, more, ttl).value)
    {
      RunKeepsInv(s, more, ttl);
      OneClaim(Run(s, more, ttl).value, ttl);
    }
  }

  /** Whoever claims while the store is empty shares the lease with the next one. */
  lemma ClaimWithoutRow(s: State, ttl: nat, p: Owner, q: Owner) returns (more: seq<Action>)
    requires s.row.None? && Claims(s, p) && q !in s.phases
    ensures TrustworthyRun(s, more, ttl) && Run(s, more, ttl).Some? && TwoClaims(Run(s, more, ttl).value)
  {
    var a1, a2, a3 := ClaimStart(q), TakeStep(q, Answered), InsertStep(q, Answered);
    var s1 := Apply(s, a1, ttl);
    var s2 := Apply(s1, a2, ttl);
    var s3 := Apply(s2, a3, ttl);
    assert Claims(s3, p) && Claims(s3, q);
    more := [a1, a2, a3];
    assert more[1..] == [a2, a3] && [a2, a3][1..] == [a3] && [a3][1..] == [];
    assert Run(s3, [], ttl) == Some(s3);
    assert Run(s2, [a3], ttl) == Some(s3) && TrustworthyRun(s2, [a3], ttl);
    assert Run(s1, [a2, a3], ttl) == Some(s3) && TrustworthyRun(s1, [a2, a3], ttl);
  }

  /** Exactly when a swallowed write concern error breaks exclusion: after any trustworthy run
      that leaves the store empty, an insert whose error is swallowed leads to two claims in some
      continuation if and only if the write was lost and its claim has not run out yet. */
  lemma SwallowedLossHurtsExactlyWhen(actions: seq<Action>, ttl: nat, s: State, p: Owner, q: Owner, reply: Reply)
    requires TrustworthyRun(INIT, actions, ttl) && Run(INIT, actions, ttl) == Some(s) && s.row.None?
    requires Enabled(s, InsertStep(p, reply)) && Swallows(reply, s.phases[p].attempt) && q !in s.phases
    ensures CanClaimTwice(Apply(s, InsertStep(p, reply), ttl), ttl)
       <==> !reply.Lands() && s.clock <= s.phases[p].now + ttl
  {
    RunKeepsInv(INIT, actions, ttl);
    var after := Apply(s, InsertStep(p, reply), ttl);
    if !reply.Lands() && s.clock <= s.phases[p].now + ttl {
      var more := ClaimWithoutRow(after, ttl, p, q);
    } else {
      StepKeepsInv(s, InsertStep(p, reply), ttl);
      NeverTwoClaims(after, ttl);
    }
  }

  /** Exactly when a late heartbeat breaks exclusion: after any trustworthy run, letting an older
      heartbeat of a claim holder land leads to two claims in some continuation if and only if
      it moves the row's expiry below the claim, that is, if a younger one was answered before. */
  lemma LateHeartbeatHurtsExactlyWhen(actions: seq<Action>, ttl: nat, s: State, p: Owner, q: Owner, at: int)
    requires TrustworthyRun(INIT, actions, ttl) && Run(INIT, actions, ttl) == Some(s)
    requires Claims(s, p) && Enabled(s, LateBeat(p, at)) && q !in s.phases
    ensures CanClaimTwice(Apply(s, LateBeat(p, at), ttl), ttl) <==> at + ttl < s.phases[p].until
  {
    RunKeepsInv(INIT, actions, ttl);
    if at + ttl < s.phases[p].until {
      var more := LateBeatOpensTheRow(s, ttl, p, q, at);
    } else {
      StepKeepsInv(s, LateBeat(p, at), ttl);
      NeverTwoClaims(Apply(s, LateBeat(p, at), ttl), ttl);
    }
  }

  lemma OneClaim(s: State, ttl: nat)
    requires Inv(s, ttl)
    ensures !TwoClaims(s)
  {
    forall p, q | Claims(s, p) && Claims(s, q)
      ensures p == q
    {
      assert ClaimBacked(s, p) && ClaimBacked(s, q);
    }
  }

  /* ----- What a holder can rely on ----- */

  /** A heartbeat that raises costs nothing: the claim stays and the next beat can start. */
  lemma UnansweredBeatKeepsTheClaim(s: State, ttl: nat, p: Owner, reply: Reply)
    requires Enabled(s, BeatStep(p, reply)) && !reply.Answered?
    ensures var s' := Apply(s, BeatStep(p, reply), ttl);
            s'.phases[p] == Held(s.phases[p].until, None) && Enabled(s', BeatStart(p))
  {
  }

  /** One that is answered renews claim and row from the clock reading it began with. */
  lemma AnsweredBeatRenews(s: State, ttl: nat, p: Owner)
    requires Enabled(s, BeatStep(p, Answered)) && HasRow(s, p)
    ensures var s', at := Apply(s, BeatStep(p, Answered), ttl), s.phases[p].beat.value;
            && s'.phases[p] == Held(at + ttl, None) && s'.row == Some(Row(p, at + ttl))
            && Enabled(s', BeatStart(p))
  {
  }

  predicate HasRow(s: State, p: Owner) {
    s.row.Some? && s.row.value.owner == p
  }

  /** What an observer who sees only the actions knows of the beats of one process. */
  datatype Beats = Beats(clock: int, started: Option<int>, until: int)

  function Hear(b: Beats, a: Action, p: Owner, ttl: nat): Beats {
    match a
    case Tick(delta) => b.(clock := b.clock + delta)
    case BeatStart(q) => if q == p then b.(started := Some(b.clock)) else b
    case BeatStep(q, reply) =>
      if q != p then b
      else if reply.Answered? && b.started.Some? then Beats(b.clock, None, b.started.value + ttl)
      else b.(started := None)
    case _ => b
  }

  function HearAll(b: Beats, actions: seq<Action>, p: Owner, ttl: nat): Beats
    decreases |actions|
  {
    if actions == [] then b else HearAll(Hear(b, actions[0], p, ttl), actions[1..], p, ttl)
  }

  /** `p` neither stops nor crashes, and the row stays in its name. */
  predicate Undisturbed(s: State, actions: seq<Action>, p: Owner, ttl: nat)
    decreases |actions|
  {
    && HasRow(s, p)
    && (actions == [] ||
        (&& Enabled(s, actions[0]) && actions[0] != StopStart(p) && actions[0] != Crash(p)
         && Undisturbed(Apply(s, actions[0], ttl), actions[1..], p, ttl)))
  }

  predicate Matches(s: State, b: Beats, p: Owner) {
    p in s.phases && s.phases[p] == Held(b.until, b.started) && s.clock == b.clock
  }

  /** A holder whose row nobody else writes claims until its last answered beat plus the TTL,
      exactly, whatever beats raised in between. */
  lemma {:induction false} HolderClaimsUntilLastBeat(s: State, actions: seq<Action>, p: Owner, ttl: nat, b: Beats)
    requires Matches(s, b, p) && Undisturbed(s, actions, p, ttl)
    ensures Run(s, actions, ttl).Some?
    ensures var s', heard := Run(s, actions, ttl).value, HearAll(b, actions, p, ttl);
            Matches(s', heard, p) && (Claims(s', p) <==> s'.clock <= heard.until)
    decreases |actions|
  {
    if actions != [] {
      assert Matches(Apply(s, actions[0], ttl), Hear(b, actions[0], p, ttl), p);
      HolderClaimsUntilLastBeat(Apply(s, actions[0], ttl), actions[1..], p, ttl, Hear(b, actions[0], p, ttl));
    }
  }

  /** The heartbeat loop of a holder, with the pauses between the beats and their answers. */
  function BeatLoop(p: Owner, beats: seq<(nat, Reply)>): seq<Action> {
    if beats == [] then []
    else [Tick(beats[0].0)] + ([BeatStart(p)] + ([BeatStep(p, beats[0].1)] + BeatLoop(p, beats[1..])))
  }

  /** One TTL after the last answered beat, or the old end of the claim. */
  function ClaimEnd(clock: int, until: int, beats: seq<(nat, Reply)>, ttl: nat): int
    decreases |beats|
  {
    if beats == [] then until
    else
      var at := clock + beats[0].0;
      ClaimEnd(at, if beats[0].1.Answered? then at + ttl else until, beats[1..], ttl)
  }

  /** Left alone, the loop goes on whatever the answers are, keeps the row, and renews the claim
      with every answered beat. */
  lemma {:induction false} HeartbeatLoopRenews(s: State, p: Owner, until: int, beats: seq<(nat, Reply)>, ttl: nat)
    requires p in s.phases && s.phases[p] == Held(until, None) && s.row.Some? && s.row.value.owner == p
    ensures var end := Run(s, BeatLoop(p, beats), ttl);
            && end.Some? && p in end.value.phases
            && end.value.phases[p] == Held(ClaimEnd(s.clock, until, beats, ttl), None)
            && end.value.row.Some? && end.value.row.value.owner == p
    decreases |beats|
  {
    if beats != [] {
      var rest := BeatLoop(p, beats[1..]);
      var tick, start, step := Tick(beats[0].0), BeatStart(p), BeatStep(p, beats[0].1);
      var s1 := Apply(s, tick, ttl);
      var s2 := Apply(s1, start, ttl);
      RunStep(s, tick, [start] + ([step] + rest), ttl);
      RunStep(s1, start, [step] + rest, ttl);
      RunStep(s2, step, rest, ttl);
      HeartbeatLoopRenews(Apply(s2, step, ttl), p, Apply(s2, step, ttl).phases[p].until, beats[1..], ttl);
    }
  }

  /** A stop that lands frees the lease at once. */
  lemma StopFreesTheLease(s: State, ttl: nat, p: Owner)
    requires p in s.phases && s.phases[p].Held? && HasRow(s, p)
    ensures var leaving := Apply(s, StopStart(p), ttl);
            && Enabled(leaving, StopStep(p, true))
            && Apply(leaving, StopStep(p, true), ttl) == State(s.clock, None, s.phases[p := Gone(s.clock)])
  {
  }

  /** A process that has not ended may crash at any moment. That leaves the call in progress: it
      may still land, and then does what it would have done. */
  lemma CrashedCallMayLand(s: State, ttl: nat, p: Owner)
    requires p in s.phases && !s.phases[p].Gone? && !s.phases[p].Dead?
    ensures Enabled(s, Crash(p))
    ensures var dead := Apply(s, Crash(p), ttl);
            var landed := if Enabled(dead, StrayStep(p)) then Apply(dead, StrayStep(p), ttl).row else s.row;
            && dead.row == s.row && dead.phases[p].Dead?
            && match s.phases[p] {
                 case Taking(_, _) => landed == Apply(s, TakeStep(p, Answered), ttl).row
                 case Inserting(_, _) => landed == Apply(s, InsertStep(p, Answered), ttl).row
                 case Held(_, Some(_)) => landed == Apply(s, BeatStep(p, Answered), ttl).row
                 case Leaving => landed == Apply(s, StopStep(p, true), ttl).row
                 case _ => landed == s.row
               }
  {
  }

  /** A heartbeat that raised may land at any later moment, also after a crash, and then sets the
      row of its owner to the moment it began with. */
  lemma RaisedBeatMayLandLate(s: State, ttl: nat, p: Owner, reply: Reply, delta: nat)
    requires Enabled(s, BeatStep(p, reply)) && !reply.Answered? && s.phases[p].beat.value <= s.clock
    ensures var at, s1 := s.phases[p].beat.value, Apply(Apply(s, BeatStep(p, reply), ttl), Tick(delta), ttl);
            var s2 := Apply(s1, Crash(p), ttl);
            && Enabled(s1, LateBeat(p, at)) && Enabled(s2, LateBeat(p, at))
            && (HasRow(s1, p) ==> Apply(s1, LateBeat(p, at), ttl) == s1.(row := Some(Row(p, at + ttl))))
            && (HasRow(s2, p) ==> Apply(s2, LateBeat(p, at), ttl) == s2.(row := Some(Row(p, at + ttl))))
  {
  }

  /* ----- A claim with nobody in between is claim_owner ----- */

  predicate Claiming(phase: Phase) {
    match phase
    case Taking(_, k) => k < MAX_WRITE_RETRIES
    case Inserting(_, k) => k < MAX_WRITE_RETRIES
    case _ => true
  }

  function StepsLeft(phase: Phase): nat
    requires Claiming(phase)
  {
    match phase
    case Taking(_, k) => 2 * MAX_WRITE_RETRIES - k
    case Inserting(_, k) => MAX_WRITE_RETRIES - k
    case _ => 0
  }

  /** The steps of one claim, with these answers, until it is decided. */
  function Decided(s: State, p: Owner, takes: seq<Reply>, inserts: seq<Reply>, ttl: nat): State
    requires |takes| == |inserts| == MAX_WRITE_RETRIES && p in s.phases && Claiming(s.phases[p])
    decreases StepsLeft(s.phases[p])
  {
    match s.phases[p]
    case Taking(_, k) => Decided(Apply(s, TakeStep(p, takes[k]), ttl), p, takes, inserts, ttl)
    case Inserting(_, k) => Decided(Apply(s, InsertStep(p, inserts[k]), ttl), p, takes, inserts, ttl)
    case _ => s
  }

  lemma {:induction false} DecidedInsert(s: State, p: Owner, now: int, k: nat, takes: seq<Reply>, inserts: seq<Reply>,
                                         ttl: nat)
    requires |takes| == |inserts| == MAX_WRITE_RETRIES && k <= Deciding(inserts)
    requires p in s.phases && s.phases[p] == Inserting(now, k)
    requires k > 0 ==> s.row == if LandedBy(inserts, k) then Some(Row(p, now + ttl)) else None
    ensures var s', free := Decided(s, p, takes, inserts, ttl), k > 0 || s.row.None?;
            && p in s'.phases
            && s'.phases[p] == (if free && InsertWins(inserts) then Held(now + ttl, None) else Gone(s.clock))
            && s'.row == if free && LandedBy(inserts, Deciding(inserts) + 1) then Some(Row(p, now + ttl)) else s.row
    decreases MAX_WRITE_RETRIES - k
  {
    var s1 := Apply(s, InsertStep(p, inserts[k]), ttl);
    assert inserts[k].Lands() ==> LandedBy(inserts, k + 1);
    if s1.phases[p].Inserting? {
      DecidedInsert(s1, p, now, k + 1, takes, inserts, ttl);
    }
  }

  lemma {:induction false} DecidedTake(s: State, p: Owner, now: int, k: nat, takes: seq<Reply>, inserts: seq<Reply>,
                                       ttl: nat, row: Option<Row>)
    requires |takes| == |inserts| == MAX_WRITE_RETRIES && k <= Deciding(takes)
    requires p in s.phases && s.phases[p] == Taking(now, k)
    requires s.row == if Takeable(row, p, now) && LandedBy(takes, k) then Some(Row(p, now + ttl)) else row
    ensures var s' := Decided(s, p, takes, inserts, ttl);
            && p in s'.phases
            && s'.phases[p] == (if ClaimSucceeds(row, p, now, takes, inserts) then Held(now + ttl, None)
                                else Gone(s.clock))
            && s'.row == if ClaimWrites(row, p, now, takes, inserts) then Some(Row(p, now + ttl)) else row
    decreases MAX_WRITE_RETRIES - k
  {
    var s1 := Apply(s, TakeStep(p, takes[k]), ttl);
    assert takes[k].Lands() ==> LandedBy(takes, k + 1);
    match s1.phases[p]
    case Taking(_, _) => DecidedTake(s1, p, now, k + 1, takes, inserts, ttl, row);
    case Inserting(_, _) => DecidedInsert(s1, p, now, 0, takes, inserts, ttl);
    case _ =>
  }

  /** With nobody in between, the steps of a claim come to what claim_owner does: success, row
      and duration of the claim, for every sequence of answers. */
  lemma SoloClaimIsClaimOwner(s: State, p: Owner, takes: seq<Reply>, inserts: seq<Reply>, ttl: nat)
    requires |takes| == |inserts| == MAX_WRITE_RETRIES && p !in s.phases
    ensures var s' := Decided(Apply(s, ClaimStart(p), ttl), p, takes, inserts, ttl);
            && p in s'.phases
            && s'.phases[p] == (if ClaimSucceeds(s.row, p, s.clock, takes, inserts) then Held(s.clock + ttl, None)
                                else Gone(s.clock))
            && s'.row == if ClaimWrites(s.row, p, s.clock, takes, inserts) then Some(Row(p, s.clock + ttl)) else s.row
  {
    DecidedTake(Apply(s, ClaimStart(p), ttl), p, s.clock, 0, takes, inserts, ttl, s.row);
  }

  lemma RunStep(s: State, a: Action, rest: seq<Action>, ttl: nat)
    requires Enabled(s, a)
    ensures Run(s, [a] + rest, ttl) == Run(Apply(s, a, ttl), rest, ttl)
  {
    assert ([a] + rest)[1..] == rest;
  }
}
