// tcbot/database/mtproto_store/lease.py and retry.py: the single-row owner lease, one
// call at a time on the row.
module Lease {
  import opened Wrappers

  /** An instance label; every start() draws a new one. */
  type Owner = nat

  /** The lease document. */
  datatype Row = Row(owner: Owner, expires: int)

  const MAX_WRITE_RETRIES: nat := 3

  /** How one database call ends: with an answer; with a transient or a final write concern
      error; or with another exception. After an error the write is on the server or not. */
  datatype Reply =
    | Answered
    | Transient(applied: bool)
    | Final(applied: bool)
    | Raised(applied: bool)
  {
    predicate Lands() {
      Answered? || applied
    }
  }

  /** What one attempt means to the claim. */
  datatype Outcome = Won | Missed | Again | Lost

  /** Attempt number `attempt` of a write that no longer retries on a write concern error:
      `_retry_write` logs the error and returns None. */
  predicate Swallows(reply: Reply, attempt: nat) {
    reply.Final? || (reply.Transient? && attempt + 1 >= MAX_WRITE_RETRIES)
  }

  /* ----- One call on the row ----- */

  /** The filter of `_take`: the lease is the owner's already, or has expired. */
  predicate Takeable(row: Option<Row>, owner: Owner, now: int) {
    row.Some? && (row.value.owner == owner || row.value.expires < now)
  }

  function TakeRow(row: Option<Row>, owner: Owner, now: int, ttl: nat, reply: Reply): Option<Row> {
    if Takeable(row, owner, now) && reply.Lands() then Some(Row(owner, now + ttl)) else row
  }

  function TakeOutcome(row: Option<Row>, owner: Owner, now: int, reply: Reply, attempt: nat): Outcome {
    if reply.Raised? then Lost
    else if Swallows(reply, attempt) then Missed
    else if reply.Transient? then Again
    else if Takeable(row, owner, now) then Won else Missed
  }

  /** `_first`: the unique `_id` lets the insert land only when there is no row. */
  function InsertRow(row: Option<Row>, owner: Owner, now: int, ttl: nat, reply: Reply): Option<Row> {
    if row.None? && reply.Lands() then Some(Row(owner, now + ttl)) else row
  }

  /** A duplicate key is reported before any write concern error. A swallowed error returns
      None, which counts as a win. */
  function InsertOutcome(row: Option<Row>, reply: Reply, attempt: nat): Outcome {
    if reply.Raised? || row.Some? then Lost
    else if reply.Transient? && !Swallows(reply, attempt) then Again
    else Won
  }

  function RefreshRow(row: Option<Row>, owner: Owner, at: int, ttl: nat, lands: bool): Option<Row> {
    if row.Some? && row.value.owner == owner && lands then Some(Row(owner, at + ttl)) else row
  }

  function ReleaseRow(row: Option<Row>, owner: Owner, lands: bool): Option<Row> {
    if row.Some? && row.value.owner == owner && lands then None else row
  }

  /** The attempt after which the write is not tried again. */
  function Deciding(replies: seq<Reply>): (k: nat)
    requires |replies| == MAX_WRITE_RETRIES
    ensures k < MAX_WRITE_RETRIES && (replies[k].Transient? ==> k == MAX_WRITE_RETRIES - 1)
    ensures forall j :: 0 <= j < k ==> replies[j].Transient?
  {
    if !replies[0].Transient? then 0 else if !replies[1].Transient? then 1 else 2
  }

  /** One of the first `n` attempts is on the server. */
  predicate LandedBy(replies: seq<Reply>, n: nat)
    requires n <= |replies|
  {
    exists j :: 0 <= j < n && replies[j].Lands()
  }

  /** On an empty store: no earlier attempt landed unnoticed, and the last one did not raise. */
  predicate InsertWins(replies: seq<Reply>)
    requires |replies| == MAX_WRITE_RETRIES
  {
    !LandedBy(replies, Deciding(replies)) && !replies[Deciding(replies)].Raised?
  }

  /** A claim succeeds on an own or expired row whose take answers, or on an empty store whose
      take does not raise and whose insert wins. */
  predicate ClaimSucceeds(row: Option<Row>, owner: Owner, now: int, takes: seq<Reply>, inserts: seq<Reply>)
    requires |takes| == |inserts| == MAX_WRITE_RETRIES
  {
    || (Takeable(row, owner, now) && takes[Deciding(takes)].Answered?)
    || (row.None? && !takes[Deciding(takes)].Raised? && InsertWins(inserts))
  }

  predicate ClaimWrites(row: Option<Row>, owner: Owner, now: int, takes: seq<Reply>, inserts: seq<Reply>)
    requires |takes| == |inserts| == MAX_WRITE_RETRIES
  {
    || (Takeable(row, owner, now) && LandedBy(takes, Deciding(takes) + 1))
    || (row.None? && !takes[Deciding(takes)].Raised? && LandedBy(inserts, Deciding(inserts) + 1))
  }

  /** What a claim promises, whatever the faults: a live foreign lease is left alone; a claim
      that succeeds has its row, as long as no write that the retry gave up on was in fact lost;
      and without faults it succeeds exactly on a free, an own or an expired lease. */
  lemma ClaimPromises(row: Option<Row>, owner: Owner, now: int, takes: seq<Reply>, inserts: seq<Reply>)
    requires |takes| == |inserts| == MAX_WRITE_RETRIES
    ensures LiveForeign(row, owner, now) ==>
              !ClaimSucceeds(row, owner, now, takes, inserts) && !ClaimWrites(row, owner, now, takes, inserts)
    ensures ClaimSucceeds(row, owner, now, takes, inserts)
            && (forall k :: 0 <= k < |inserts| && Swallows(inserts[k], k) ==> inserts[k].applied) ==>
              ClaimWrites(row, owner, now, takes, inserts)
    ensures takes[0] == inserts[0] == Answered ==>
              (ClaimSucceeds(row, owner, now, takes, inserts) <==> !LiveForeign(row, owner, now))
  {
    var t, i := Deciding(takes), Deciding(inserts);
    assert takes[t].Answered? ==> LandedBy(takes, t + 1);
    assert inserts[i].Lands() ==> LandedBy(inserts, i + 1);
  }

  /** A lease held by someone else that has not run out for a claim made at `now`. */
  predicate LiveForeign(row: Option<Row>, owner: Owner, now: int) {
    row.Some? && row.value.owner != owner && row.value.expires >= now
  }

  /** The lease collection, and the lease calls with no other process between their steps.
      Their faults come in as the replies of the successive attempts. */
  class Store {
    var row: Option<Row>
    const ttl: nat

    constructor (ttl: nat)
      ensures row == None && this.ttl == ttl
    {
      row := None;
      this.ttl := ttl;
    }

    /** `_retry_write(_take)`. */
    method RetryTake(owner: Owner, now: int, replies: seq<Reply>) returns (outcome: Outcome)
      requires |replies| == MAX_WRITE_RETRIES
      modifies this
      ensures outcome == (if replies[Deciding(replies)].Raised? then Lost
                          else if replies[Deciding(replies)].Answered? && Takeable(old(row), owner, now) then Won
                          else Missed)
      ensures row == if Takeable(old(row), owner, now) && LandedBy(replies, Deciding(replies) + 1)
                     then Some(Row(owner, now + ttl)) else old(row)
    {
      var attempt := 0;
      outcome := Again;
      while outcome == Again
        invariant attempt <= Deciding(replies) + 1
        invariant outcome == if attempt <= Deciding(replies) then Again
                             else if replies[Deciding(replies)].Raised? then Lost
                             else if replies[Deciding(replies)].Answered? && Takeable(old(row), owner, now) then Won
                             else Missed
        invariant row == if Takeable(old(row), owner, now) && LandedBy(replies, attempt)
                         then Some(Row(owner, now + ttl)) else old(row)
        decreases MAX_WRITE_RETRIES - attempt
      {
        var reply := replies[attempt];
        outcome := TakeOutcome(row, owner, now, reply, attempt);
        row := TakeRow(row, owner, now, ttl, reply);
        attempt := attempt + 1;
      }
    }

    /** `_retry_write(_first)`. An insert that landed behind a transient error meets its own row
        on the retry, and the claim is lost. */
    method RetryInsert(owner: Owner, now: int, replies: seq<Reply>) returns (outcome: Outcome)
      requires |replies| == MAX_WRITE_RETRIES
      modifies this
      ensures outcome == if old(row).None? && InsertWins(replies) then Won else Lost
      ensures row == if old(row).None? && LandedBy(replies, Deciding(replies) + 1)
                     then Some(Row(owner, now + ttl)) else old(row)
    {
      var attempt := 0;
      outcome := Again;
      while outcome == Again
        invariant attempt <= Deciding(replies) + 1
        invariant outcome == Again ==>
                    && attempt <= Deciding(replies) && (attempt > 0 ==> old(row).None?)
                    && row == if LandedBy(replies, attempt) then Some(Row(owner, now + ttl)) else old(row)
        invariant outcome != Again ==>
                    && outcome == (if old(row).None? && InsertWins(replies) then Won else Lost)
                    && row == if old(row).None? && LandedBy(replies, Deciding(replies) + 1)
                              then Some(Row(owner, now + ttl)) else old(row)
        decreases MAX_WRITE_RETRIES - attempt
      {
        var reply := replies[attempt];
        outcome := InsertOutcome(row, reply, attempt);
        row := InsertRow(row, owner, now, ttl, reply);
        attempt := attempt + 1;
      }
    }

    /** `claim_owner`, for every sequence of answers: a live foreign lease is neither taken nor
        changed, and what else decides is named exactly. */
    method ClaimOwner(owner: Owner, now: int, takes: seq<Reply>, inserts: seq<Reply>) returns (claimed: bool)
      requires |takes| == |inserts| == MAX_WRITE_RETRIES
      modifies this
      ensures claimed <==> ClaimSucceeds(old(row), owner, now, takes, inserts)
      ensures row == if ClaimWrites(old(row), owner, now, takes, inserts) then Some(Row(owner, now + ttl)) else old(row)
    {
      var outcome := RetryTake(owner, now, takes);
      if outcome == Won {
        return true;
      }
      if outcome == Lost {
        return false;
      }
      outcome := RetryInsert(owner, now, inserts);
      return outcome == Won;
    }

    /** `refresh_owner`: renews at most the owner's own row; None when it raises. */
    method RefreshOwner(owner: Owner, at: int, reply: Reply) returns (held: Option<bool>)
      modifies this
      ensures held == if reply.Answered? then Some(old(row).Some? && old(row).value.owner == owner) else None
      ensures row == if old(row).Some? && old(row).value.owner == owner && reply.Lands() then Some(Row(owner, at + ttl))
                     else old(row)
    {
      held := if reply.Answered? then Some(row.Some? && row.value.owner == owner) else None;
      row := RefreshRow(row, owner, at, ttl, reply.Lands());
    }

    /** `release_owner`: removes at most the owner's own row. */
    method ReleaseOwner(owner: Owner, lands: bool)
      modifies this
      ensures row == if old(row).Some? && old(row).value.owner == owner && lands then None else old(row)
    {
      row := ReleaseRow(row, owner, lands);
    }
  }
}
