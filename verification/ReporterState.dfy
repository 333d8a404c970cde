// tcbot/utils/error_reporter/state.py: the dedupe set with its size cap, and the hourly
// budget of owner DMs.
module ReporterState {
  import opened Wrappers
  import opened TimeLog
  import TumblingWindow

  type Fingerprint = string

  const DEDUPE_WINDOW := 30.0
  const RECENT_MAX: nat := 1000
  const OWNER_WINDOW := 3600.0
  const OWNER_BUDGET: nat := 3
  const OWNER_MAX: nat := 1000

  /* ----- Deduplication ----- */

  datatype Sighting = Sighting(fp: Fingerprint, at: real)

  function Unexpired(recent: seq<Sighting>, now: real): seq<Sighting> {
    if recent == [] then []
    else if now - recent[0].at > DEDUPE_WINDOW then Unexpired(recent[1..], now)
    else [recent[0]] + Unexpired(recent[1..], now)
  }

  /** The oldest tenth goes when the cap is hit. Entries are added at the end, with the time
      of the clock, so the source's stable sort by time leaves them in place. */
  function Capped(recent: seq<Sighting>): seq<Sighting> {
    if |recent| >= RECENT_MAX then recent[RECENT_MAX / 10..] else recent
  }

  predicate Knows(recent: seq<Sighting>, fp: Fingerprint) {
    exists k :: 0 <= k < |recent| && recent[k].fp == fp
  }

  function Pruned(recent: seq<Sighting>, now: real): seq<Sighting> {
    Capped(Unexpired(recent, now))
  }

  /** `_seen_recently`: what is remembered afterwards. */
  function Seen(recent: seq<Sighting>, fp: Fingerprint, now: real): seq<Sighting> {
    var kept := Pruned(recent, now);
    if Knows(kept, fp) then kept else kept + [Sighting(fp, now)]
  }

  /* ----- Owner budget ----- */

  datatype Window = Window(start: real, count: nat)

  predicate Spent(w: Window, now: real) {
    now - w.start >= OWNER_WINDOW
  }

  function Current(entry: Option<Window>, now: real): Window {
    if entry.None? || Spent(entry.value, now) then Window(now, 0) else entry.value
  }

  predicate Suppressed(entry: Option<Window>, now: real) {
    Current(entry, now).count >= OWNER_BUDGET
  }

  function Used(entry: Option<Window>, now: real): Window {
    var w := Current(entry, now);
    if w.count >= OWNER_BUDGET then w else w.(count := w.count + 1)
  }

  function Entry(sent: map<Fingerprint, Window>, fp: Fingerprint): Option<Window> {
    if fp in sent then Some(sent[fp]) else None
  }

  /** The cleanup at the cap; without `evict` it never happens. */
  function Cleaned(sent: map<Fingerprint, Window>, now: real, evict: bool): map<Fingerprint, Window> {
    if evict && |sent| >= OWNER_MAX then map k | k in sent && !Spent(sent[k], now) :: sent[k] else sent
  }

  function OwnerStep(sent: map<Fingerprint, Window>, fp: Fingerprint, now: real, evict: bool):
    map<Fingerprint, Window>
  {
    var kept := Cleaned(sent, now, evict);
    kept[fp := Used(Entry(kept, fp), now)]
  }

  predicate OwnerDenies(sent: map<Fingerprint, Window>, fp: Fingerprint, now: real, evict: bool) {
    Suppressed(Entry(Cleaned(sent, now, evict), fp), now)
  }

  class Reporter {
    var recent: seq<Sighting>
    var ownerSent: map<Fingerprint, Window>

    constructor ()
      ensures recent == [] && ownerSent == map[]
    {
      recent, ownerSent := [], map[];
    }

    method SeenRecently(fp: Fingerprint, now: real) returns (seen: bool)
      modifies this`recent
      ensures recent == Seen(old(recent), fp, now)
      ensures seen <==> Knows(Pruned(old(recent), now), fp)
    {
      var kept, k := [], 0;
      while k < |recent|
        invariant 0 <= k <= |recent| && recent == old(recent)
        invariant kept + Unexpired(recent[k..], now) == Unexpired(recent, now)
      {
        UnexpiredStep(recent, k, now, kept);
        hide Unexpired;
        if now - recent[k].at <= DEDUPE_WINDOW {
          kept := kept + [recent[k]];
        }
        k := k + 1;
      }
      assert recent[|recent|..] == [] && kept == Unexpired(recent, now);
      if |kept| >= RECENT_MAX {
        kept := kept[RECENT_MAX / 10..];
      }
      seen := exists i :: 0 <= i < |kept| && kept[i].fp == fp;
      recent := if seen then kept else kept + [Sighting(fp, now)];
    }

    method OwnerSuppressed(fp: Fingerprint, now: real) returns (suppressed: bool)
      modifies this`ownerSent
      ensures ownerSent == OwnerStep(old(ownerSent), fp, now, true)
      ensures suppressed <==> OwnerDenies(old(ownerSent), fp, now, true)
      ensures forall k :: k in ownerSent && k != fp ==> k in old(ownerSent) && ownerSent[k] == old(ownerSent)[k]
      ensures forall k :: k in old(ownerSent) && k != fp ==>
                (k in ownerSent <==> |old(ownerSent)| < OWNER_MAX || now - old(ownerSent)[k].start < OWNER_WINDOW)
    {
      if |ownerSent| >= OWNER_MAX {
        ownerSent := map k | k in ownerSent && now - ownerSent[k].start < OWNER_WINDOW :: ownerSent[k];
      }
      var start, count := now, 0;
      if fp in ownerSent {
        start, count := ownerSent[fp].start, ownerSent[fp].count;
      }
      if now - start >= OWNER_WINDOW {
        start, count := now, 0;
      }
      suppressed := count >= OWNER_BUDGET;
      ownerSent := ownerSent[fp := Window(start, if suppressed then count else count + 1)];
    }
  }

  lemma UnexpiredStep(recent: seq<Sighting>, k: nat, now: real, kept: seq<Sighting>)
    requires k < |recent|
    ensures kept + Unexpired(recent[k..], now)
         == (if now - recent[k].at <= DEDUPE_WINDOW then kept + [recent[k]] else kept) + Unexpired(recent[k + 1..], now)
  {
    assert recent[k..][1..] == recent[k + 1..];
    assert recent[k..][0] == recent[k];
  }

  /* ----- Deduplication: how far the cap weakens it ----- */

  datatype Arrival = Arrival(fp: Fingerprint, now: real)

  predicate InOrder(arrivals: seq<Arrival>, seen: real) {
    arrivals != [] ==> seen <= arrivals[0].now && InOrder(arrivals[1..], arrivals[0].now)
  }

  /** The reports that pass, in order. */
  function Passed(recent: seq<Sighting>, log: seq<Sighting>, arrivals: seq<Arrival>): seq<Sighting>
    decreases |arrivals|
  {
    if arrivals == [] then log
    else
      var fp, now := arrivals[0].fp, arrivals[0].now;
      var log' := if Knows(Pruned(recent, now), fp) then log else log + [Sighting(fp, now)];
      Passed(Seen(recent, fp, now), log', arrivals[1..])
  }

  predicate SortedUpTo(log: seq<Sighting>, seen: real) {
    && (forall i, j :: 0 <= i < j < |log| ==> log[i].at <= log[j].at)
    && forall i :: 0 <= i < |log| ==> log[i].at <= seen
  }

  /** An entry may be missing from the set: it has expired, or more than nine tenths of the
      cap passed since. */
  predicate MayForget(log: seq<Sighting>, i: nat, seen: real)
    requires i < |log|
  {
    seen - log[i].at > DEDUPE_WINDOW || |log| - i > RECENT_MAX - RECENT_MAX / 10
  }

  /** The remembered part is an end of the log. */
  predicate Remembers(recent: seq<Sighting>, log: seq<Sighting>, seen: real) {
    && |recent| <= |log| && |recent| <= RECENT_MAX
    && recent == log[|log| - |recent|..]
    && SortedUpTo(log, seen)
    && forall i :: 0 <= i < |log| - |recent| ==> MayForget(log, i, seen)
  }

  /** Two passing reports with one fingerprint are far apart, in time or in number. */
  predicate Deduped(log: seq<Sighting>) {
    forall i, j :: 0 <= i < j < |log| && log[i].fp == log[j].fp ==>
      log[j].at - log[i].at > DEDUPE_WINDOW || j - i > RECENT_MAX - RECENT_MAX / 10
  }

  lemma {:induction false} UnexpiredIsSuffix(recent: seq<Sighting>, now: real) returns (k: nat)
    requires forall i, j :: 0 <= i < j < |recent| ==> recent[i].at <= recent[j].at
    ensures k <= |recent| && Unexpired(recent, now) == recent[k..]
    ensures forall i :: 0 <= i < k ==> now - recent[i].at > DEDUPE_WINDOW
    ensures forall i :: k <= i < |recent| ==> now - recent[i].at <= DEDUPE_WINDOW
    decreases |recent|
  {
    if recent == [] {
      k := 0;
    } else {
      var rest := UnexpiredIsSuffix(recent[1..], now);
      if now - recent[0].at > DEDUPE_WINDOW {
        k := rest + 1;
        forall i | 0 <= i < k ensures now - recent[i].at > DEDUPE_WINDOW {
          assert i > 0 ==> recent[i] == recent[1..][i - 1];
        }
        forall i | k <= i < |recent| ensures now - recent[i].at <= DEDUPE_WINDOW {
          assert recent[i] == recent[1..][i - 1];
        }
      } else {
        k := 0;
        assert rest == 0;
        assert recent == [recent[0]] + recent[1..];
      }
    }
  }

  lemma ExpiryRemembers(recent: seq<Sighting>, log: seq<Sighting>, seen: real, now: real)
    requires Remembers(recent, log, seen) && seen <= now
    ensures Remembers(Unexpired(recent, now), log, now)
    ensures forall i :: 0 <= i < |Unexpired(recent, now)| ==> now - Unexpired(recent, now)[i].at <= DEDUPE_WINDOW
  {
    var k := UnexpiredIsSuffix(recent, now);
    var live := Unexpired(recent, now);
    hide Unexpired;
    assert live == log[|log| - |live|..];
    forall i | 0 <= i < |log| - |live|
      ensures MayForget(log, i, now)
    {
      if i < |log| - |recent| {
        assert MayForget(log, i, seen);
      } else {
        assert log[i] == recent[i - (|log| - |recent|)];
      }
    }
  }

  lemma CappingRemembers(live: seq<Sighting>, log: seq<Sighting>, now: real)
    requires Remembers(live, log, now)
    ensures Remembers(Capped(live), log, now) && |Capped(live)| < RECENT_MAX
    ensures forall i :: 0 <= i < |Capped(live)| ==> Capped(live)[i] == live[|live| - |Capped(live)| + i]
  {
    var kept := Capped(live);
    assert kept == log[|log| - |kept|..];
    forall i | 0 <= i < |log| - |kept|
      ensures MayForget(log, i, now)
    {
      if i < |log| - |live| {
        assert MayForget(log, i, now);
      }
    }
  }

  lemma PruningRemembers(recent: seq<Sighting>, log: seq<Sighting>, seen: real, now: real)
    requires Remembers(recent, log, seen) && seen <= now
    ensures Remembers(Pruned(recent, now), log, now) && |Pruned(recent, now)| < RECENT_MAX
    ensures forall i :: 0 <= i < |Pruned(recent, now)| ==> now - Pruned(recent, now)[i].at <= DEDUPE_WINDOW
  {
    ExpiryRemembers(recent, log, seen, now);
    CappingRemembers(Unexpired(recent, now), log, now);
    hide Remembers, Unexpired, Capped;
  }

  /** A report is held back exactly if one with its fingerprint is among the last passing
      reports, as many as are remembered; then that one passed within the last 30 seconds. And if
      it passes, every such report is older, or more than 900 reports old. */
  lemma SeenStep(recent: seq<Sighting>, log: seq<Sighting>, seen: real, fp: Fingerprint, now: real)
    requires Remembers(recent, log, seen) && seen <= now
    ensures Knows(Pruned(recent, now), fp) <==>
              exists i :: 0 <= i < |log| && i >= |log| - |Pruned(recent, now)| && log[i].fp == fp
    ensures Knows(Pruned(recent, now), fp) ==>
              exists i :: 0 <= i < |log| && log[i].fp == fp && now - log[i].at <= DEDUPE_WINDOW
    ensures !Knows(Pruned(recent, now), fp) ==>
              forall i :: 0 <= i < |log| && log[i].fp == fp ==> MayForget(log, i, now)
  {
    PruningRemembers(recent, log, seen, now);
    var kept := Pruned(recent, now);
    hide Pruned;
    assert forall i :: |log| - |kept| <= i < |log| ==> log[i] == kept[i - (|log| - |kept|)];
    if Knows(kept, fp) {
      var k :| 0 <= k < |kept| && kept[k].fp == fp;
      assert log[|log| - |kept| + k] == kept[k];
    }
  }

  lemma PassingKeeps(kept: seq<Sighting>, log: seq<Sighting>, fp: Fingerprint, now: real)
    requires Remembers(kept, log, now) && |kept| < RECENT_MAX && Deduped(log)
    requires forall i :: 0 <= i < |log| && log[i].fp == fp ==> MayForget(log, i, now)
    ensures Remembers(kept + [Sighting(fp, now)], log + [Sighting(fp, now)], now)
    ensures Deduped(log + [Sighting(fp, now)])
  {
    var log' := log + [Sighting(fp, now)];
    assert forall i :: 0 <= i < |log| ==> log'[i] == log[i];
    forall i | 0 <= i < |log| - |kept|
      ensures MayForget(log', i, now)
    {
      assert MayForget(log, i, now);
    }
  }

  lemma {:induction false} PassedIsDeduped(
      recent: seq<Sighting>, log: seq<Sighting>, seen: real, arrivals: seq<Arrival>)
    requires Remembers(recent, log, seen) && Deduped(log) && InOrder(arrivals, seen)
    ensures Deduped(Passed(recent, log, arrivals))
    decreases |arrivals|
  {
    if arrivals != [] {
      var fp, now := arrivals[0].fp, arrivals[0].now;
      SeenStep(recent, log, seen, fp, now);
      PruningRemembers(recent, log, seen, now);
      hide Remembers, Deduped, Pruned, Knows;
      var kept := Pruned(recent, now);
      if Knows(kept, fp) {
        PassedIsDeduped(kept, log, now, arrivals[1..]);
      } else {
        PassingKeeps(kept, log, fp, now);
        PassedIsDeduped(kept + [Sighting(fp, now)], log + [Sighting(fp, now)], now, arrivals[1..]);
      }
    }
  }

  /** One report per incident: over any run, two reports with one fingerprint that both pass
      within 30 seconds have at least 900 other passing reports between them. */
  lemma OneReportPerIncident(arrivals: seq<Arrival>, start: real)
    requires InOrder(arrivals, start)
    ensures var log := Passed([], [], arrivals);
            forall i, j :: 0 <= i < j < |log| && log[i].fp == log[j].fp && log[j].at - log[i].at <= DEDUPE_WINDOW ==>
              j - i - 1 >= 900
  {
    PassedIsDeduped([], [], start, arrivals);
  }

  /* The bound is tight: a storm of distinct fingerprints at one moment fills the set, the next
     report evicts the oldest tenth, and the hundredth fingerprint passes again. */

  /** The k-th fingerprint of the storm. */
  function Storm(k: nat): Fingerprint {
    seq(k, _ => 'x')
  }

  function StormArrivals(from: nat, to: nat): seq<Arrival>
    requires from <= to
  {
    seq(to - from, k requires 0 <= k < to - from => Arrival(Storm(from + k), 0.0))
  }

  function StormLog(n: nat): seq<Sighting> {
    seq(n, k requires 0 <= k < n => Sighting(Storm(k), 0.0))
  }

  lemma {:induction false} AllUnexpired(recent: seq<Sighting>, now: real)
    requires forall i :: 0 <= i < |recent| ==> now - recent[i].at <= DEDUPE_WINDOW
    ensures Unexpired(recent, now) == recent
  {
    if recent != [] {
      AllUnexpired(recent[1..], now);
    }
  }

  /** A fingerprint that the pruned set does not hold is added. */
  lemma StormStep(k: nat, rest: seq<Arrival>)
    requires k < RECENT_MAX
    ensures Passed(StormLog(k), StormLog(k), [Arrival(Storm(k), 0.0)] + rest)
         == Passed(StormLog(k + 1), StormLog(k + 1), rest)
  {
    var log := StormLog(k);
    AllUnexpired(log, 0.0);
    assert Pruned(log, 0.0) == log;
    forall i | 0 <= i < k ensures log[i].fp != Storm(k) {
      assert |log[i].fp| == i;
    }
    assert log + [Sighting(Storm(k), 0.0)] == StormLog(k + 1);
    assert ([Arrival(Storm(k), 0.0)] + rest)[1..] == rest;
  }

  lemma {:induction false} StormPasses(k: nat, rest: seq<Arrival>)
    requires k <= RECENT_MAX
    ensures Passed(StormLog(k), StormLog(k), StormArrivals(k, RECENT_MAX) + rest)
         == Passed(StormLog(RECENT_MAX), StormLog(RECENT_MAX), rest)
    decreases RECENT_MAX - k
  {
    if k < RECENT_MAX {
      var later := StormArrivals(k + 1, RECENT_MAX);
      assert StormArrivals(k, RECENT_MAX) + rest == [Arrival(Storm(k), 0.0)] + (later + rest);
      StormStep(k, later + rest);
      StormPasses(k + 1, rest);
    } else {
      assert StormArrivals(k, RECENT_MAX) + rest == rest;
    }
  }

  /** The full set evicts its first hundred, the hundredth fingerprint among them. */
  lemma EvictedPassesAgain()
    ensures Passed(StormLog(RECENT_MAX), StormLog(RECENT_MAX), [Arrival(Storm(99), 0.0)])
         == StormLog(RECENT_MAX) + [Sighting(Storm(99), 0.0)]
  {
    var log := StormLog(RECENT_MAX);
    AllUnexpired(log, 0.0);
    var kept := Pruned(log, 0.0);
    assert kept == log[100..];
    forall i | 0 <= i < |kept| ensures kept[i].fp != Storm(99) {
      assert |kept[i].fp| == 100 + i;
    }
    assert [Arrival(Storm(99), 0.0)][1..] == [];
  }

  lemma {:induction false} StormInOrder(k: nat, last: Arrival)
    requires k <= RECENT_MAX && last.now == 0.0
    ensures InOrder(StormArrivals(k, RECENT_MAX) + [last], 0.0)
    decreases RECENT_MAX - k
  {
    var arrivals := StormArrivals(k, RECENT_MAX) + [last];
    if k < RECENT_MAX {
      StormInOrder(k + 1, last);
      assert arrivals[1..] == StormArrivals(k + 1, RECENT_MAX) + [last];
    } else {
      assert arrivals == [last] && arrivals[1..] == [];
    }
  }

  /** Reports i and j pass with one fingerprint within the window, 900 others between them. */
  predicate RepeatAt(log: seq<Sighting>, i: nat, j: nat) {
    i < j < |log| && log[i].fp == log[j].fp && log[j].at - log[i].at <= DEDUPE_WINDOW && j - i - 1 == 900
  }

  ghost predicate RepeatPasses(log: seq<Sighting>) {
    exists i: nat, j: nat :: RepeatAt(log, i, j)
  }

  /** Two reports with one fingerprint do pass at one moment, with exactly 900 others between. */
  lemma EvictionLetsARepeatPass()
    ensures exists arrivals :: InOrder(arrivals, 0.0) && RepeatPasses(Passed([], [], arrivals))
  {
    var arrivals := StormArrivals(0, RECENT_MAX) + [Arrival(Storm(99), 0.0)];
    StormInOrder(0, Arrival(Storm(99), 0.0));
    StormPasses(0, [Arrival(Storm(99), 0.0)]);
    assert StormLog(0) == [];
    EvictedPassesAgain();
    var log := Passed([], [], arrivals);
    assert log == StormLog(RECENT_MAX) + [Sighting(Storm(99), 0.0)];
    assert log[99] == log[RECENT_MAX] == Sighting(Storm(99), 0.0);
    assert RepeatPasses(log) by {
      assert RepeatAt(log, 99, RECENT_MAX);
    }
  }

  /* ----- Exactly when deduplication is exact ----- */

  /** A report with this fingerprint passed within the dedupe window. */
  predicate PassedLately(log: seq<Sighting>, fp: Fingerprint, now: real) {
    exists i :: 0 <= i < |log| && log[i].fp == fp && now - log[i].at <= DEDUPE_WINDOW
  }

  /** Everything that was forgotten has expired, and no fingerprint is remembered twice. */
  predicate RemembersAll(recent: seq<Sighting>, log: seq<Sighting>, seen: real) {
    && |recent| <= |log| && recent == log[|log| - |recent|..]
    && SortedUpTo(log, seen)
    && (forall i :: 0 <= i < |log| - |recent| ==> seen - log[i].at > DEDUPE_WINDOW)
    && forall i, j :: 0 <= i < j < |recent| ==> recent[i].fp != recent[j].fp
  }

  /** The cap is hit when the report comes: the branch that evicts. */
  predicate HitsCap(recent: seq<Sighting>, now: real) {
    |Unexpired(recent, now)| >= RECENT_MAX
  }

  lemma UnexpiredRemembersAll(recent: seq<Sighting>, log: seq<Sighting>, seen: real, now: real)
    requires RemembersAll(recent, log, seen) && seen <= now
    ensures RemembersAll(Unexpired(recent, now), log, now)
    ensures forall i :: 0 <= i < |Unexpired(recent, now)| ==> now - Unexpired(recent, now)[i].at <= DEDUPE_WINDOW
  {
    var k := UnexpiredIsSuffix(recent, now);
    var live := Unexpired(recent, now);
    hide Unexpired;
    assert live == log[|log| - |live|..];
    forall i | 0 <= i < |log| - |live|
      ensures now - log[i].at > DEDUPE_WINDOW
    {
      assert i >= |log| - |recent| ==> log[i] == recent[i - (|log| - |recent|)];
    }
  }

  /** What is live is what passed lately. */
  lemma LiveIsLately(live: seq<Sighting>, log: seq<Sighting>, now: real, fp: Fingerprint)
    requires RemembersAll(live, log, now)
    requires forall i :: 0 <= i < |live| ==> now - live[i].at <= DEDUPE_WINDOW
    ensures Knows(live, fp) <==> PassedLately(log, fp, now)
  {
    assert forall i :: |log| - |live| <= i < |log| ==> log[i] == live[i - (|log| - |live|)];
    if k :| 0 <= k < |live| && live[k].fp == fp {
      assert log[|log| - |live| + k] == live[k];
    }
  }

  /** Deduplication fails at a moment, that is, some fingerprint that passed lately would pass
      again, if and only if the cap is hit then. Otherwise the decision is exact for every
      fingerprint, and afterwards everything is remembered again. */
  lemma DedupeFailsExactlyWhen(recent: seq<Sighting>, log: seq<Sighting>, seen: real, now: real)
    requires RemembersAll(recent, log, seen) && seen <= now
    ensures (exists fp :: PassedLately(log, fp, now) && !Knows(Pruned(recent, now), fp)) <==> HitsCap(recent, now)
    ensures !HitsCap(recent, now) ==>
              forall fp :: Knows(Pruned(recent, now), fp) <==> PassedLately(log, fp, now)
  {
    var live := Unexpired(recent, now);
    UnexpiredRemembersAll(recent, log, seen, now);
    hide Unexpired;
    forall fp ensures Knows(live, fp) <==> PassedLately(log, fp, now) {
      LiveIsLately(live, log, now, fp);
    }
    hide RemembersAll, PassedLately;
    if HitsCap(recent, now) {
      FirstIsEvicted(live);
      assert Knows(live, live[0].fp);
    }
  }

  lemma FirstIsEvicted(live: seq<Sighting>)
    requires |live| >= RECENT_MAX && forall i, j :: 0 <= i < j < |live| ==> live[i].fp != live[j].fp
    ensures !Knows(Capped(live), live[0].fp)
  {
    var kept := Capped(live);
    forall k | 0 <= k < |kept| ensures kept[k].fp != live[0].fp {
      assert kept[k] == live[k + RECENT_MAX / 10];
    }
  }

  lemma WithoutCapRemembersAll(recent: seq<Sighting>, log: seq<Sighting>, seen: real, fp: Fingerprint, now: real)
    requires RemembersAll(recent, log, seen) && seen <= now && !HitsCap(recent, now)
    ensures var log' := if Knows(Pruned(recent, now), fp) then log else log + [Sighting(fp, now)];
            RemembersAll(Seen(recent, fp, now), log', now)
  {
    var live := Unexpired(recent, now);
    UnexpiredRemembersAll(recent, log, seen, now);
    hide Unexpired;
    assert Pruned(recent, now) == live;
    if !Knows(live, fp) {
      var log' := log + [Sighting(fp, now)];
      assert forall i :: 0 <= i < |log| ==> log'[i] == log[i];
      assert live + [Sighting(fp, now)] == log'[|log'| - |live| - 1..];
    }
  }

  /** No report of the run comes when the cap is hit. */
  predicate CapNeverHit(recent: seq<Sighting>, arrivals: seq<Arrival>)
    decreases |arrivals|
  {
    arrivals == [] ||
    (&& !HitsCap(recent, arrivals[0].now)
     && CapNeverHit(Seen(recent, arrivals[0].fp, arrivals[0].now), arrivals[1..]))
  }

  /** The reports that an unbounded memory would let pass. */
  function Ideal(log: seq<Sighting>, arrivals: seq<Arrival>): seq<Sighting>
    decreases |arrivals|
  {
    if arrivals == [] then log
    else
      var fp, now := arrivals[0].fp, arrivals[0].now;
      Ideal(if PassedLately(log, fp, now) then log else log + [Sighting(fp, now)], arrivals[1..])
  }

  lemma {:induction false} RunIsIdeal(recent: seq<Sighting>, log: seq<Sighting>, seen: real, arrivals: seq<Arrival>)
    requires RemembersAll(recent, log, seen) && InOrder(arrivals, seen) && CapNeverHit(recent, arrivals)
    ensures Passed(recent, log, arrivals) == Ideal(log, arrivals)
    decreases |arrivals|
  {
    if arrivals != [] {
      var fp, now := arrivals[0].fp, arrivals[0].now;
      DedupeFailsExactlyWhen(recent, log, seen, now);
      WithoutCapRemembersAll(recent, log, seen, fp, now);
      hide RemembersAll, Knows, Pruned, Seen, PassedLately, HitsCap;
      RunIsIdeal(Seen(recent, fp, now), if Knows(Pruned(recent, now), fp) then log else log + [Sighting(fp, now)],
                 now, arrivals[1..]);
    }
  }

  /** As long as the cap is not hit, a report is held back if and only if one with its
      fingerprint passed in the last 30 seconds. */
  lemma DedupeIsExactBelowTheCap(arrivals: seq<Arrival>, start: real)
    requires InOrder(arrivals, start) && CapNeverHit([], arrivals)
    ensures Passed([], [], arrivals) == Ideal([], arrivals)
  {
    RunIsIdeal([], [], start, arrivals);
  }

  /* ----- Owner budget: eviction is invisible, and the bound ----- */

  /** The DMs of one fingerprint after one more report, and after a run of them. */
  function DmStep(sent: map<Fingerprint, Window>, dms: seq<real>, a: Arrival, fp: Fingerprint, evict: bool): seq<real> {
    if a.fp == fp && !OwnerDenies(sent, fp, a.now, evict) then dms + [a.now] else dms
  }

  function Dms(sent: map<Fingerprint, Window>, dms: seq<real>, arrivals: seq<Arrival>, fp: Fingerprint, evict: bool):
    seq<real>
    decreases |arrivals|
  {
    if arrivals == [] then dms
    else
      var a := arrivals[0];
      Dms(OwnerStep(sent, a.fp, a.now, evict), DmStep(sent, dms, a, fp, evict), arrivals[1..], fp, evict)
  }

  /** The same entry, or one that is gone because its window has run out. */
  predicate SameFor(entry: Option<Window>, full: Option<Window>, now: real) {
    entry == full || (entry.None? && Spent(full.value, now))
  }

  lemma CleanedEntry(sent: map<Fingerprint, Window>, fp: Fingerprint, now: real, evict: bool)
    ensures SameFor(Entry(Cleaned(sent, now, evict), fp), Entry(sent, fp), now)
  {
  }

  ghost predicate SameMaps(sent: map<Fingerprint, Window>, full: map<Fingerprint, Window>, now: real) {
    forall fp :: SameFor(Entry(sent, fp), Entry(full, fp), now)
  }

  lemma StepsAgree(sent: map<Fingerprint, Window>, full: map<Fingerprint, Window>, seen: real, a: Arrival)
    requires SameMaps(sent, full, seen) && seen <= a.now
    ensures OwnerDenies(sent, a.fp, a.now, true) <==> OwnerDenies(full, a.fp, a.now, false)
    ensures SameMaps(OwnerStep(sent, a.fp, a.now, true), OwnerStep(full, a.fp, a.now, false), a.now)
  {
    var sent', full' := OwnerStep(sent, a.fp, a.now, true), OwnerStep(full, a.fp, a.now, false);
    forall fp
      ensures SameFor(Entry(Cleaned(sent, a.now, true), fp), Entry(full, fp), a.now)
      ensures SameFor(Entry(sent', fp), Entry(full', fp), a.now)
    {
      CleanedEntry(sent, fp, a.now, true);
      assert SameFor(Entry(sent, fp), Entry(full, fp), seen);
    }
  }

  lemma {:induction false} RunsAgree(sent: map<Fingerprint, Window>, full: map<Fingerprint, Window>, seen: real,
                                     dms: seq<real>, arrivals: seq<Arrival>, fp: Fingerprint)
    requires SameMaps(sent, full, seen) && InOrder(arrivals, seen)
    ensures Dms(sent, dms, arrivals, fp, true) == Dms(full, dms, arrivals, fp, false)
    decreases |arrivals|
  {
    if arrivals != [] {
      var a := arrivals[0];
      StepsAgree(sent, full, seen, a);
      hide OwnerStep, OwnerDenies, SameMaps;
      var dms' := DmStep(sent, dms, a, fp, true);
      assert dms' == DmStep(full, dms, a, fp, false);
      RunsAgree(OwnerStep(sent, a.fp, a.now, true), OwnerStep(full, a.fp, a.now, false), a.now, dms',
                arrivals[1..], fp);
    }
  }

  /** The eviction at 1000 fingerprints never changes who is sent a DM. */
  lemma OwnerEvictionIsInvisible(arrivals: seq<Arrival>, start: real, fp: Fingerprint)
    requires InOrder(arrivals, start)
    ensures Dms(map[], [], arrivals, fp, true) == Dms(map[], [], arrivals, fp, false)
  {
    RunsAgree(map[], map[], start, [], arrivals, fp);
  }

  /** A fingerprint without an entry is as good as one whose window opens now. */
  predicate Ready(entry: Option<Window>, clock: real, dms: seq<real>) {
    match entry
    case None => TumblingWindow.Paced(OWNER_BUDGET, OWNER_WINDOW, clock, 0, clock, dms)
    case Some(w) => TumblingWindow.Paced(OWNER_BUDGET, OWNER_WINDOW, w.start, w.count, clock, dms)
  }

  lemma ReadyLater(entry: Option<Window>, clock: real, dms: seq<real>, now: real)
    requires Ready(entry, clock, dms) && clock <= now
    ensures Ready(entry, now, dms)
    ensures Ready(Some(Current(entry, now)), now, dms)
    ensures entry.Some? && Spent(entry.value, now) ==> Ready(None, now, dms)
  {
    match entry
    case None =>
    case Some(w) =>
      TumblingWindow.Waiting(OWNER_BUDGET, OWNER_WINDOW, w.start, w.count, clock, dms, now);
      if Spent(w, now) {
        TumblingWindow.Reopening(OWNER_BUDGET, OWNER_WINDOW, w.start, w.count, now, dms);
      }
  }

  lemma OwnerStepKeepsReady(sent: map<Fingerprint, Window>, clock: real, dms: seq<real>, a: Arrival, fp: Fingerprint,
                            evict: bool)
    requires Ready(Entry(sent, fp), clock, dms) && clock <= a.now
    ensures Ready(Entry(OwnerStep(sent, a.fp, a.now, evict), fp), a.now, DmStep(sent, dms, a, fp, evict))
  {
    hide TumblingWindow.Paced;
    var entry := Entry(Cleaned(sent, a.now, evict), fp);
    ReadyLater(Entry(sent, fp), clock, dms, a.now);
    CleanedEntry(sent, fp, a.now, evict);
    assert Ready(entry, a.now, dms);
    if a.fp == fp {
      ReadyLater(entry, a.now, dms, a.now);
      var w := Current(entry, a.now);
      if w.count < OWNER_BUDGET {
        TumblingWindow.Using(OWNER_BUDGET, OWNER_WINDOW, w.start, w.count, a.now, dms);
      }
    }
  }

  lemma {:induction false} RunKeepsReady(sent: map<Fingerprint, Window>, clock: real, dms: seq<real>,
                                         arrivals: seq<Arrival>, fp: Fingerprint, evict: bool, from: real)
    requires Ready(Entry(sent, fp), clock, dms) && InOrder(arrivals, clock)
    ensures CallsIn(Dms(sent, dms, arrivals, fp, evict), from, from + OWNER_WINDOW) <= 2 * OWNER_BUDGET
    decreases |arrivals|
  {
    if arrivals == [] {
      var w := Current(Entry(sent, fp), clock);
      ReadyLater(Entry(sent, fp), clock, dms, clock);
      TumblingWindow.PacedBound(OWNER_BUDGET, OWNER_WINDOW, w.start, w.count, clock, dms, from);
    } else {
      var a := arrivals[0];
      OwnerStepKeepsReady(sent, clock, dms, a, fp, evict);
      hide OwnerStep, OwnerDenies, Ready, DmStep;
      RunKeepsReady(OwnerStep(sent, a.fp, a.now, evict), a.now, DmStep(sent, dms, a, fp, evict),
                    arrivals[1..], fp, evict, from);
    }
  }

  /** The owner gets at most two budgets of DMs for one fingerprint in any hour. */
  lemma OwnerBudgetBound(arrivals: seq<Arrival>, start: real, fp: Fingerprint, from: real)
    requires InOrder(arrivals, start)
    ensures CallsIn(Dms(map[], [], arrivals, fp, true), from, from + OWNER_WINDOW) <= 6
  {
    RunKeepsReady(map[], start, [], arrivals, fp, true, from);
  }

  /* ----- Exactly when the owner is spared a DM ----- */

  /** Where the window of the last DM opened: at the first DM, and at each one that came a window
      or more after the opening before it. */
  function Opening(dms: seq<real>): (o: nat)
    requires dms != []
    ensures o < |dms|
  {
    var n := |dms| - 1;
    if n == 0 || dms[n] - dms[Opening(dms[..n])] >= OWNER_WINDOW then n else Opening(dms[..n])
  }

  /** The entry of a fingerprint says what its DMs say. */
  predicate Mirrors(entry: Option<Window>, dms: seq<real>, clock: real) {
    match entry
    case None => dms == [] || clock - dms[Opening(dms)] >= OWNER_WINDOW
    case Some(w) => dms != [] && w == Window(dms[Opening(dms)], |dms| - Opening(dms))
  }

  function OwnerRun(sent: map<Fingerprint, Window>, arrivals: seq<Arrival>): map<Fingerprint, Window>
    decreases |arrivals|
  {
    if arrivals == [] then sent else OwnerRun(OwnerStep(sent, arrivals[0].fp, arrivals[0].now, true), arrivals[1..])
  }

  lemma OwnerStepMirrors(sent: map<Fingerprint, Window>, clock: real, dms: seq<real>, a: Arrival, fp: Fingerprint)
    requires Mirrors(Entry(sent, fp), dms, clock) && clock <= a.now
    ensures Mirrors(Entry(OwnerStep(sent, a.fp, a.now, true), fp), DmStep(sent, dms, a, fp, true), a.now)
  {
    CleanedEntry(sent, fp, a.now, true);
    assert (dms + [a.now])[..|dms|] == dms;
  }

  lemma DeniesByMirror(sent: map<Fingerprint, Window>, clock: real, dms: seq<real>, fp: Fingerprint, now: real)
    requires Mirrors(Entry(sent, fp), dms, clock) && clock <= now
    ensures OwnerDenies(sent, fp, now, true) <==>
              dms != [] && |dms| - Opening(dms) >= OWNER_BUDGET && now < dms[Opening(dms)] + OWNER_WINDOW
  {
    CleanedEntry(sent, fp, now, true);
  }

  lemma {:induction false} RunMirrors(
      sent: map<Fingerprint, Window>, clock: real, dms: seq<real>, arrivals: seq<Arrival>, fp: Fingerprint, now: real)
    requires Mirrors(Entry(sent, fp), dms, clock) && InOrder(arrivals + [Arrival(fp, now)], clock)
    ensures var dms' := Dms(sent, dms, arrivals, fp, true);
            OwnerDenies(OwnerRun(sent, arrivals), fp, now, true) <==>
              dms' != [] && |dms'| - Opening(dms') >= OWNER_BUDGET && now < dms'[Opening(dms')] + OWNER_WINDOW
    decreases |arrivals|
  {
    var all := arrivals + [Arrival(fp, now)];
    if arrivals == [] {
      assert all[0] == Arrival(fp, now);
      DeniesByMirror(sent, clock, dms, fp, now);
    } else {
      var a := arrivals[0];
      assert all[0] == a && all[1..] == arrivals[1..] + [Arrival(fp, now)];
      OwnerStepMirrors(sent, clock, dms, a, fp);
      hide Mirrors, OwnerStep, OwnerDenies, DmStep, Opening;
      RunMirrors(OwnerStep(sent, a.fp, a.now, true), a.now, DmStep(sent, dms, a, fp, true), arrivals[1..], fp, now);
    }
  }

  /** In every run, cleanups included: a report is held back from the owner if and only if three
      DMs for its fingerprint were sent since the current window opened, less than an hour ago. */
  lemma OwnerDeniesExactlyWhen(arrivals: seq<Arrival>, start: real, fp: Fingerprint, now: real)
    requires InOrder(arrivals + [Arrival(fp, now)], start)
    ensures var dms := Dms(map[], [], arrivals, fp, true);
            OwnerDenies(OwnerRun(map[], arrivals), fp, now, true) <==>
              dms != [] && |dms| - Opening(dms) >= 3 && now < dms[Opening(dms)] + 3600.0
  {
    RunMirrors(map[], start, [], arrivals, fp, now);
  }
}
