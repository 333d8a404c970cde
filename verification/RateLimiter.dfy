// tcbot/modules/helper/decorators/ratelimit.py: the in-process deque limiter, the Redis
// sorted-set script, and the specification that both refine.
module RateLimiter {
  import opened TimeLog
  import opened Wrappers

  type User = int

  /** `max_calls` calls in a sliding window of `window` seconds. */
  datatype Limit = Limit(maxCalls: int, window: real) {
    predicate Valid() {
      maxCalls >= 1 && window > 0.0
    }
  }

  /* ----- Specification: the log of every recorded call of one user ----- */

  /** How many recorded calls are still inside the window at `now`. */
  function Recent(log: seq<real>, now: real, window: real): nat {
    if log == [] then 0 else (if now - log[0] < window then 1 else 0) + Recent(log[1..], now, window)
  }

  /** A call is recorded exactly when fewer than `maxCalls` are inside the window. */
  predicate Allows(log: seq<real>, now: real, l: Limit) {
    Recent(log, now, l.window) < l.maxCalls
  }

  function Logged(log: seq<real>, now: real, l: Limit): seq<real> {
    if Allows(log, now, l) then log + [now] else log
  }

  lemma {:induction false} RecentAppend(a: seq<real>, b: seq<real>, now: real, window: real)
    ensures Recent(a + b, now, window) == Recent(a, now, window) + Recent(b, now, window)
  {
    if a == [] {
      assert a + b == b;
    } else {
      assert (a + b)[1..] == a[1..] + b;
      RecentAppend(a[1..], b, now, window);
    }
  }

  lemma {:induction false} RecentNone(log: seq<real>, now: real, window: real)
    requires forall i :: 0 <= i < |log| ==> now - log[i] >= window
    ensures Recent(log, now, window) == 0
  {
    if log != [] {
      RecentNone(log[1..], now, window);
    }
  }

  lemma {:induction false} RecentAll(log: seq<real>, now: real, window: real)
    requires forall i :: 0 <= i < |log| ==> now - log[i] < window
    ensures Recent(log, now, window) == |log|
  {
    if log != [] {
      RecentAll(log[1..], now, window);
    }
  }

  /* ----- The stored part of a log ----- */

  /** `kept` is the log without a front of calls that had left the window by `seen`. */
  predicate Keeps(kept: seq<real>, log: seq<real>, seen: real, window: real) {
    && |kept| <= |log|
    && kept == log[|log| - |kept|..]
    && forall i :: 0 <= i < |log| - |kept| ==> seen - log[i] >= window
  }

  /** Drop expired stamps from the front. */
  function DropExpired(stamps: seq<real>, now: real, window: real): seq<real> {
    if stamps != [] && now - stamps[0] >= window then DropExpired(stamps[1..], now, window) else stamps
  }

  lemma {:induction false} DropExpiredKeeps(kept: seq<real>, log: seq<real>, seen: real, now: real, window: real)
    requires Keeps(kept, log, seen, window) && seen <= now
    ensures Keeps(DropExpired(kept, now, window), log, now, window)
    ensures var left := DropExpired(kept, now, window); left != [] ==> now - left[0] < window
    decreases |kept|
  {
    if kept != [] && now - kept[0] >= window {
      assert log[|log| - |kept|] == kept[0];
      assert Keeps(kept[1..], log, now, window);
      DropExpiredKeeps(kept[1..], log, now, now, window);
    }
  }

  /** Once its front is inside the window, what is stored is exactly what is recent. */
  lemma KeptIsRecent(kept: seq<real>, log: seq<real>, now: real, window: real)
    requires Keeps(kept, log, now, window) && Sorted(log)
    requires kept != [] ==> now - kept[0] < window
    ensures Recent(log, now, window) == |kept|
  {
    var k := |log| - |kept|;
    assert log == log[..k] + kept;
    RecentAppend(log[..k], kept, now, window);
    RecentNone(log[..k], now, window);
    forall i | 0 <= i < |kept|
      ensures now - kept[i] < window
    {
      assert kept[i] == log[k + i] && kept[0] == log[k];
    }
    RecentAll(kept, now, window);
  }

  lemma KeepsAppend(kept: seq<real>, log: seq<real>, now: real, window: real)
    requires Keeps(kept, log, now, window)
    ensures Keeps(kept + [now], log + [now], now, window)
  {
  }

  /* ----- One stored window, both ways ----- */

  /** What one user's deque becomes, and whether the call was recorded. */
  function DequeCheck(dq: seq<real>, now: real, l: Limit): (seq<real>, bool) {
    var left := DropExpired(dq, now, l.window);
    if left == [] then ([now], true)
    else if |left| >= l.maxCalls then (left, false)
    else (left + [now], true)
  }

  /** The value behind the Redis key: scores in order, members unique, and the expiry set
      by the last ZADD. */
  datatype RedisKey = RedisKey(scores: seq<real>, expiresAt: real)

  function Ceil(x: real): int {
    -((-x).Floor)
  }

  /** PEXPIRE: ceil(win * 1000) + 1000 milliseconds. */
  function Lifetime(window: real): real {
    (Ceil(window * 1000.0) + 1000) as real / 1000.0
  }

  /** The script: ZREMRANGEBYSCORE, ZCARD, and ZADD with PEXPIRE when there is room. */
  function ScriptCheck(key: Option<RedisKey>, now: real, l: Limit): (Option<RedisKey>, bool) {
    var live := key.Some? && now < key.value.expiresAt;
    var left := if live then DropExpired(key.value.scores, now, l.window) else [];
    if |left| < l.maxCalls then (Some(RedisKey(left + [now], now + Lifetime(l.window))), true)
    else (if live then Some(RedisKey(left, key.value.expiresAt)) else None, false)
  }

  /** The tenths of a second that the script returns to a denied call: the time until the oldest
      call leaves the window, rounded up, and at least one tenth. */
  function ScriptWait(left: seq<real>, now: real, l: Limit): (tenths: int)
    ensures var remaining := if left == [] then l.window else left[0] + l.window - now;
            IsRoundedUp(tenths, remaining) || (left != [] && remaining < 0.1 && tenths == 1)
  {
    if left != [] then
      var wait := l.window - (now - left[0]);
      Ceil((if wait < 0.1 then 0.1 else wait) * 10.0)
    else Ceil(l.window * 10.0)
  }

  /** As many tenths of a second as are needed to reach `x` seconds. */
  predicate IsRoundedUp(tenths: int, x: real) {
    x <= tenths as real / 10.0 < x + 0.1
  }

  predicate DequeRefines(dq: seq<real>, log: seq<real>, seen: real, l: Limit) {
    && Keeps(dq, log, seen, l.window) && Sorted(log) && UpTo(log, seen)
    && (dq != [] ==> dq[|dq| - 1] - dq[0] < l.window)
  }

  predicate KeyRefines(key: Option<RedisKey>, log: seq<real>, seen: real, l: Limit) {
    && Sorted(log) && UpTo(log, seen)
    && match key
       case None => Keeps([], log, seen, l.window)
       case Some(k) =>
         Keeps(k.scores, log, seen, l.window) && forall i :: 0 <= i < |log| ==> log[i] + l.window <= k.expiresAt
  }

  lemma LogStep(log: seq<real>, seen: real, now: real, l: Limit)
    requires Sorted(log) && UpTo(log, seen) && seen <= now
    ensures Sorted(Logged(log, now, l)) && UpTo(Logged(log, now, l), now)
  {
  }

  /** The deque limiter decides as the specification does. */
  lemma DequeStep(dq: seq<real>, log: seq<real>, seen: real, now: real, l: Limit)
    requires l.Valid() && DequeRefines(dq, log, seen, l) && seen <= now
    ensures DequeCheck(dq, now, l).1 == Allows(log, now, l)
    ensures DequeRefines(DequeCheck(dq, now, l).0, Logged(log, now, l), now, l)
  {
    var left := DropExpired(dq, now, l.window);
    DropExpiredKeeps(dq, log, seen, now, l.window);
    KeptIsRecent(left, log, now, l.window);
    KeepsAppend(left, log, now, l.window);
    LogStep(log, seen, now, l);
    assert left == [] ==> left + [now] == [now];
    assert left != [] ==> left[|left| - 1] == log[|log| - 1] <= now;
  }

  lemma LifetimeOutlastsWindow(window: real)
    ensures Lifetime(window) > window
  {
    var c := Ceil(window * 1000.0);
    assert c as real >= window * 1000.0;
  }

  /** A key that has expired held nothing but expired stamps. */
  lemma ExpiredKeyIsStale(key: Option<RedisKey>, log: seq<real>, seen: real, now: real, l: Limit)
    requires KeyRefines(key, log, seen, l) && seen <= now && (key.Some? ==> now >= key.value.expiresAt)
    ensures Keeps([], log, now, l.window)
  {
  }

  /** The stamps that the script finds once it has removed the expired ones. */
  function ScriptLeft(key: Option<RedisKey>, now: real, l: Limit): seq<real> {
    if key.Some? && now < key.value.expiresAt then DropExpired(key.value.scores, now, l.window) else []
  }

  lemma ScriptLeftIsRecent(key: Option<RedisKey>, log: seq<real>, seen: real, now: real, l: Limit)
    requires KeyRefines(key, log, seen, l) && seen <= now
    ensures Keeps(ScriptLeft(key, now, l), log, now, l.window)
    ensures ScriptLeft(key, now, l) != [] ==> now - ScriptLeft(key, now, l)[0] < l.window
    ensures Recent(log, now, l.window) == |ScriptLeft(key, now, l)|
  {
    if key.Some? && now < key.value.expiresAt {
      DropExpiredKeeps(key.value.scores, log, seen, now, l.window);
    } else {
      ExpiredKeyIsStale(key, log, seen, now, l);
    }
    KeptIsRecent(ScriptLeft(key, now, l), log, now, l.window);
  }

  lemma KeyRefinesIntro(kept: seq<real>, expiresAt: real, log: seq<real>, seen: real, l: Limit)
    requires Keeps(kept, log, seen, l.window) && Sorted(log) && UpTo(log, seen)
    requires forall i :: 0 <= i < |log| ==> log[i] + l.window <= expiresAt
    ensures KeyRefines(Some(RedisKey(kept, expiresAt)), log, seen, l)
  {
  }

  /** The script decides as the specification does, although the key may expire. */
  lemma ScriptStep(key: Option<RedisKey>, log: seq<real>, seen: real, now: real, l: Limit)
    requires l.Valid() && KeyRefines(key, log, seen, l) && seen <= now
    ensures ScriptCheck(key, now, l).1 == Allows(log, now, l)
    ensures KeyRefines(ScriptCheck(key, now, l).0, Logged(log, now, l), now, l)
  {
    var left := ScriptLeft(key, now, l);
    ScriptLeftIsRecent(key, log, seen, now, l);
    LogStep(log, seen, now, l);
    if |left| < l.maxCalls {
      LifetimeOutlastsWindow(l.window);
      KeepsAppend(left, log, now, l.window);
      KeyRefinesIntro(left + [now], now + Lifetime(l.window), log + [now], now, l);
    } else if left != [] {
      KeyRefinesIntro(left, key.value.expiresAt, log, now, l);
    }
  }

  /* ----- Whole runs ----- */

  function DequeRun(dq: seq<real>, times: seq<real>, l: Limit): seq<bool>
    decreases |times|
  {
    if times == [] then []
    else [DequeCheck(dq, times[0], l).1] + DequeRun(DequeCheck(dq, times[0], l).0, times[1..], l)
  }

  function ScriptRun(key: Option<RedisKey>, times: seq<real>, l: Limit): seq<bool>
    decreases |times|
  {
    if times == [] then []
    else [ScriptCheck(key, times[0], l).1] + ScriptRun(ScriptCheck(key, times[0], l).0, times[1..], l)
  }

  function SpecRun(log: seq<real>, times: seq<real>, l: Limit): seq<bool>
    decreases |times|
  {
    if times == [] then []
    else [Allows(log, times[0], l)] + SpecRun(Logged(log, times[0], l), times[1..], l)
  }

  lemma SortedTail(times: seq<real>)
    requires Sorted(times) && times != []
    ensures Sorted(times[1..]) && (times[1..] != [] ==> times[0] <= times[1..][0])
  {
  }

  lemma {:induction false} RunsRefineSpec(
      dq: seq<real>, key: Option<RedisKey>, log: seq<real>, seen: real, times: seq<real>, l: Limit)
    requires l.Valid() && DequeRefines(dq, log, seen, l) && KeyRefines(key, log, seen, l)
    requires Sorted(times) && (times != [] ==> seen <= times[0])
    ensures DequeRun(dq, times, l) == SpecRun(log, times, l) == ScriptRun(key, times, l)
    decreases |times|
  {
    hide DequeRefines, KeyRefines, Sorted, DequeCheck, ScriptCheck, Allows, Logged;
    if times != [] {
      var now := times[0];
      DequeStep(dq, log, seen, now, l);
      ScriptStep(key, log, seen, now, l);
      SortedTail(times);
      RunsRefineSpec(DequeCheck(dq, now, l).0, ScriptCheck(key, now, l).0, Logged(log, now, l), now, times[1..], l);
      RunStep(dq, key, log, times, l);
    }
  }

  lemma RunStep(dq: seq<real>, key: Option<RedisKey>, log: seq<real>, times: seq<real>, l: Limit)
    requires times != []
    ensures DequeRun(dq, times, l) ==
            [DequeCheck(dq, times[0], l).1] + DequeRun(DequeCheck(dq, times[0], l).0, times[1..], l)
    ensures ScriptRun(key, times, l) ==
            [ScriptCheck(key, times[0], l).1] + ScriptRun(ScriptCheck(key, times[0], l).0, times[1..], l)
    ensures SpecRun(log, times, l) == [Allows(log, times[0], l)] + SpecRun(Logged(log, times[0], l), times[1..], l)
  {
  }

  /** The two limiters record exactly the same calls of every nondecreasing sequence of
      timestamps: those that the specification records. */
  lemma BothLimitersRecordTheSameCalls(times: seq<real>, l: Limit)
    requires l.Valid() && Sorted(times)
    ensures DequeRun([], times, l) == ScriptRun(None, times, l) == SpecRun([], times, l)
  {
    if times != [] {
      RunsRefineSpec([], None, [], times[0], times, l);
    }
  }

  /** Without a quota they part at the first call: the deque limiter always starts a fresh
      bucket. */
  lemma NoQuotaSeparatesTheLimiters(now: real, l: Limit)
    requires l.maxCalls < 1 && l.window > 0.0
    ensures DequeRun([], [now], l) == [true] && ScriptRun(None, [now], l) == [false]
  {
  }

  /** So they agree on every nondecreasing sequence exactly when there is a quota. */
  lemma LimitersAgreeExactlyWhen(l: Limit)
    requires l.window > 0.0
    ensures (forall times :: Sorted(times) ==> DequeRun([], times, l) == ScriptRun(None, times, l)) <==> l.maxCalls >= 1
  {
    if l.maxCalls >= 1 {
      forall times | Sorted(times)
        ensures DequeRun([], times, l) == ScriptRun(None, times, l)
      {
        BothLimitersRecordTheSameCalls(times, l);
      }
    } else {
      NoQuotaSeparatesTheLimiters(0.0, l);
      assert Sorted([0.0]);
    }
  }

  /** How many of the recorded calls are still inside the window at `now`. */
  function Inside(times: seq<real>, recorded: seq<bool>, now: real, window: real): nat
    requires |times| == |recorded|
  {
    if times == [] then 0
    else (if recorded[0] && now - times[0] < window then 1 else 0) + Inside(times[1..], recorded[1..], now, window)
  }

  lemma {:induction false} SpecRunIsExact(log: seq<real>, times: seq<real>, l: Limit, i: nat)
    requires i < |times|
    ensures var a := SpecRun(log, times, l);
            && |a| == |times|
            && (a[i] <==>
                Recent(log, times[i], l.window) + Inside(times[..i], a[..i], times[i], l.window) < l.maxCalls)
    decreases |times|
  {
    var a, log' := SpecRun(log, times, l), Logged(log, times[0], l);
    var rest := SpecRun(log', times[1..], l);
    assert a == [Allows(log, times[0], l)] + rest;
    if i == 0 {
      if |times| > 1 {
        SpecRunIsExact(log', times[1..], l, 0);
      }
    } else {
      SpecRunIsExact(log', times[1..], l, i - 1);
      assert times[..i][1..] == times[1..][..i - 1] && a[..i][1..] == rest[..i - 1];
      assert times[1..][i - 1] == times[i] && rest[i - 1] == a[i];
      RecentAppend(log, [times[0]], times[i], l.window);
      assert [times[0]][1..] == [];
    }
  }

  /** Both limiters record a call if and only if fewer than the quota of the calls recorded
      before it are still inside the window. */
  lemma AnswersAreExact(times: seq<real>, l: Limit, i: nat)
    requires l.Valid() && Sorted(times) && i < |times|
    ensures var a := DequeRun([], times, l);
            && a == ScriptRun(None, times, l)
            && |a| == |times| && (a[i] <==> Inside(times[..i], a[..i], times[i], l.window) < l.maxCalls)
  {
    BothLimitersRecordTheSameCalls(times, l);
    SpecRunIsExact([], times, l, i);
  }

  /* ----- The sliding-window bound ----- */

  /** A window that holds a full quota denies. */
  lemma FullWindowDenies(log: seq<real>, seen: real, now: real, l: Limit)
    requires l.Valid() && Sorted(log) && UpTo(log, seen) && seen <= now
    ensures |log| >= l.maxCalls && now - log[|log| - l.maxCalls] < l.window ==> !Allows(log, now, l)
  {
    var k := |log| - l.maxCalls;
    if k >= 0 && now - log[k] < l.window {
      var young := log[k..];
      assert log == log[..k] + young;
      RecentAppend(log[..k], young, now, l.window);
      forall i | 0 <= i < |young|
        ensures now - young[i] < l.window
      {
        assert young[i] == log[k + i];
      }
      RecentAll(young, now, l.window);
    }
  }

  /** What the specification records stays spaced. */
  lemma LoggedIsSpaced(log: seq<real>, seen: real, now: real, l: Limit)
    requires l.Valid() && Sorted(log) && UpTo(log, seen) && seen <= now && Spaced(log, l.maxCalls, l.window)
    ensures Spaced(Logged(log, now, l), l.maxCalls, l.window)
  {
    hide Recent, Sorted, UpTo;
    FullWindowDenies(log, seen, now, l);
  }

  /** The log after a whole run. */
  function LogAfter(log: seq<real>, times: seq<real>, l: Limit): seq<real>
    decreases |times|
  {
    if times == [] then log else LogAfter(Logged(log, times[0], l), times[1..], l)
  }

  lemma {:induction false} LogAfterIsSpaced(log: seq<real>, seen: real, times: seq<real>, l: Limit)
    requires l.Valid() && Sorted(log) && UpTo(log, seen) && Spaced(log, l.maxCalls, l.window)
    requires Sorted(times) && (times != [] ==> seen <= times[0])
    ensures Sorted(LogAfter(log, times, l)) && Spaced(LogAfter(log, times, l), l.maxCalls, l.window)
    decreases |times|
  {
    if times != [] {
      LogStep(log, seen, times[0], l);
      LoggedIsSpaced(log, seen, times[0], l);
      assert times[1..] != [] ==> times[0] <= times[1..][0];
      LogAfterIsSpaced(Logged(log, times[0], l), times[0], times[1..], l);
    }
  }

  /** Any half-open interval as long as the window holds at most `maxCalls` recorded calls. */
  lemma SlidingWindowBound(times: seq<real>, l: Limit, from: real)
    requires l.Valid() && Sorted(times)
    ensures CallsIn(LogAfter([], times, l), from, from + l.window) <= l.maxCalls
  {
    if times != [] {
      LogAfterIsSpaced([], times[0], times, l);
      SpacedBound(LogAfter([], times, l), l.maxCalls, l.window, from);
    }
  }

  /* ----- Waits ----- */

  lemma RecentAtMostQuota(kept: seq<real>, log: seq<real>, now: real, l: Limit)
    requires l.Valid() && Keeps(kept, log, now, l.window)
    requires Sorted(log) && UpTo(log, now) && Spaced(log, l.maxCalls, l.window)
    requires kept != [] ==> now - kept[0] < l.window
    ensures |kept| <= l.maxCalls
  {
    SpacedAt(log, |log| - |kept| + l.maxCalls, l.maxCalls, l.window);
    assert kept != [] ==> kept[0] == log[|log| - |kept|];
  }

  /** The key, and the log of recorded calls, after a whole run of the script. */
  function KeyAfter(key: Option<RedisKey>, times: seq<real>, l: Limit): Option<RedisKey>
    decreases |times|
  {
    if times == [] then key else KeyAfter(ScriptCheck(key, times[0], l).0, times[1..], l)
  }

  predicate FromTo(times: seq<real>, from: real, to: real) {
    Sorted(times) && forall i :: 0 <= i < |times| ==> from <= times[i] <= to
  }

  /** Every call of the run is denied. */
  predicate AllDenied(key: Option<RedisKey>, times: seq<real>, l: Limit) {
    forall i :: 0 <= i < |ScriptRun(key, times, l)| ==> !ScriptRun(key, times, l)[i]
  }

  lemma {:induction false} KeyAfterRefines(
      key: Option<RedisKey>, log: seq<real>, seen: real, times: seq<real>, l: Limit, to: real)
    requires l.Valid() && KeyRefines(key, log, seen, l) && Spaced(log, l.maxCalls, l.window)
    requires seen <= to && FromTo(times, seen, to)
    ensures KeyRefines(KeyAfter(key, times, l), LogAfter(log, times, l), to, l)
    ensures Spaced(LogAfter(log, times, l), l.maxCalls, l.window)
    decreases |times|
  {
    if times == [] {
      KeyRefinesLater(key, log, seen, to, l);
    } else {
      var now := times[0];
      ScriptStep(key, log, seen, now, l);
      LoggedIsSpaced(log, seen, now, l);
      assert FromTo(times[1..], now, to);
      hide *;
      KeyAfterRefines(ScriptCheck(key, now, l).0, Logged(log, now, l), now, times[1..], l, to);
      AfterStep(key, log, times, l);
    }
  }

  lemma AfterStep(key: Option<RedisKey>, log: seq<real>, times: seq<real>, l: Limit)
    requires times != []
    ensures KeyAfter(key, times, l) == KeyAfter(ScriptCheck(key, times[0], l).0, times[1..], l)
    ensures LogAfter(log, times, l) == LogAfter(Logged(log, times[0], l), times[1..], l)
  {
  }

  lemma KeyRefinesLater(key: Option<RedisKey>, log: seq<real>, seen: real, now: real, l: Limit)
    requires KeyRefines(key, log, seen, l) && seen <= now
    ensures KeyRefines(key, log, now, l)
  {
  }

  /** Denied calls leave the log alone, whatever they remove from the key. */
  lemma {:induction false} DeniedCallsKeepTheLog(
      key: Option<RedisKey>, log: seq<real>, seen: real, times: seq<real>, l: Limit, to: real)
    requires l.Valid() && KeyRefines(key, log, seen, l) && seen <= to && FromTo(times, seen, to)
    requires AllDenied(key, times, l)
    ensures KeyRefines(KeyAfter(key, times, l), log, to, l)
    decreases |times|
  {
    if times == [] {
      KeyRefinesLater(key, log, seen, to, l);
    } else {
      var now := times[0];
      var denials := ScriptRun(key, times, l);
      var key' := ScriptCheck(key, now, l).0;
      assert denials[0] == ScriptCheck(key, now, l).1;
      assert denials[1..] == ScriptRun(key', times[1..], l);
      ScriptStep(key, log, seen, now, l);
      assert FromTo(times[1..], now, to);
      DeniedCallsKeepTheLog(key', log, now, times[1..], l, to);
    }
  }

  lemma {:induction false} RecentAtMostAll(log: seq<real>, now: real, window: real)
    ensures Recent(log, now, window) <= |log|
  {
    if log != [] {
      RecentAtMostAll(log[1..], now, window);
    }
  }

  /** Once the k-th call has left the window, only the younger ones can be inside. */
  lemma RecentAfter(log: seq<real>, k: nat, now: real, window: real)
    requires Sorted(log) && k < |log| && now - log[k] >= window
    ensures Recent(log, now, window) <= |log| - k - 1
  {
    var gone, rest := log[..k + 1], log[k + 1..];
    assert log == gone + rest;
    RecentAppend(gone, rest, now, window);
    forall i | 0 <= i < |gone|
      ensures now - gone[i] >= window
    {
      assert gone[i] == log[i] <= log[k];
    }
    RecentNone(gone, now, window);
    RecentAtMostAll(rest, now, window);
  }

  /** After the returned wait the oldest call of the window has left it. */
  lemma WaitFreesASlot(key: Option<RedisKey>, log: seq<real>, seen: real, now: real, later: real, l: Limit)
    requires l.Valid() && KeyRefines(key, log, seen, l) && Spaced(log, l.maxCalls, l.window) && seen <= now
    requires !ScriptCheck(key, now, l).1
    requires later >= now + ScriptWait(ScriptLeft(key, now, l), now, l) as real / 10.0
    ensures later > now && Allows(log, later, l)
  {
    hide Recent, Spaced, DropExpired;
    var left := ScriptLeft(key, now, l);
    ScriptLeftIsRecent(key, log, seen, now, l);
    assert Sorted(log) && UpTo(log, now);
    RecentAtMostQuota(left, log, now, l);
    assert later - left[0] >= l.window;
    assert left[0] == log[|log| - |left|];
    RecentAfter(log, |log| - |left|, later, l.window);
  }

  /** A retry after the wait that the script returned is always recorded: in every run of the
      script, however many calls are denied between the denial and the retry, as long as none
      of them is recorded. */
  lemma ScriptRetryIsRecorded(before: seq<real>, now: real, between: seq<real>, later: real, l: Limit)
    requires l.Valid() && Sorted(before + [now] + between + [later])
    requires var key := KeyAfter(None, before, l);
             && !ScriptCheck(key, now, l).1
             && AllDenied(ScriptCheck(key, now, l).0, between, l)
             && later >= now + ScriptWait(ScriptLeft(key, now, l), now, l) as real / 10.0
    ensures ScriptCheck(KeyAfter(ScriptCheck(KeyAfter(None, before, l), now, l).0, between, l), later, l).1
  {
    var times := before + [now] + between + [later];
    var n := |before|;
    assert times[n] == now && times[|times| - 1] == later;
    assert FromTo(between, now, later) by {
      forall i, j | 0 <= i < j < |between| ensures between[i] <= between[j] {
        assert times[n + 1 + i] == between[i] && times[n + 1 + j] == between[j];
      }
      forall i | 0 <= i < |between| ensures now <= between[i] <= later {
        assert times[n + 1 + i] == between[i];
      }
    }
    var key, log := KeyAfter(None, before, l), LogAfter([], before, l);
    var seen := if before == [] then now else before[0];
    assert FromTo(before, seen, now) by {
      forall i, j | 0 <= i <= j < |before| ensures before[i] <= before[j] <= now {
        assert times[i] == before[i] && times[j] == before[j];
      }
    }
    KeyAfterRefines(None, [], seen, before, l, now);
    ScriptStep(key, log, now, now, l);
    WaitFreesASlot(key, log, now, now, later, l);
    var denied := ScriptCheck(key, now, l).0;
    DeniedCallsKeepTheLog(denied, log, now, between, l, later);
    ScriptStep(KeyAfter(denied, between, l), log, later, later, l);
  }

  /** `round(x, 1)` in tenths: the nearest one, halves to even. */
  function RoundTenths(x: real): (tenths: int)
    ensures -0.5 <= tenths as real - 10.0 * x <= 0.5
    ensures tenths as real - 10.0 * x in {-0.5, 0.5} ==> tenths % 2 == 0
  {
    var f := (x * 10.0).Floor;
    var rest := x * 10.0 - f as real;
    if rest < 0.5 || (rest == 0.5 && f % 2 == 0) then f else f + 1
  }

  /** The tenths of a second that the deque limiter returns to a denied call. */
  function DequeWait(left: seq<real>, now: real, l: Limit): int
    requires left != []
  {
    RoundTenths(l.window - (now - left[0]))
  }

  /** A call that the deque limiter denies is told to wait 0.0 seconds, which callers read
      as allowed, exactly when its oldest slot frees up within a twentieth of a second. */
  lemma DeniedCallSeesZeroExactlyWhen(dq: seq<real>, now: real, l: Limit)
    requires l.Valid() && !DequeCheck(dq, now, l).1
    ensures var left := DropExpired(dq, now, l.window);
            left != [] && (DequeWait(left, now, l) == 0 <==> l.window - (now - left[0]) <= 0.05)
  {
    FrontIsFresh(dq, now, l.window);
  }

  /** One call per second, the second one 0.96 s after the first: denied, and told to wait 0.0. */
  lemma ZeroReplyExample()
    ensures var l := Limit(1, 1.0);
            var dq := DequeCheck([], 0.0, l).0;
            && DequeRun([], [0.0, 0.96], l) == [true, false]
            && DropExpired(dq, 0.96, l.window) == [0.0] && DequeWait([0.0], 0.96, l) == 0
  {
    var l := Limit(1, 1.0);
    assert DequeCheck([], 0.0, l) == ([0.0], true);
    assert DequeCheck([0.0], 0.96, l) == ([0.0], false);
    assert [0.0, 0.96][1..] == [0.96] && [0.96][1..] == [];
    assert DequeRun([0.0], [0.96], l) == [false] + DequeRun([0.0], [], l);
    assert (0.04 * 10.0).Floor == 0;
  }

  lemma {:induction false} FrontIsFresh(stamps: seq<real>, now: real, window: real)
    ensures var left := DropExpired(stamps, now, window); left != [] ==> now - left[0] < window
  {
    if stamps != [] && now - stamps[0] >= window {
      FrontIsFresh(stamps[1..], now, window);
    }
  }

  /* ----- The in-process limiter with all its users ----- */

  const CLEANUP_THRESHOLD: nat := 10_000

  lemma CleanupIsInvisible(dq: seq<real>, log: seq<real>, now: real, l: Limit)
    requires l.Valid() && DequeRefines(dq, log, now, l)
    requires dq == [] || dq[0] <= now - 2.0 * l.window
    ensures DequeRefines([], log, now, l)
  {
    if dq != [] {
      assert dq[|dq| - 1] == log[|log| - 1];
      forall i | 0 <= i < |log|
        ensures now - log[i] >= l.window
      {
        assert log[i] <= log[|log| - 1];
      }
    }
  }

  lemma RefinesLater(dq: seq<real>, log: seq<real>, seen: real, now: real, l: Limit)
    requires DequeRefines(dq, log, seen, l) && seen <= now
    ensures DequeRefines(dq, log, now, l)
  {
  }

  function StampsOf(m: map<User, seq<real>>, uid: User): seq<real> {
    if uid in m then m[uid] else []
  }

  /** Other users' buckets stay, except that a user's first call beyond the threshold drops those
      that are empty or start no later than the cutoff. */
  ghost predicate OthersKept(before: map<User, seq<real>>, after: map<User, seq<real>>, uid: User, cutoff: real) {
    var cleans := uid !in before && |before| >= CLEANUP_THRESHOLD;
    && (forall o :: o in after && o != uid ==> o in before && after[o] == before[o])
    && (forall o :: o in before && o != uid ==>
          (o in after <==> (cleans ==> before[o] != [] && before[o][0] > cutoff)))
  }

  class DequeLimiter {
    const limit: Limit
    var buckets: map<User, seq<real>>
    /** Every recorded call, and the latest clock reading. */
    ghost var logs: map<User, seq<real>>
    ghost var seen: real

    ghost predicate Valid()
      reads this
    {
      limit.Valid() && Refines(buckets, logs, seen, limit)
    }

    constructor (limit: Limit, start: real)
      requires limit.Valid()
      ensures Valid() && logs == map[] && seen == start && this.limit == limit
    {
      this.limit := limit;
      buckets, logs, seen := map[], map[], start;
    }

    /** `check`, in tenths of a second. What is recorded depends on the user's own recorded
        calls alone, whatever other users did and whatever the cleanup removed. */
    method Check(uid: User, now: real) returns (wait: int)
      requires Valid() && seen <= now
      modifies this
      ensures Valid() && seen == now
      ensures OthersKept(old(buckets), buckets, uid, now - 2.0 * limit.window)
      ensures logs == old(logs)[uid := Logged(StampsOf(old(logs), uid), now, limit)]
      ensures var log := StampsOf(old(logs), uid);
              var recent := Recent(log, now, limit.window);
              if Allows(log, now, limit) then wait == 0
              else 0 < recent <= |log| && wait == RoundTenths(limit.window - (now - log[|log| - recent]))
    {
      hide DequeRefines, Keeps, Sorted, UpTo, Refines, OthersKept;
      ghost var log := StampsOf(logs, uid);
      CheckDecides(buckets, logs, seen, limit, uid, now);
      CheckRefines(buckets, logs, seen, limit, uid, now);
      CheckKeepsOthers(buckets, uid, now, DequeCheck(StampsOf(buckets, uid), now, limit).0, now - 2.0 * limit.window);
      logs, seen := logs[uid := Logged(log, now, limit)], now;
      if uid !in buckets {
        buckets := buckets[uid := [now]];
        if |buckets| > CLEANUP_THRESHOLD {
          var cutoff := now - 2.0 * limit.window;
          CleanupRefines(buckets, logs, now, limit);
          buckets := map k | k in buckets && buckets[k] != [] && buckets[k][0] > cutoff :: buckets[k];
        }
        return 0;
      }
      var dq := buckets[uid];
      while dq != [] && now - dq[0] >= limit.window
        invariant DropExpired(dq, now, limit.window) == DropExpired(buckets[uid], now, limit.window)
      {
        dq := dq[1..];
      }
      if dq == [] {
        buckets := buckets[uid := [now]];
        return 0;
      }
      if |dq| >= limit.maxCalls {
        wait := RoundTenths(limit.window - (now - dq[0]));
        buckets := buckets[uid := dq];
        return;
      }
      buckets := buckets[uid := dq + [now]];
      return 0;
    }
  }

  /** The bucket without what has expired is the end of the user's log, and decides as the log. */
  lemma CheckDecides(
      buckets: map<User, seq<real>>, logs: map<User, seq<real>>, seen: real, l: Limit, uid: User, now: real)
    requires l.Valid() && Refines(buckets, logs, seen, l) && seen <= now
    ensures var dq, log := StampsOf(buckets, uid), StampsOf(logs, uid);
            var left := DropExpired(dq, now, l.window);
            && |left| == Recent(log, now, l.window) <= |log|
            && (left != [] ==> left[0] == log[|log| - |left|])
            && DequeCheck(dq, now, l).1 == Allows(log, now, l)
  {
    var dq, log := StampsOf(buckets, uid), StampsOf(logs, uid);
    DropExpiredKeeps(dq, log, seen, now, l.window);
    KeptIsRecent(DropExpired(dq, now, l.window), log, now, l.window);
    DequeStep(dq, log, seen, now, l);
  }

  lemma CheckKeepsOthers(buckets: map<User, seq<real>>, uid: User, now: real, dq: seq<real>, cutoff: real)
    ensures uid in buckets ==> OthersKept(buckets, buckets[uid := dq], uid, cutoff)
    ensures var more := buckets[uid := [now]];
            uid !in buckets ==>
              OthersKept(buckets,
                         if |more| > CLEANUP_THRESHOLD then
                           map k | k in more && more[k] != [] && more[k][0] > cutoff :: more[k]
                         else more,
                         uid, cutoff)
  {
    if uid !in buckets {
      assert |buckets[uid := [now]]| == |buckets| + 1;
    }
  }

  /** Every bucket refines the log of its user; a missing bucket counts as an empty one. */
  ghost predicate Refines(buckets: map<User, seq<real>>, logs: map<User, seq<real>>, seen: real, l: Limit) {
    forall uid :: DequeRefines(StampsOf(buckets, uid), StampsOf(logs, uid), seen, l)
  }

  lemma CheckRefines(
      buckets: map<User, seq<real>>, logs: map<User, seq<real>>, seen: real, l: Limit, uid: User, now: real)
    requires l.Valid() && Refines(buckets, logs, seen, l) && seen <= now
    ensures Refines(buckets[uid := DequeCheck(StampsOf(buckets, uid), now, l).0],
                    logs[uid := Logged(StampsOf(logs, uid), now, l)], now, l)
  {
    hide DequeRefines, DequeCheck, Logged;
    var buckets' := buckets[uid := DequeCheck(StampsOf(buckets, uid), now, l).0];
    var logs' := logs[uid := Logged(StampsOf(logs, uid), now, l)];
    forall o
      ensures DequeRefines(StampsOf(buckets', o), StampsOf(logs', o), now, l)
    {
      if o == uid {
        DequeStep(StampsOf(buckets, uid), StampsOf(logs, uid), seen, now, l);
      } else {
        RefinesLater(StampsOf(buckets, o), StampsOf(logs, o), seen, now, l);
      }
    }
  }

  lemma CleanupRefines(buckets: map<User, seq<real>>, logs: map<User, seq<real>>, now: real, l: Limit)
    requires l.Valid() && Refines(buckets, logs, now, l)
    ensures Refines(map k | k in buckets && buckets[k] != [] && buckets[k][0] > now - 2.0 * l.window :: buckets[k],
                    logs, now, l)
  {
    var left := map k | k in buckets && buckets[k] != [] && buckets[k][0] > now - 2.0 * l.window :: buckets[k];
    forall o
      ensures DequeRefines(StampsOf(left, o), StampsOf(logs, o), now, l)
    {
      if o !in left {
        CleanupIsInvisible(StampsOf(buckets, o), StampsOf(logs, o), now, l);
      }
    }
  }

  /* ----- The Redis side with all its users ----- */

  function KeyOf(keys: map<User, RedisKey>, uid: User): Option<RedisKey> {
    if uid in keys then Some(keys[uid]) else None
  }

  ghost predicate KeysRefine(keys: map<User, RedisKey>, logs: map<User, seq<real>>, seen: real, l: Limit) {
    forall uid :: KeyRefines(KeyOf(keys, uid), StampsOf(logs, uid), seen, l)
  }

  class ScriptLimiter {
    const limit: Limit
    var keys: map<User, RedisKey>
    ghost var logs: map<User, seq<real>>
    ghost var seen: real

    ghost predicate Valid()
      reads this
    {
      limit.Valid() && KeysRefine(keys, logs, seen, limit)
    }

    constructor (limit: Limit, start: real)
      requires limit.Valid()
      ensures Valid() && logs == map[] && seen == start && this.limit == limit
    {
      this.limit := limit;
      keys, logs, seen := map[], map[], start;
    }

    /** One EVAL of the script; the result is in tenths of a second. */
    method Eval(uid: User, now: real) returns (result: int)
      requires Valid() && seen <= now
      modifies this
      ensures Valid() && seen == now
      ensures logs == old(logs)[uid := Logged(StampsOf(old(logs), uid), now, limit)]
      ensures var log := StampsOf(old(logs), uid);
              var recent := Recent(log, now, limit.window);
              if Allows(log, now, limit) then result == 0
              else 0 < recent <= |log| && WaitsFor(result, log[|log| - recent] + limit.window - now)
    {
      hide KeyRefines, KeysRefine, ScriptCheck, ScriptLeft, ScriptWait, Logged, Allows;
      ghost var log := StampsOf(logs, uid);
      ScriptOldest(keys, logs, seen, limit, uid, now);
      var (key, recorded) := ScriptCheck(KeyOf(keys, uid), now, limit);
      ScriptStores(KeyOf(keys, uid), now, limit);
      EvalRefines(keys, logs, seen, limit, uid, now);
      logs, seen := logs[uid := Logged(log, now, limit)], now;
      keys := keys[uid := key.value];
      if recorded {
        return 0;
      }
      result := ScriptWait(key.value.scores, now, limit);
    }
  }

  lemma ScriptStores(key: Option<RedisKey>, now: real, l: Limit)
    requires l.Valid()
    ensures ScriptCheck(key, now, l).0.Some?
    ensures ScriptCheck(key, now, l).0.value.scores != []
    ensures !ScriptCheck(key, now, l).1 ==> ScriptCheck(key, now, l).0.value.scores == ScriptLeft(key, now, l)
  {
  }

  /** The reply to a denied call: the remaining time rounded up to tenths, and at least one. */
  predicate WaitsFor(tenths: int, remaining: real) {
    tenths >= 1 && (IsRoundedUp(tenths, remaining) || (remaining < 0.1 && tenths == 1))
  }

  /** What the script finds is the end of the user's log, and the wait is that of its first call. */
  lemma ScriptOldest(keys: map<User, RedisKey>, logs: map<User, seq<real>>, seen: real, l: Limit, uid: User, now: real)
    requires KeysRefine(keys, logs, seen, l) && seen <= now
    ensures var left, log := ScriptLeft(KeyOf(keys, uid), now, l), StampsOf(logs, uid);
            var recent := Recent(log, now, l.window);
            && recent == |left| <= |log|
            && (left != [] ==> WaitsFor(ScriptWait(left, now, l), log[|log| - recent] + l.window - now))
  {
    ScriptLeftIsRecent(KeyOf(keys, uid), StampsOf(logs, uid), seen, now, l);
  }

  lemma EvalRefines(keys: map<User, RedisKey>, logs: map<User, seq<real>>, seen: real, l: Limit, uid: User, now: real)
    requires l.Valid() && KeysRefine(keys, logs, seen, l) && seen <= now
    requires ScriptCheck(KeyOf(keys, uid), now, l).0.Some?
    ensures KeysRefine(keys[uid := ScriptCheck(KeyOf(keys, uid), now, l).0.value],
                       logs[uid := Logged(StampsOf(logs, uid), now, l)], now, l)
    ensures ScriptCheck(KeyOf(keys, uid), now, l).1 == Allows(StampsOf(logs, uid), now, l)
  {
    hide KeyRefines, ScriptCheck, Logged, Allows;
    var keys' := keys[uid := ScriptCheck(KeyOf(keys, uid), now, l).0.value];
    var logs' := logs[uid := Logged(StampsOf(logs, uid), now, l)];
    assert KeyRefines(KeyOf(keys, uid), StampsOf(logs, uid), seen, l);
    ScriptStep(KeyOf(keys, uid), StampsOf(logs, uid), seen, now, l);
    forall o
      ensures KeyRefines(KeyOf(keys', o), StampsOf(logs', o), now, l)
    {
      if o != uid {
        assert KeyRefines(KeyOf(keys, o), StampsOf(logs, o), seen, l);
        KeyLater(KeyOf(keys, o), StampsOf(logs, o), seen, now, l);
      }
    }
  }

  lemma KeyLater(key: Option<RedisKey>, log: seq<real>, seen: real, now: real, l: Limit)
    requires KeyRefines(key, log, seen, l) && seen <= now
    ensures KeyRefines(key, log, now, l)
  {
  }
}
