# A Dafny model of the bot's protocols

The federation bot keeps its promises through eight small mechanisms: a template compiler for
Telegram MarkdownV2, a single-owner lease for the MTProto session, a circuit breaker with a
bounded dispatcher, two rate limiters, a two-level cache with an ordered Redis queue, warn
counters next to a warn history, the reconciliation of memberships, and the error-report
throttle. This project models each of them and proves what it is for, over every input, every
run or every interleaving.

Check everything with `dafny verify dfyconfig.toml`.

How the model is built:

- Code that computes values is modelled by functions over datatypes. Objects and module
  globals that the source updates are classes, whose methods are proved equal to functions of
  the old state; the promises are then lemmas about these functions and about runs of them.
- A coroutine is cut at its awaits. The pieces are the steps of a state machine; a run is any
  sequence of enabled steps, and a theorem about runs quantifies over all of them. Crashes,
  cancellations, timeouts that took effect nevertheless and lost writes are steps too.
- MongoDB, Redis and Telegram are maps with atomic operations. Clocks and the answers of the
  outside world are parameters. Time is `real`, or `int` where only differences matter.
- MarkdownV2 has a display semantics of its own (`Formatter.Display`), written from the
  "MarkdownV2 style" section of the Telegram Bot API: what a client shows, or that the server
  rejects the message.

| file | models |
|---|---|
| Formatter, TemplateEngine, Rendering | escape tables, bold and code; the template scanner and its grammar; both rendering targets and `t` |
| Lease, LeaseProtocol | the lease row with its retries; many processes, one clock, crashes |
| CircuitBreaker, Dispatch | the breaker; `fan_out`, `gather_bounded`, `throw_if_cancelled` |
| RateLimiter | the deque limiter, the Lua script with its key expiry, their common specification |
| MutationQueue, SingleFlight, Staleness, Codec | the ordered queue; `get_or_fetch` under concurrency and over time; the tagged JSON codec |
| Warns, WarnRace, WarnMigration | the two collections and every operation; racing upserts; interleaved and crashing migrations |
| Syncing, Reconciliation | the pair functions, `take_pairs`, `_summarize`; the sweep and the check of one user |
| TimeLog, TumblingWindow, ErrorThrottle, ReporterState | logs of moments, shared with the rate limiter; the tumbling budget; the throttled channel; deduplication and the owner's budget |

## Where the code and its promise differ

Each line names the lemmas that give an input for which the promise fails, the condition under
which the code keeps it, or both in one.

- A negative number goes through unescaped, so the MarkdownV2 message is rejected, and `Safe`
  markup keeps its markers in plain mode (`Rendering.NegativeNumberExample`,
  `Rendering.SafeMarkupExample`); the exact condition is `Rendering.TargetsAgreeExactlyWhen`.
- The `[key]` reply for a missing key is never shown as MarkdownV2
  (`Rendering.MissingKeyIsNeverShown`); exactly then `t` does not preserve meaning
  (`Rendering.TranslationPreservesMeaning`).
- A swallowed write concern error behind which the insert was lost lets two processes hold the
  lease (`LeaseProtocol.SwallowedLossBreaksExclusion`), exactly while that claim has not run out
  (`LeaseProtocol.SwallowedLossHurtsExactlyWhen`); and so does a heartbeat that lands after a
  younger one, exactly then (`LeaseProtocol.LateHeartbeatHurtsExactlyWhen`).
- A call that was admitted while the circuit was closed can end the probe of another one
  (`CircuitBreaker.AnyEventEndsTheProbe`); between two events there is one probe at most
  (`CircuitBreaker.OneProbeBetweenEvents`).
- The deque limiter tells a denied call to wait 0.0 seconds exactly when its slot frees up within
  a twentieth of a second (`RateLimiter.DeniedCallSeesZeroExactlyWhen`,
  `RateLimiter.ZeroReplyExample`); the two limiters agree exactly when there is a quota
  (`RateLimiter.LimitersAgreeExactlyWhen`).
- A mutation that is cancelled before its first step takes the tail of the queue with it
  (`MutationQueue.EarlyCancelBreaksTheOrder`): the order of endings is lost exactly when what it
  would await has not ended (`MutationQueue.EarlyCancelKeepsOrderExactlyWhen`), and Redis can show
  it exactly when something ahead of it can still act
  (`MutationQueue.EarlyCancelShowsExactlyWhen`).
- A cancelled waiter pops the lock of the fetching caller
  (`SingleFlight.CancelledWaiterBreaksSingleFlight`); exactly which cancellations hurt is
  `SingleFlight.CancellationHurtsExactlyWhen`, and how much, from any state,
  `SingleFlight.MostFetchesIsExact`.
- The staleness bound needs the latency of the Redis GET besides the fetch, the queue and the
  two lifetimes, exactly when it and the Redis TTL are positive (`Staleness.GetLatencyCounts`).
- A dict with the form of a tagged scalar comes back as that scalar, and nothing else changes
  (`Codec.RoundTripExactlyWhenGenuine`).
- A failing call can leave a history without its counter (`Warns.FailedRollbackExample`);
  `Warns.CoverIsLostExactlyWhen` has the exact list.
- The second upsert attempt of a warn can fail as well if somebody clears in between
  (`WarnRace.ClearBreaksTheRetry`), although `tcbot/database/warns_db/counters.py:45` says it
  cannot; exactly which clears matter is `WarnRace.NobodyGivesUp` and
  `WarnRace.ClearInTheGapExactlyWhen`.
- A take that merely fails, without a crash, loses the count to the final delete
  (`WarnMigration.FailedTakeLosesTheCount`); exactly when a count is kept is
  `WarnMigration.CountIsKeptExactlyWhen`. Migrating a chat to itself deletes its counters
  (`Warns.MigrationKeepsFederationCountExactly`).
- A sweep with a budget of zero or less reports that nothing was truncated
  (`Reconciliation.ZeroBudgetExample`, `Reconciliation.FlagIsTrueExactlyWhen`); the check of a
  muted user drops the mute replay silently when there are exactly 200 groups
  (`Reconciliation.SilentReplayExample`, `Reconciliation.CheckFlagIsTrueExactlyWhen`).
- Two reports with one fingerprint can pass at one moment after an eviction
  (`ReporterState.EvictionLetsARepeatPass`), though never with fewer than 900 others in between
  (`ReporterState.OneReportPerIncident`). Deduplication fails exactly when the cap is hit
  (`ReporterState.DedupeFailsExactlyWhen`); below it, it is exact
  (`ReporterState.DedupeIsExactBelowTheCap`).

## Model

| member | source | states |
|---|---|---|
| Formatter.EscapedTextShows | tcbot/utils/formatter.py:39-41 | Escaped text is shown as the text itself, in regular text, bold and code, whatever follows it |
| Formatter.BoldShows | tcbot/utils/formatter.py:44-51 | A bold span shows exactly its text and leaves the reader in regular text |
| Formatter.CodeShows | tcbot/utils/formatter.py:63-71 | A code span shows exactly its text and leaves the reader in regular text |
| TemplateEngine.ScanPrint | tcbot/utils/i18n.py:194-248 | Scanning the printed form of any normalized token list gives that list back |
| TemplateEngine.PrintScan | tcbot/utils/i18n.py:194-248 | What the scanner returns is normalized and prints back to the template |
| TemplateEngine.ScannerAcceptsExactlyTheGrammar | tcbot/utils/i18n.py:188-248 | The scanner accepts a string if and only if it is the print of some normalized token list over the known fields |
| TemplateEngine.ScanFailsExactlyWhen | tcbot/utils/i18n.py:188-248 | The scanner reports an error if and only if the template is a well-formed one followed by the fault that the error names: an unclosed mark or brace, an empty span, braces or nesting in a span, a bad or missing field |
| TemplateEngine.FieldNames | tcbot/utils/i18n.py:23 | Field names are the nonempty strings of ASCII letters, digits and underscores that do not begin with a digit |
| Rendering.RenderTemplate | tcbot/utils/i18n.py:166-248 | The one-pass loop gives the scan's error, or the rendering of the scanned tokens |
| Rendering.TargetsAcceptTheSameTemplates | tcbot/utils/i18n.py:148-248 | Both targets accept exactly the grammatical templates whose values are all present, and fail with the same error |
| Rendering.MarkdownShowsTheMeaning | tcbot/utils/i18n.py:166-248 | The MarkdownV2 output shows the template's meaning, unless a negative number makes it invalid |
| Rendering.TargetsAgreeExactlyWhen | tcbot/utils/i18n.py:148-248 | Showing the MarkdownV2 output gives the plain output if and only if no negative number and no non-empty Safe markup is used |
| Rendering.RenderingPreservesMeaning | tcbot/utils/i18n.py:148-248 | For text, flags and non-negative numbers, both targets accept the same templates and showing MarkdownV2 gives the plain output |
| Rendering.NegativeNumberExample | tcbot/utils/i18n.py:160-161 | A negative number is fine in plain mode and rejected as MarkdownV2 |
| Rendering.SafeMarkupExample | tcbot/utils/i18n.py:154-155 | Bold Safe markup shows its text as MarkdownV2 and its markers in plain mode |
| Rendering.NatTextRoundTrip | tcbot/utils/i18n.py:160-161 | The text of a non-negative number reads back as the number |
| Rendering.FlagsAreWords | tcbot/utils/i18n.py:160-161 | A flag is written True or False, and both targets show it so |
| Rendering.MissingKeyIsNeverShown | tcbot/utils/i18n.py:275-278 | A key missing everywhere comes back in brackets in both modes, which MarkdownV2 rejects |
| Rendering.TranslationPreservesMeaning | tcbot/utils/i18n.py:251-285 | Through locale and key fallback, a reply is shown as MarkdownV2 just as it reads in plain mode if and only if some catalog has the key |
| Rendering.LocaleComesFirst | tcbot/utils/i18n.py:274-276 | `t` renders the locale's own template as long as the locale is known and has the key, else the default locale's |
| Lease.Store.RetryTake | tcbot/database/mtproto_store/retry.py:36-78 | For every sequence of answers: which one decides the outcome, and that only an own or expired row changes |
| Lease.Store.RetryInsert | tcbot/database/mtproto_store/retry.py:36-78 | For every sequence of answers the insert wins exactly on an empty store where no earlier attempt landed and the last one did not raise |
| Lease.Store.ClaimOwner | tcbot/database/mtproto_store/lease.py:30-83 | For every sequence of answers: exactly when a claim succeeds, and exactly when the row is written |
| Lease.ClaimPromises | tcbot/database/mtproto_store/lease.py:30-83 | A live foreign row is never taken or changed; a successful claim has its row unless a swallowed write was lost; without faults a claim succeeds exactly on a free, own or expired lease |
| Lease.Store.RefreshOwner | tcbot/database/mtproto_store/lease.py:86-94 | A heartbeat renews at most the owner's own row, and raises or tells whether it did |
| Lease.Store.ReleaseOwner | tcbot/database/mtproto_store/lease.py:97-106 | A release removes at most the owner's own row |
| LeaseProtocol.MutualExclusion | tcbot/database/mtproto_store/lease.py:30-106 | Over every interleaving of claims, retries, heartbeats, releases and crashes, no two processes hold an unexpired claim, and a claimant is the owner in the row |
| LeaseProtocol.RunKeepsInv | tcbot/database/mtproto_store/retry.py:36-70 | Every reachable state backs each claim, and each pending retry, by the row |
| LeaseProtocol.TakenOverNeverRefreshes | tcbot/database/mtproto/lifecycle.py:167-200 | An owner that was taken over never refreshes again, after any further run; its next answered heartbeat stops it |
| LeaseProtocol.FencedHolderStops | tcbot/database/mtproto/lifecycle.py:186-200 | After any further run a holder whose row went to somebody else never has the row again, and its first answered heartbeat stops it |
| LeaseProtocol.CrashedHolderIsReplaced | tcbot/database/mtproto_store/lease.py:30-83 | After any run, lost writes and late heartbeats included, a holder that stopped one TTL ago is replaced by the next claim that gets through |
| LeaseProtocol.SwallowedLossBreaksExclusion | tcbot/database/mtproto_store/retry.py:58-66 | Without trust in swallowed writes two processes can both hold a claim |
| LeaseProtocol.SwallowedLossHurtsExactlyWhen | tcbot/database/mtproto_store/retry.py:58-66 | A swallowed insert on an empty store leads to two claims in some continuation if and only if its write was lost and its claim has not run out |
| LeaseProtocol.LateHeartbeatHurtsExactlyWhen | tcbot/database/mtproto/lifecycle.py:177-186 | A heartbeat that raised and lands later leads to two claims in some continuation if and only if a younger one was answered before |
| LeaseProtocol.UnansweredBeatKeepsTheClaim | tcbot/database/mtproto/lifecycle.py:177-183 | A heartbeat that raises leaves the claim as it is, and the next beat can start |
| LeaseProtocol.AnsweredBeatRenews | tcbot/database/mtproto/lifecycle.py:177-185 | An answered heartbeat of the row's owner renews claim and row to one TTL after the clock reading it began with |
| LeaseProtocol.HolderClaimsUntilLastBeat | tcbot/database/mtproto/lifecycle.py:167-200 | In every run in which nobody else writes its row and it neither stops nor crashes, a holder claims exactly until one TTL after its last answered beat, whatever beats raised in between |
| LeaseProtocol.HeartbeatLoopRenews | tcbot/database/mtproto/lifecycle.py:167-200 | Left alone, the heartbeat loop goes on whatever the answers are, keeps the row, and moves the end of the claim to one TTL after each answered beat |
| LeaseProtocol.StopFreesTheLease | tcbot/database/mtproto/lifecycle.py:203-227 | A stop whose release lands frees the lease at once |
| LeaseProtocol.CrashedCallMayLand | tcbot/database/mtproto_store/lease.py:30-106 | A crash, possible at any moment, leaves the row alone, and the call in progress may still land with the effect it would have had |
| LeaseProtocol.RaisedBeatMayLandLate | tcbot/database/mtproto/lifecycle.py:177-183 | A heartbeat that raised may land at any later moment, also after a crash, with the moment it began with |
| LeaseProtocol.SoloClaimIsClaimOwner | tcbot/database/mtproto_store/lease.py:30-83 | With nobody in between, the steps of a claim come to claim_owner: the same success and row for every sequence of answers |
| CircuitBreaker.CircuitBreaker.TryAcquire | tcbot/utils/circuit_breaker.py:136-145 | Admission and its whole effect on the state |
| CircuitBreaker.CircuitBreaker.RecordFailure | tcbot/utils/circuit_breaker.py:183-203 | When a failure opens the circuit, and the whole new state |
| CircuitBreaker.CircuitBreaker.Call | tcbot/utils/circuit_breaker.py:107-134 | One guarded call from admission to its recorded ending, whatever other callers do with the breaker meanwhile; what the endings add up to is BreakerCountsTheStreak |
| CircuitBreaker.ReachableStatesAreConsistent | tcbot/utils/circuit_breaker.py:79-206 | For exactly the positive thresholds, every reachable state is CLOSED if and only if fewer failures than the threshold are counted, and a probe flag implies HALF_OPEN |
| CircuitBreaker.BreakerCountsTheStreak | tcbot/utils/circuit_breaker.py:167-206 | After any uses of a new breaker the failure count is the number of errors since the last success or reset, so it is CLOSED exactly while these are fewer than the threshold; otherwise the recovery period runs from the last error |
| CircuitBreaker.RecoveryStartsAfresh | tcbot/utils/circuit_breaker.py:167-206 | After a success or reset the next call is admitted, fewer than threshold errors in a row leave the breaker CLOSED, and the threshold-th refuses calls for exactly one recovery period |
| CircuitBreaker.ReadingShowsRecovery | tcbot/utils/circuit_breaker.py:79-91 | Reading the state shows HALF_OPEN once a recovery period has passed since the last error, and CLOSED exactly while fewer than threshold errors came in a row |
| CircuitBreaker.OneProbeBetweenEvents | tcbot/utils/circuit_breaker.py:136-145 | Between two record, release or reset events at most one probe is admitted, and none while one is in flight |
| CircuitBreaker.AnyEventEndsTheProbe | tcbot/utils/circuit_breaker.py:176-206 | Any such event, also one of another call, lets a call in again although the probe was not recorded |
| CircuitBreaker.AttemptStep | tcbot/utils/circuit_breaker.py:136-206 | A failing call uses up one free call or, once open, is admitted exactly when a recovery period has passed |
| CircuitBreaker.BreakerRunBound | tcbot/utils/circuit_breaker.py:136-206 | Of any sequence of failing calls at most threshold + floor(elapsed / recovery) are admitted |
| Dispatch.FanOutIsOrderly | tcbot/utils/dispatch.py:88-136 | Under any schedule at most max_concurrent coroutines run, and every slot leaves the result of its own coroutine |
| Dispatch.FanOutNeverStalls | tcbot/utils/dispatch.py:88-136 | Until every slot is done some slot can enter or leave |
| Dispatch.AllRunTogether | tcbot/utils/dispatch.py:88-96 | With a closed breaker as many coroutines as max_concurrent can run at the same time |
| Dispatch.SkippedExactlyWhen | tcbot/utils/dispatch.py:98-132 | On a fresh breaker under any schedule a coroutine is awaited if and only if fewer than threshold calls failed in a row, or a recovery period has passed since the last failure and no probe is in flight; otherwise it is skipped |
| Dispatch.FailuresOpenTheCircuit | tcbot/utils/dispatch.py:104-132 | Timeouts and network errors in a row are counted alike and open the circuit at the threshold; with fewer it is closed |
| Dispatch.RefusalsSkipNothing | tcbot/utils/dispatch.py:111-132 | API refusals, other exceptions and cancellations never change the failure count: when all calls end so, nothing is skipped |
| Dispatch.FanOutDamageBound | tcbot/utils/dispatch.py:88-136 | From a fresh closed breaker, while nothing succeeds and recovery has not elapsed, at most threshold + max_concurrent - 1 coroutines beyond the refused ones are awaited |
| Dispatch.FanOutOfTimeouts | tcbot/utils/dispatch.py:88-136 | When every call times out, at most threshold + max_concurrent - 1 are awaited and every other result is that coroutine's own skip |
| Dispatch.ThrowIfCancelled | tcbot/utils/dispatch.py:192-202 | The first cancelled result is raised, and only if there is one |
| RateLimiter.DequeStep | tcbot/modules/helper/decorators/ratelimit.py:48-78 | The pruned deque decides as the full log of recorded calls does |
| RateLimiter.ScriptStep | tcbot/modules/helper/decorators/ratelimit.py:85-105 | The sorted set with its expiring key decides as the full log of recorded calls does |
| RateLimiter.BothLimitersRecordTheSameCalls | tcbot/modules/helper/decorators/ratelimit.py:48-105 | On every nondecreasing sequence of timestamps both limiters record exactly the same calls |
| RateLimiter.NoQuotaSeparatesTheLimiters | tcbot/modules/helper/decorators/ratelimit.py:48-105 | With a quota below one they part at the first call |
| RateLimiter.LimitersAgreeExactlyWhen | tcbot/modules/helper/decorators/ratelimit.py:48-105 | They agree on every nondecreasing sequence of timestamps if and only if the quota is positive |
| RateLimiter.AnswersAreExact | tcbot/modules/helper/decorators/ratelimit.py:48-105 | On every nondecreasing sequence of timestamps both record a call if and only if fewer than max_calls of the calls recorded before it are inside the window |
| RateLimiter.SlidingWindowBound | tcbot/modules/helper/decorators/ratelimit.py:53-78 | Any half-open interval as long as the window holds at most max_calls recorded calls |
| RateLimiter.ScriptRetryIsRecorded | tcbot/modules/helper/decorators/ratelimit.py:85-105 | In every run of the script, a retry after the returned wait is recorded, however many calls are denied in between, as long as none is recorded |
| RateLimiter.ScriptWait | tcbot/modules/helper/decorators/ratelimit.py:85-105 | The wait is the time until the oldest call leaves the window, rounded up to tenths by less than one, and at least one tenth |
| RateLimiter.RoundTenths | tcbot/modules/helper/decorators/ratelimit.py:75-76 | The nearest tenth, halves to even |
| RateLimiter.DeniedCallSeesZeroExactlyWhen | tcbot/modules/helper/decorators/ratelimit.py:75-76 | A denied call is told 0.0 if and only if its slot frees up within 0.05 s |
| RateLimiter.ZeroReplyExample | tcbot/modules/helper/decorators/ratelimit.py:75-76 | One call per second: a second call after 0.96 s is denied and told 0.0 |
| RateLimiter.CleanupIsInvisible | tcbot/modules/helper/decorators/ratelimit.py:53-65 | A bucket that the cleanup drops refines the same log as no bucket |
| RateLimiter.DequeLimiter.Check | tcbot/modules/helper/decorators/ratelimit.py:48-78 | The user's own recorded calls alone decide, whatever other users did and the cleanup removed; the wait is exact; and exactly which other buckets the cleanup drops |
| RateLimiter.ScriptLimiter.Eval | tcbot/modules/helper/decorators/ratelimit.py:85-105 | The script's reply, its wait included, and the recorded calls of every user, in spite of expired keys |
| MutationQueue.QueueRefinesSequentialLog | tcbot/database/cache/twolevel.py:298-364 | Under any schedule Redis is always the accepted mutations replayed in enqueue order, unless one is cancelled before its first step while something ahead of it can still act; without such cancellations behind unended ones they also end in that order |
| MutationQueue.FinishedPrefix | tcbot/database/cache/twolevel.py:298-364 | When writes land, Redis between two mutations is exactly the finished prefix of puts, deletes and clears |
| MutationQueue.LastWriterWins | tcbot/database/cache/twolevel.py:75-145 | When writes land, each key holds between two mutations what the last finished put, delete or clear that concerns it asked for |
| MutationQueue.LandingTakesEffect | tcbot/database/cache/twolevel.py:240-296 | A mutation that lands, cancelled meanwhile or not, has its whole effect on every key |
| MutationQueue.DrainedClearLeavesNothing | tcbot/database/cache/twolevel.py:92-145 | A queue that ends in a completed clear_all leaves no key of the prefix, and is drained |
| MutationQueue.QueueIsBounded | tcbot/database/cache/mutations.py:40-48 | The pending counter is exact, and at most 200 droppable mutations are in flight |
| MutationQueue.QueueNeverStalls | tcbot/database/cache/twolevel.py:340-364 | While a mutation has not ended, the first such one can move |
| MutationQueue.EarlyCancelKeepsOrderExactlyWhen | tcbot/database/cache/twolevel.py:340-364 | Cancelling a waiting mutation before its first step keeps the order of endings if and only if what it would await has ended |
| MutationQueue.EarlyCancelShowsExactlyWhen | tcbot/database/cache/twolevel.py:340-364 | Cancelling a waiting mutation before its first step lets Redis differ from the log in some continuation if and only if something ahead of it can still act |
| MutationQueue.EarlyCancelBreaksTheOrder | tcbot/database/cache/twolevel.py:340-364 | With such a cancellation an older put can land after a newer one |
| MutationQueue.Queue.EnqueueMutation | tcbot/database/cache/twolevel.py:298-364 | Accepts a mutation as the new tail, or drops a droppable one when the queue is full |
| MutationQueue.Queue.SettleTask | tcbot/database/cache/mutations.py:40-83 | Releases one slot and clears the tail only if it is still this one |
| SingleFlight.StepKeepsInv | tcbot/database/cache/twolevel.py:165-229 | Until the entry is filled all waiting callers share one lock and one of them at most fetches; afterwards all leave with one value |
| SingleFlight.AtMostOneFetch | tcbot/database/cache/twolevel.py:165-229 | For any number of interleaved callers fetch runs at most once and all return the same value |
| SingleFlight.EntryIsLastDelivered | tcbot/database/cache/twolevel.py:165-225 | In every run, with cancellations and failures, the entry in memory is what Redis or a fetch delivered last since the last invalidation or expiry |
| SingleFlight.CallersGetTheLastDelivered | tcbot/database/cache/twolevel.py:165-229 | Each step of a caller returns the last value delivered if there is one, else the value of its own reply or fetch, or its exception |
| SingleFlight.LeavingFreesTheLock | tcbot/database/cache/twolevel.py:171-229 | A caller that leaves with the lock, however it leaves, lets the next waiter in |
| SingleFlight.InvalidationCutsLoose | tcbot/database/cache/twolevel.py:80-86 | A call after an invalidation does not wait for what began before: it gets its own lock at once and asks again |
| SingleFlight.CancelledWaiterBreaksSingleFlight | tcbot/database/cache/twolevel.py:227-229 | One cancelled waiter is enough for two fetches |
| SingleFlight.MostFetchesIsExact | tcbot/database/cache/twolevel.py:165-229 | From any state that any run reaches, with cancellations, invalidations, expiry and failures, the calm continuations make at most MostFetches fetches, and one makes exactly that many |
| SingleFlight.CancellationHurtsExactlyWhen | tcbot/database/cache/twolevel.py:227-229 | While the entry is missing, a cancellation lets a second fetch come if and only if the fetching caller is cancelled and is not the only one, or another caller is cancelled while somebody else is inside and somebody has still to call |
| Staleness.BoundedStaleness | tcbot/database/cache/twolevel.py:147-229 | Every returned value was the database value no longer ago than fetch + queue + Redis TTL + GET latency + memory TTL |
| Staleness.NoHitAfterInvalidate | tcbot/database/cache/twolevel.py:80-86 | In every run nothing is served from memory after an invalidation until a reply, a fetch or a put fills it again |
| Staleness.NoGetAfterDelete | tcbot/database/cache/twolevel.py:80-86 | An accepted invalidation's delete comes after what was queued before it, and once it lands Redis serves nothing until a later write lands |
| Staleness.InvalidatedNeverReturns | tcbot/database/cache/twolevel.py:80-86 | Once the delete has landed, no answer since the invalidation comes from the invalidated entry, except from a reply in flight before, a GET while the delete was on its way, or a new reading or put |
| Staleness.ForgottenStaysForgotten | tcbot/database/cache/twolevel.py:147-229 | In every run a reading of which no copy is left is never answered again unless it is read or put anew |
| Staleness.FillsAreServed | tcbot/database/cache/twolevel.py:75-78 | A put and a reply of Redis or a fetch are served from memory for exactly the lifetime there; a reply is answered at once, and all but that of Redis queue a write |
| Staleness.ReadsAreAnswered | tcbot/database/cache/twolevel.py:177-225 | A read of the database or of Redis is answered within its latency with what was there when it was made |
| Staleness.LandedWriteIsServed | tcbot/database/cache/twolevel.py:240-272 | A write that lands is served from Redis for exactly the lifetime there |
| Staleness.LostWritesAndKeys | tcbot/database/cache/twolevel.py:240-272 | A write that does not land leaves Redis as it was, and a lost key is not served |
| Staleness.GetLatencyCounts | tcbot/database/cache/twolevel.py:177-200 | The bound without the GET latency holds for every answer of every run over every database history if and only if that latency or the Redis TTL is zero |
| Staleness.GetFreeBoundFails | tcbot/database/cache/twolevel.py:177-200 | Otherwise some run over a database that changes once returns a value that the database held at no moment within that bound |
| Codec.RoundTripExactlyWhenGenuine | tcbot/database/cache/codec.py:36-88 | Restoring a tagged value gives it back, tuples as lists, if and only if no dict inside has the form of a tagged scalar |
| Codec.RoundTrip | tcbot/database/cache/codec.py:36-88 | In particular for every value without a dict of the exact two keys |
| Codec.RecogniseExactly | tcbot/database/cache/codec.py:59-88 | The exact-shape check turns a dict into a scalar only in that form |
| Codec.RestoreIsIdempotent | tcbot/database/cache/codec.py:59-88 | Restoring twice changes nothing more, for every value |
| Codec.TaggedIsJson | tcbot/database/cache/codec.py:36-56 | A tagged value holds only what JSON can carry |
| Warns.ExpiryNeverResurrects | tcbot/database/scheduler/jobs.py:52-94 | After any run in which no failing call uncovers a history, every counter is at least its history and at least as young as every row left, so a missing counter has nothing to backfill |
| Warns.CoverIsLostExactlyWhen | tcbot/database/warns_db/records.py:47-62 | In every state that runs keep covered, one more operation leaves the history covered if and only if it is none of: a failed rollback or a decrement whose row stayed, with nothing to spare in the counter; a clear or expiry that lost only the counter; a migration that left the rows behind |
| Warns.FailedRollbackExample | tcbot/database/warns_db/records.py:47-58 | A first warn whose counter and rollback both fail leaves one row and no count |
| Warns.SmoothRunsUncoverNothing | tcbot/database/scheduler/jobs.py:52-94 | Runs whose calls all go well, and whose migrations lead to another chat, uncover nothing |
| Warns.WithoutExpiryCountersAreExact | tcbot/database/warns_db/counters.py:86-133 | Without expiry and failures every counter equals its history, and a read returns that |
| Warns.PartialExpiryKeepsTheCount | tcbot/database/scheduler/jobs.py:52-61 | With expiry they differ: one old row goes and the refreshed counter stays at two |
| Warns.RemoveUndoesAdd | tcbot/database/warns_db/records.py:177-228 | Removing the last warn undoes adding it: same rows, same count |
| Warns.WarnsStand | tcbot/database/warns_db/records.py:33-228 | Without expiry and failures the history of every pair has as many rows as warns stand, counted on the operations alone: adds, removals, clears and migrations; and a read returns that |
| Warns.AddPromises | tcbot/database/warns_db/records.py:33-62 | One more row and one more count; a row whose counter raised is gone again unless its rollback failed |
| Warns.RemovePromises | tcbot/database/warns_db/records.py:177-228 | A row that no other is newer than goes and the others keep their order; the count goes down by one or is set to the rows left |
| Warns.ClearPromises | tcbot/database/warns_db/records.py:65-135 | A row delete that took effect leaves no row, a counter delete that went well no counter, and a repair the number of rows left; other pairs keep both |
| Warns.ClearAllPromises | tcbot/database/warns_db/records.py:83-135 | The same for every pair of a user, and no other user is touched |
| Warns.ReadPromises | tcbot/database/warns_db/counters.py:86-133 | A read keeps rows and counter, stores the number of rows for a missing counter, and returns the count it leaves |
| Warns.ExpirePromises | tcbot/database/scheduler/jobs.py:30-94 | Of every row exactly the copies younger than the cutoff stay, and of the counters those updated since; without a positive number of days all stay |
| Warns.MigrationKeepsEveryRow | tcbot/database/warns_db/migrate.py:37-42 | A migration to another chat loses and invents no row: the new chat ends up with both chats' rows, or all stay |
| Warns.MigrationKeepsFederationCountExactly | tcbot/database/warns_db/migrate.py:114-127 | A complete migration keeps a user's federation-wide count if and only if the chats differ or the user has nothing in the old one |
| Warns.Newest | tcbot/database/warns_db/records.py:179-185 | The latest timestamp, and among equals the last inserted |
| Warns.Younger | tcbot/database/scheduler/jobs.py:52-61 | Exactly the rows that the cutoff leaves |
| Warns.YoungerIsAFilter | tcbot/database/scheduler/jobs.py:52-61 | The cutoff keeps order and multiplicity of the rows |
| Warns.WarnStore.AddWarn | tcbot/database/warns_db/records.py:33-62 | One more row and one more count; and what a failing counter or a failing rollback leaves |
| Warns.WarnStore.RemoveLastWarn | tcbot/database/warns_db/records.py:177-228 | The newest row goes and the counter is decremented or rebuilt, for every answer of the three calls |
| Warns.WarnStore.ClearWarns | tcbot/database/warns_db/records.py:65-135 | The new state and the number of deleted rows, for every answer of the deletes and the repair; what that leaves is ClearPromises |
| Warns.WarnStore.WarnCount | tcbot/database/warns_db/counters.py:86-133 | The counter, backfilled from the history if it is missing |
| Warns.WarnStore.StoreWarnCount | tcbot/database/warns_db/counters.py:136-156 | A count of zero or less deletes the counter, any other replaces it |
| Warns.WarnStore.ExpireOldWarns | tcbot/database/scheduler/jobs.py:30-61 | Each collection loses what is older than the cutoff if its delete takes effect; nothing happens without a positive number of days |
| Warns.WarnStore.MigrateRecords | tcbot/database/warns_db/migrate.py:22-111 | Where every row and counter ends up, for every key, whether the repoint succeeds or not, and whether anything matched |
| WarnRace.AllWarnsLand | tcbot/database/warns_db/counters.py:39-83 | Without deletes no interleaved add_warn fails its retry, each returns a count of its own, and counter and history grow by exactly their number |
| WarnRace.ClearBreaksTheRetry | tcbot/database/warns_db/counters.py:39-83 | A clear between the two attempts lets the retry fail |
| WarnRace.NobodyGivesUp | tcbot/database/warns_db/counters.py:39-83 | No call gives up in any run whose clears land outside the gap between a lost insert and the second look |
| WarnRace.ClearInTheGapExactlyWhen | tcbot/database/warns_db/counters.py:39-83 | A clear in that gap lets the call give up in some continuation if and only if another call is still under way |
| WarnMigration.NeverDoubleCounts | tcbot/database/warns_db/migrate.py:43-111 | Under any interleaving of failing and crashing runs, chats + carried + dropped is the starting total, so the chats never exceed it |
| WarnMigration.SmoothMigrationPreserves | tcbot/database/warns_db/migrate.py:43-111 | When nothing fails nothing is dropped, and in the end the whole total is in the new chat |
| WarnMigration.StepKeepsExact | tcbot/database/warns_db/migrate.py:63-69 | A count read earlier stays exact as long as its old counter exists |
| WarnMigration.FailedTakeLosesTheCount | tcbot/database/warns_db/migrate.py:63-101 | One failed take loses the count to the final delete |
| WarnMigration.CountIsKeptExactlyWhen | tcbot/database/warns_db/migrate.py:63-111 | Over every run with every failure and crash nothing is missing if and only if no step dropped the count; and the two chats hold the total if and only if the counter was never taken away or its merge landed |
| Syncing.CrossIsRowMajor | tcbot/modules/syncing/core.py:74-76 | Pair i * chats + j is user i in chat j |
| Syncing.TakePairsIsBounded | tcbot/modules/syncing/core.py:62-77 | As many pairs as budget and work allow, the first ones in that order |
| Syncing.TruncatedExactlyWhenPairsAreLeft | tcbot/modules/syncing/core.py:62-77 | The flag is set if and only if some pair was left out, and no pair is taken twice |
| Syncing.SweepActsPointwise | tcbot/modules/syncing/core.py:93-204 | A fan_out changes each of its pairs by that pair's own calls and nothing else, so its order does not matter |
| Syncing.Telegram.SyncBanPair | tcbot/modules/syncing/core.py:93-126 | Status and outcome label for every status and every answer of the two calls |
| Syncing.Telegram.SyncUnbanPair | tcbot/modules/syncing/core.py:129-155 | The same for a stale kick |
| Syncing.Telegram.SyncMutePair | tcbot/modules/syncing/core.py:158-204 | The same for a mute |
| Syncing.Summarize | tcbot/modules/syncing/core.py:207-241 | The loop counts how often each outcome occurs and samples the first five failing titles |
| Syncing.CountsAddUp | tcbot/modules/syncing/core.py:207-241 | enforced + skipped + failed = checked exactly when no outcome is missing, and the sample holds min(failed, 5) titles |
| Syncing.SampleNamesTheFirstFailures | tcbot/modules/syncing/core.py:207-241 | The sample names the chats of the first five failed pairs in their order |
| Reconciliation.RunBanSync | tcbot/modules/syncing/__init__.py:142-178 | The sweep's whole effect on memberships and its counts |
| Reconciliation.FlagIsTrueExactlyWhen | tcbot/modules/syncing/__init__.py:142-178 | The truncation flag tells the truth if and only if the budget is positive or there is no work |
| Reconciliation.ZeroBudgetExample | tcbot/modules/syncing/__init__.py:164-165 | One ban, one group and no budget: the pair is left out and the flag not set |
| Reconciliation.SweepConverges | tcbot/modules/syncing/__init__.py:142-178 | After an untruncated sweep every pair whose calls succeed is banned, gone or privileged, or muted or stronger |
| Reconciliation.NothingIsLifted | tcbot/modules/syncing/__init__.py:142-178 | No ban or restriction is ever lifted, and only recorded pairs change, by calls that succeed |
| Reconciliation.BudgetIsKept | tcbot/modules/syncing/__init__.py:142-178 | checked is the smaller of max_checks and the work, every pair is counted once, and mutes get budget only after all bans |
| Reconciliation.CountsAreTrue | tcbot/modules/syncing/__init__.py:142-178 | enforcedBans and enforcedMutes are the numbers of reached pairs that the sweep banned and restricted, enforcedUnbans is zero, failed is the number of slots that failed |
| Reconciliation.ReconciledIsLeftAlone | tcbot/modules/syncing/__init__.py:142-178 | A world that is as recorded is left alone, whatever the calls do |
| Reconciliation.SecondSweepEnforcesNothing | tcbot/modules/syncing/__init__.py:142-178 | After a complete successful sweep a second one, on any budget, enforces and changes nothing |
| Reconciliation.VerifyUser | tcbot/modules/syncing/__init__.py:181-234 | The check's whole effect on memberships and its counts |
| Reconciliation.CheckFlagIsTrueExactlyWhen | tcbot/modules/syncing/__init__.py:204-234 | Its flag tells the truth except for a muted user with exactly 200 groups |
| Reconciliation.SilentReplayExample | tcbot/modules/syncing/__init__.py:215-232 | 200 groups and a muted user: no mute is replayed and the flag not set |
| Reconciliation.CheckConverges | tcbot/modules/syncing/__init__.py:204-234 | Each reached pair whose calls succeed ends up as the records say |
| Reconciliation.CheckCountsAreTrue | tcbot/modules/syncing/__init__.py:181-234 | The same for the check of one user: bans set or stale bans lifted, restrictions set, slots failed |
| Reconciliation.CheckLiftsOnlyStaleBans | tcbot/modules/syncing/__init__.py:207-214 | The only thing ever lifted is a ban without an active record, and nothing changes but by calls that succeed |
| TumblingWindow.Using | tcbot/utils/error_reporter/ship.py:39-62 | A use within the budget keeps any two uses two budgets apart at least a window apart |
| TumblingWindow.PacedBound | tcbot/utils/error_reporter/ship.py:39-62 | At most one budget since the window opened, at most two in any half-open span of its length |
| ErrorThrottle.Throttle.SubmitReport | tcbot/utils/error_reporter/ship.py:34-62 | A report up to its first await: the new counters and what becomes of it |
| ErrorThrottle.EveryReportIsAccountedFor | tcbot/utils/error_reporter/ship.py:34-78 | Under interleaved awaits every report is exactly one of attempted, still counted, announced, lost to a failed summary or waiting for one |
| ErrorThrottle.SendBudgetBound | tcbot/utils/error_reporter/ship.py:34-78 | At most 20 attempts since the window opened and at most 40 in any half-open 60 s |
| ErrorThrottle.NothingIsHeldBackNeedlessly | tcbot/utils/error_reporter/ship.py:34-78 | In every run a report that comes with fewer than 20 attempts since the open window began is attempted; the first after 60 s opens a new window and is attempted, or waits for the summary of all that was suppressed |
| ReporterState.Reporter.SeenRecently | tcbot/utils/error_reporter/state.py:165-181 | Pruning, eviction, decision and the remembered set |
| ReporterState.Reporter.OwnerSuppressed | tcbot/utils/error_reporter/state.py:94-112 | The decision and the windows kept |
| ReporterState.SeenStep | tcbot/utils/error_reporter/state.py:165-181 | A report is held back if and only if one with its fingerprint is among the remembered last reports; that one passed in the last 30 s; one that passes has no such predecessor younger than 900 reports |
| ReporterState.OneReportPerIncident | tcbot/utils/error_reporter/state.py:165-181 | Two passing reports with one fingerprint within 30 s have at least 900 others between them |
| ReporterState.EvictionLetsARepeatPass | tcbot/utils/error_reporter/state.py:173-177 | Some storm of 1000 fingerprints lets a repeat pass at the same moment with exactly 900 others in between, so that bound is tight |
| ReporterState.DedupeFailsExactlyWhen | tcbot/utils/error_reporter/state.py:165-181 | As long as everything young is remembered, some fingerprint that passed in the last 30 s would pass again if and only if the cap is hit at that moment |
| ReporterState.DedupeIsExactBelowTheCap | tcbot/utils/error_reporter/state.py:165-181 | In every run that does not hit the cap a report is held back if and only if one with its fingerprint passed in the last 30 s |
| ReporterState.OwnerEvictionIsInvisible | tcbot/utils/error_reporter/state.py:94-112 | The eviction at 1000 fingerprints never changes who is sent a DM |
| ReporterState.OwnerBudgetBound | tcbot/utils/error_reporter/state.py:94-112 | At most six DMs for one fingerprint in any half-open hour |
| ReporterState.OwnerDeniesExactlyWhen | tcbot/utils/error_reporter/state.py:94-112 | In every run, cleanups included, the owner is spared a DM if and only if three for its fingerprint were sent since the current window opened less than an hour ago |

## Left out

- Templates and values: floats and values of other types, non-ASCII field names, the links, italic, underline and pre entities of MarkdownV2; catalog loading and locale canonicalisation (a catalog is a map, a locale is known or not).
- Lease: client connections and the login state; the theorems speak of lease claims only. A take, an insert or a release that raised takes effect at once, or once after a crash of its process; only heartbeats land arbitrarily late.
- LeaseProtocol.MutualExclusion: assumes that a swallowed write concern error hides a write that was applied, as the source does, unless its claim has run out, and that no heartbeat of a claim holder lands after a younger one was answered; SwallowedLossHurtsExactlyWhen and LateHeartbeatHurtsExactlyWhen show that exactly this is needed.
- Dispatch.FanOutIsOrderly: that `asyncio.gather` returns the results in the order of its slots is assumed, not modelled; gather_bounded is the same state machine with the breaker switched off (GatherBoundedIgnoresTheBreaker).
- Circuit breaker: the breaker of other services, logging, and calls that overlap with HALF_OPEN in the run bound; the drain helper, the benign-error patterns and the transient-error counters of dispatch.py.
- Rate limiter: the switch between Redis and the local fallback with their separate clocks, exemptions and tiers; floating point (the rounded wait is exact arithmetic with halves to even).
- Cache queue: Redis' own key expiry (it is in the Staleness model), several processes writing one prefix, a write that lands after its timeout was reported, and the drain at shutdown.
- Single flight and staleness: one key and one process; the eviction order of the in-memory store (an entry may vanish at any time in the staleness model).
- Codec: non-string keys and the fallback to `str` for unknown scalars; the ISO and ObjectId text formats are parameters whose parsers undo their printers.
- Warns: the rows' reasons and admins, a counter update that succeeds without returning the document, and a backfill that fails. Apart from racing adds and interleaved migrations, operations run one after another.
- Warns.WarnStore.MigrateRecords: the calls on the counters go well; their failures and crashes are the steps of WarnMigration.
- Warns.RemoveUndoesAdd: the counter's time stamp is not restored, only rows and count.
- WarnMigration.SmoothMigrationPreserves: the counters of chats outside the migration are not in the state; they are not touched.
- Reconciliation: fetching the records and sorting the ids (the model takes duplicate-free lists), a membership that changes during the sweep, which permissions a restriction leaves, the end date of a mute; a refused call counts as absent, so convergence covers pairs whose calls succeed.
- Error reporter: fingerprints and their text normalisation (a fingerprint is a string), message formatting, the noise filters, a reporter that is not attached.
- Handlers, keyboards, help texts, web endpoints, configuration and the remaining collections of the repository: they would only add easy members.
