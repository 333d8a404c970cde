// tcbot/utils/error_reporter/ship.py: the throttle of the error channel, with the await on
// the summary in the middle.
module ErrorThrottle {
  import opened Wrappers
  import opened TimeLog
  import TumblingWindow

  const SEND_BUDGET: nat := 20
  const SEND_WINDOW := 60.0

  /** The three module counters. */
  datatype Globals = Globals(windowStart: real, sent: nat, suppressed: nat)

  /** Where a report goes next: it waits for the summary of `count` suppressed reports, it is
      sent, or it is counted for the next summary. */
  datatype Fate = Summarise(count: nat) | Attempt | Counted

  /** The second half of `_ship_throttled`: the budget of the window. */
  function Spend(g: Globals): (Globals, Fate) {
    if g.sent >= SEND_BUDGET then (g.(suppressed := g.suppressed + 1), Counted)
    else (g.(sent := g.sent + 1), Attempt)
  }

  /** A report at `now`, up to its first await. */
  function Submit(g: Globals, now: real): (Globals, Fate) {
    if now - g.windowStart < SEND_WINDOW then Spend(g)
    else if g.suppressed > 0 then (Globals(now, 0, 0), Summarise(g.suppressed))
    else Spend(Globals(now, 0, 0))
  }

  class Throttle {
    var windowStart: real
    var sent: nat
    var suppressed: nat

    function View(): Globals
      reads this
    {
      Globals(windowStart, sent, suppressed)
    }

    constructor ()
      ensures View() == Globals(0.0, 0, 0)
    {
      windowStart, sent, suppressed := 0.0, 0, 0;
    }

    method SubmitReport(now: real) returns (fate: Fate)
      modifies this
      ensures (View(), fate) == Submit(old(View()), now)
    {
      if now - windowStart >= SEND_WINDOW {
        windowStart, sent := now, 0;
        if suppressed > 0 {
          fate, suppressed := Summarise(suppressed), 0;
          return;
        }
      }
      fate := SpendBudget();
    }

    method SpendBudget() returns (fate: Fate)
      modifies this
      ensures (View(), fate) == Spend(old(View()))
    {
      if sent >= SEND_BUDGET {
        suppressed := suppressed + 1;
        return Counted;
      }
      sent := sent + 1;
      fate := Attempt;
    }
  }

  /* ----- Runs: reports submitted at any time, summaries finishing in any order ----- */

  /** `waiting` holds, for each report that waits for its summary, the number the summary
      announces. `attempts` are the moments of the report sends; `lost` counts what a failed
      or cancelled summary takes with it. */
  datatype State = State(
    g: Globals, clock: real, waiting: seq<nat>, submitted: nat, attempts: seq<real>, announced: nat, lost: nat)

  datatype Action =
    | Report(delay: real)
    | SummaryDone(i: nat, delay: real, delivered: bool)

  predicate Enabled(s: State, a: Action) {
    a.delay >= 0.0 && (a.SummaryDone? ==> a.i < |s.waiting|)
  }

  function Settle(s: State, outcome: (Globals, Fate)): State {
    match outcome.1
    case Summarise(count) => s.(g := outcome.0, waiting := s.waiting + [count])
    case Attempt => s.(g := outcome.0, attempts := s.attempts + [s.clock])
    case Counted => s.(g := outcome.0)
  }

  function Apply(s: State, a: Action): State
    requires Enabled(s, a)
  {
    var now := s.clock + a.delay;
    match a
    case Report(_) => Settle(s.(clock := now, submitted := s.submitted + 1), Submit(s.g, now))
    case SummaryDone(i, _, delivered) =>
      var rest := s.(clock := now, waiting := s.waiting[..i] + s.waiting[i + 1..]);
      if delivered then Settle(rest.(announced := s.announced + s.waiting[i]), Spend(s.g))
      else rest.(lost := s.lost + s.waiting[i] + 1)
  }

  function Run(s: State, actions: seq<Action>): Option<State>
    decreases |actions|
  {
    if actions == [] then Some(s)
    else if Enabled(s, actions[0]) then Run(Apply(s, actions[0]), actions[1..])
    else None
  }

  /** Nothing reported yet; the monotonic clock shows `start`. */
  function Fresh(start: real): State {
    State(Globals(0.0, 0, 0), start, [], 0, [], 0, 0)
  }

  /** Each waiting report carries itself and what its summary announces. */
  function InFlight(waiting: seq<nat>): nat {
    if waiting == [] then 0 else waiting[0] + 1 + InFlight(waiting[1..])
  }

  lemma {:induction false} InFlightAppend(a: seq<nat>, b: seq<nat>)
    ensures InFlight(a + b) == InFlight(a) + InFlight(b)
  {
    if a == [] {
      assert a + b == b;
    } else {
      assert (a + b)[1..] == a[1..] + b;
      InFlightAppend(a[1..], b);
    }
  }

  lemma {:induction false} InFlightWithout(waiting: seq<nat>, i: nat)
    requires i < |waiting|
    ensures InFlight(waiting) == InFlight(waiting[..i] + waiting[i + 1..]) + waiting[i] + 1
  {
    var rest := waiting[..i] + waiting[i + 1..];
    if i == 0 {
      assert rest == waiting[1..];
    } else {
      InFlightWithout(waiting[1..], i - 1);
      assert rest[0] == waiting[0];
      assert rest[1..] == waiting[1..][..i - 1] + waiting[1..][i..];
    }
  }

  /* ----- Accounting ----- */

  predicate Balanced(s: State) {
    s.submitted == |s.attempts| + s.g.suppressed + s.announced + s.lost + InFlight(s.waiting)
  }

  lemma StepKeepsBalance(s: State, a: Action)
    requires Balanced(s) && Enabled(s, a)
    ensures Balanced(Apply(s, a))
  {
    match a
    case Report(_) => InFlightAppend(s.waiting, [s.g.suppressed]);
    case SummaryDone(i, _, _) => InFlightWithout(s.waiting, i);
  }

  lemma {:induction false} RunKeepsBalance(s: State, actions: seq<Action>)
    requires Balanced(s) && Run(s, actions).Some?
    ensures Balanced(Run(s, actions).value)
    decreases |actions|
  {
    if actions != [] {
      StepKeepsBalance(s, actions[0]);
      RunKeepsBalance(Apply(s, actions[0]), actions[1..]);
    }
  }

  /** Every submitted report is exactly one of attempted, still counted, announced by a
      summary, lost with a failed summary, or waiting with one. */
  lemma EveryReportIsAccountedFor(start: real, actions: seq<Action>, s: State)
    requires Run(Fresh(start), actions) == Some(s)
    ensures s.submitted == |s.attempts| + s.g.suppressed + s.announced + s.lost + InFlight(s.waiting)
  {
    RunKeepsBalance(Fresh(start), actions);
  }

  /* ----- Budget ----- */

  predicate Paced(s: State) {
    TumblingWindow.Paced(SEND_BUDGET, SEND_WINDOW, s.g.windowStart, s.g.sent, s.clock, s.attempts)
  }

  lemma SpendKeepsPace(s: State)
    requires Paced(s)
    ensures Paced(Settle(s, Spend(s.g)))
  {
    hide TumblingWindow.Paced;
    if s.g.sent < SEND_BUDGET {
      TumblingWindow.Using(SEND_BUDGET, SEND_WINDOW, s.g.windowStart, s.g.sent, s.clock, s.attempts);
    } else {
      assert Spend(s.g).1 == Counted;
    }
  }

  lemma StepKeepsPace(s: State, a: Action)
    requires Paced(s) && Enabled(s, a)
    ensures Paced(Apply(s, a))
  {
    hide TumblingWindow.Paced, Spend;
    var now := s.clock + a.delay;
    TumblingWindow.Waiting(SEND_BUDGET, SEND_WINDOW, s.g.windowStart, s.g.sent, s.clock, s.attempts, now);
    match a
    case Report(_) =>
      var entered := s.(clock := now, submitted := s.submitted + 1);
      SpendKeepsPace(entered);
      if now - s.g.windowStart >= SEND_WINDOW {
        TumblingWindow.Reopening(SEND_BUDGET, SEND_WINDOW, s.g.windowStart, s.g.sent, now, s.attempts);
        SpendKeepsPace(entered.(g := Globals(now, 0, 0)));
      }
    case SummaryDone(i, _, _) =>
      var rest := s.(clock := now, waiting := s.waiting[..i] + s.waiting[i + 1..]);
      SpendKeepsPace(rest.(announced := s.announced + s.waiting[i]));
  }

  lemma {:induction false} RunKeepsPace(s: State, actions: seq<Action>)
    requires Paced(s) && Run(s, actions).Some?
    ensures Paced(Run(s, actions).value)
    decreases |actions|
  {
    if actions != [] {
      StepKeepsPace(s, actions[0]);
      RunKeepsPace(Apply(s, actions[0]), actions[1..]);
    }
  }

  /** Whatever the interleaving: at most one budget of attempts since the window opened, and
      at most two budgets in any half-open span as long as a window. */
  lemma SendBudgetBound(start: real, actions: seq<Action>, s: State, from: real)
    requires start >= 0.0 && Run(Fresh(start), actions) == Some(s)
    ensures |s.attempts| > SEND_BUDGET ==> s.attempts[|s.attempts| - SEND_BUDGET - 1] <= s.g.windowStart
    ensures CallsIn(s.attempts, from, from + SEND_WINDOW) <= 2 * SEND_BUDGET
  {
    RunKeepsPace(Fresh(start), actions);
    TumblingWindow.PacedBound(SEND_BUDGET, SEND_WINDOW, s.g.windowStart, s.g.sent, s.clock, s.attempts, from);
  }

  /* ----- Nothing is held back needlessly ----- */

  /** The attempts that the window counts were made since it opened. */
  predicate SentSinceOpening(s: State) {
    && s.g.sent <= |s.attempts| && s.g.windowStart <= s.clock
    && forall i :: |s.attempts| - s.g.sent <= i < |s.attempts| ==> s.attempts[i] >= s.g.windowStart
  }

  lemma {:induction false} RunKeepsSentSinceOpening(s: State, actions: seq<Action>)
    requires SentSinceOpening(s) && Run(s, actions).Some?
    ensures SentSinceOpening(Run(s, actions).value)
    decreases |actions|
  {
    if actions != [] {
      StepKeepsSentSinceOpening(s, actions[0]);
      hide SentSinceOpening;
      RunKeepsSentSinceOpening(Apply(s, actions[0]), actions[1..]);
    }
  }

  lemma StepKeepsSentSinceOpening(s: State, a: Action)
    requires SentSinceOpening(s) && Enabled(s, a)
    ensures SentSinceOpening(Apply(s, a))
  {
  }

  /** Fewer than the budget of attempts are stamped since the window opened. */
  predicate HasRoom(s: State) {
    |s.attempts| < SEND_BUDGET || s.attempts[|s.attempts| - SEND_BUDGET] < s.g.windowStart
  }

  /** In every run: a report that comes while the window is open and has room is attempted. The
      first one after 60 s opens a new window, and is attempted at once when nothing was
      suppressed; otherwise it waits for the summary of all that was, and once that is delivered
      it is attempted in whatever window is open then, if that has room. */
  lemma NothingIsHeldBackNeedlessly(start: real, actions: seq<Action>, s: State, a: Action)
    requires start >= 0.0 && Run(Fresh(start), actions) == Some(s)
    requires a.delay >= 0.0 && (a.SummaryDone? ==> a.i < |s.waiting|)
    ensures Enabled(s, a)
    ensures var s', now := Apply(s, a), s.clock + a.delay;
            var opens := a.Report? && now >= s.g.windowStart + SEND_WINDOW;
            && s'.g.windowStart == (if opens then now else s.g.windowStart)
            && (a.Report? && !opens && HasRoom(s) ==> s'.attempts == s.attempts + [now])
            && (opens && s.g.suppressed == 0 ==> s'.attempts == s.attempts + [now])
            && (opens && s.g.suppressed > 0 ==>
                  s'.waiting == s.waiting + [s.g.suppressed] && s'.attempts == s.attempts && s'.g.suppressed == 0)
            && (a.SummaryDone? && a.delivered && HasRoom(s) ==> s'.attempts == s.attempts + [now])
  {
    RunKeepsSentSinceOpening(Fresh(start), actions);
  }
}
