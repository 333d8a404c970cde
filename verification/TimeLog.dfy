// Logs of moments: what the rate limiter and the error reporter say about their records.
module TimeLog {
  predicate Sorted(log: seq<real>) {
    forall i, j :: 0 <= i < j < |log| ==> log[i] <= log[j]
  }

  predicate UpTo(log: seq<real>, now: real) {
    forall i :: 0 <= i < |log| ==> log[i] <= now
  }

  /** Any entry and the one `n` places before it are at least `gap` apart. */
  predicate Spaced(log: seq<real>, n: int, gap: real)
    requires n >= 1
  {
    forall i :: n <= i < |log| ==> log[i] - log[i - n] >= gap
  }

  /** The entries in a half-open interval. */
  function CallsIn(log: seq<real>, from: real, to: real): nat {
    if log == [] then 0 else (if from <= log[0] < to then 1 else 0) + CallsIn(log[1..], from, to)
  }

  lemma {:induction false} CallsInBound(log: seq<real>, from: real, to: real, m: nat)
    requires forall i :: m <= i < |log| ==> log[i] >= to
    ensures CallsIn(log, from, to) <= m
  {
    if log != [] {
      CallsInBound(log[1..], from, to, if m > 0 then m - 1 else 0);
    }
  }

  /** A spaced log has at most `n` entries in any half-open interval as long as the gap. */
  lemma {:induction false} SpacedBound(log: seq<real>, n: int, gap: real, from: real)
    requires n >= 1 && Sorted(log) && Spaced(log, n, gap)
    ensures CallsIn(log, from, from + gap) <= n
  {
    if log == [] {
    } else if log[0] < from {
      SpacedBound(log[1..], n, gap, from);
    } else {
      forall i | n <= i < |log|
        ensures log[i] >= from + gap
      {
        assert log[i - n] >= log[0];
      }
      CallsInBound(log, from, from + gap, n);
    }
  }

  lemma SpacedAt(log: seq<real>, i: nat, n: int, gap: real)
    requires n >= 1 && Spaced(log, n, gap) && i >= n
    ensures i < |log| ==> log[i] - log[i - n] >= gap
  {
  }
}
