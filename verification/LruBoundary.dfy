/** How many other keys a client may be outnumbered by before eviction makes the limiter forget it. */
module LruBoundary {
  import opened Prelude
  import opened RateLimiter

  /** Between requests of `k` less than a window apart, with none between, at most `m` other keys. */
  ghost predicate GapsAtMost(trace: seq<Hit>, k: string, m: nat) {
    forall i, j {:trigger KeysBetween(trace, i, j)} ::
      0 <= i < j < |trace| && trace[i].key == k && trace[j].key == k &&
      k !in KeysBetween(trace, i, j) && trace[j].now - trace[i].now < 60.0 ==>
        |KeysBetween(trace, i, j)| <= m
  }

  /** No half-open 60-second interval holds more than `limit` admissions of `k`. */
  ghost predicate Bounded(limit: string -> Positive, trace: seq<Hit>, k: string) {
    forall t :: AdmittedSince(limit, trace, k, t) <= limit(k)
  }

  ghost function AdmittedSince(limit: string -> Positive, trace: seq<Hit>, k: string, t: real): nat {
    CountIf(Log(limit, trace, |trace|, k), Minute(t))
  }

  function Minute(t: real): real -> bool {
    x => t <= x < t + 60.0
  }

  /** A request whose key has seen too many others is admitted, whatever was admitted before. */
  lemma EvictedForgets(limit: string -> Positive, trace: seq<Hit>, n: nat)
    requires n < |trace|
    requires var i := LastIndex(trace, n, trace[n].key); i < 0 || |KeysBetween(trace, i, n)| >= MAX_TRACKED_KEYS
    ensures Admitted(limit, trace, n)
  {
    TrackedIff(limit, trace, n, trace[n].key);
  }

  // ---------- A client outnumbered by MAX_TRACKED_KEYS others ----------

  const ROUND: nat := MAX_TRACKED_KEYS + 1

  /** The `r`-th other key, longer than `k` by `r`. */
  function Other(k: string, r: nat): string {
    k + seq(r, i => 'x')
  }

  /** Rounds of one request of `k` and one of each other key, all at the same instant. */
  function Rounds(k: string, rounds: nat): seq<Hit> {
    seq(ROUND * rounds, i requires 0 <= i < ROUND * rounds => Hit(Other(k, i % ROUND), 0.0))
  }

  lemma InRound(j: nat, i: nat)
    requires ROUND * j <= i < ROUND * (j + 1)
    ensures i % ROUND == i - ROUND * j
  {
  }

  lemma OtherLength(k: string, r: nat)
    ensures |Other(k, r)| == |k| + r && (r == 0 ==> Other(k, r) == k)
  {
  }

  /** The other keys of one round, all different. */
  function Others(k: string): seq<string> {
    seq(MAX_TRACKED_KEYS, r requires 0 <= r < MAX_TRACKED_KEYS => Other(k, r + 1))
  }

  lemma OthersCount(k: string)
    ensures |set x | x in Others(k)| == MAX_TRACKED_KEYS
  {
    var xs := Others(k);
    forall i, j | 0 <= i < j < |xs|
      ensures xs[i] != xs[j]
    {
      OtherLength(k, i + 1);
      OtherLength(k, j + 1);
    }
    DistinctCount(xs);
  }

  /** Between one request of `k` and its next lie exactly the other keys. */
  lemma RoundKeys(k: string, rounds: nat, j: nat)
    requires j + 1 < rounds
    ensures KeysBetween(Rounds(k, rounds), ROUND * j, ROUND * (j + 1)) == set x | x in Others(k)
  {
    var trace := Rounds(k, rounds);
    var between := KeysBetween(trace, ROUND * j, ROUND * (j + 1));
    forall x | x in Others(k)
      ensures x in between
    {
      var r :| 0 <= r < MAX_TRACKED_KEYS && Others(k)[r] == x;
      var m := ROUND * j + r + 1;
      InRound(j, m);
      assert trace[m].key == x;
    }
    forall x | x in between
      ensures x in Others(k)
    {
      var m: nat :| ROUND * j < m < ROUND * (j + 1) && trace[m].key == x;
      InRound(j, m);
      assert Others(k)[m - ROUND * j - 1] == x;
    }
  }

  lemma RoundStarts(k: string, rounds: nat, j: nat)
    requires j < rounds
    ensures Rounds(k, rounds)[ROUND * j] == Hit(k, 0.0)
  {
    InRound(j, ROUND * j);
    OtherLength(k, 0);
  }

  lemma RoundOthers(k: string, rounds: nat, j: nat, m: nat)
    requires j < rounds && ROUND * j < m < ROUND * (j + 1)
    ensures Rounds(k, rounds)[m].key != k
  {
    InRound(j, m);
    OtherLength(k, m - ROUND * j);
  }

  lemma LastIs(trace: seq<Hit>, n: nat, k: string, i: nat)
    requires i < n <= |trace| && trace[i].key == k && forall m :: i < m < n ==> trace[m].key != k
    ensures LastIndex(trace, n, k) == i
  {
  }

  lemma RoundBefore(k: string, rounds: nat, j: nat)
    requires j + 1 < rounds
    ensures LastIndex(Rounds(k, rounds), ROUND * (j + 1), k) == ROUND * j
  {
    RoundStarts(k, rounds, j);
    forall m | ROUND * j < m < ROUND * (j + 1)
      ensures Rounds(k, rounds)[m].key != k
    {
      RoundOthers(k, rounds, j, m);
    }
    LastIs(Rounds(k, rounds), ROUND * (j + 1), k, ROUND * j);
  }

  lemma RoundAdmits(limit: string -> Positive, k: string, rounds: nat, j: nat)
    requires j < rounds
    ensures Rounds(k, rounds)[ROUND * j].key == k && Admitted(limit, Rounds(k, rounds), ROUND * j)
  {
    RoundStarts(k, rounds, j);
    if j > 0 {
      RoundBefore(k, rounds, j - 1);
      RoundKeys(k, rounds, j - 1);
      OthersCount(k);
    }
    EvictedForgets(limit, Rounds(k, rounds), ROUND * j);
  }

  // ---------- The log those rounds leave ----------

  /** Logs that take in at most the one instant, and do so at the start of each round. */
  ghost predicate RoundLogs(logs: nat -> seq<real>, rounds: nat) {
    && logs(0) == []
    && (forall m: nat :: m < ROUND * rounds ==> AddsAt(logs, m))
    && (forall j: nat :: j < rounds ==> GrowsAt(logs, j))
  }

  ghost predicate AddsAt(logs: nat -> seq<real>, m: nat) {
    logs(m + 1) == logs(m) || logs(m + 1) == logs(m) + [0.0]
  }

  ghost predicate GrowsAt(logs: nat -> seq<real>, j: nat) {
    |logs(ROUND * j)| < |logs(ROUND * j + 1)|
  }

  lemma {:induction false} LogsGrow(logs: nat -> seq<real>, rounds: nat, m: nat, n: nat)
    requires RoundLogs(logs, rounds) && m <= n <= ROUND * rounds
    ensures |logs(m)| <= |logs(n)|
  {
    if m == n {
    } else {
      LogsGrow(logs, rounds, m, n - 1);
      assert AddsAt(logs, n - 1);
    }
  }

  lemma {:induction false} LogsReach(logs: nat -> seq<real>, rounds: nat, j: nat)
    requires RoundLogs(logs, rounds) && j <= rounds
    ensures j <= |logs(ROUND * j)|
  {
    if j == 0 {
    } else {
      LogsReach(logs, rounds, j - 1);
      assert GrowsAt(logs, j - 1);
      LogsGrow(logs, rounds, ROUND * (j - 1) + 1, ROUND * j);
    }
  }

  lemma RoundsLog(limit: string -> Positive, k: string, rounds: nat)
    ensures RoundLogs(Logs(limit, Rounds(k, rounds), k), rounds)
  {
    var trace := Rounds(k, rounds);
    var logs := Logs(limit, trace, k);
    forall m: nat | m < |trace|
      ensures AddsAt(logs, m)
    {
      RoundAdds(limit, k, rounds, m);
    }
    forall j: nat | j < rounds
      ensures GrowsAt(logs, j)
    {
      RoundGrows(limit, k, rounds, j);
    }
  }

  lemma RoundAdds(limit: string -> Positive, k: string, rounds: nat, m: nat)
    requires m < ROUND * rounds
    ensures AddsAt(Logs(limit, Rounds(k, rounds), k), m)
  {
    assert Rounds(k, rounds)[m].now == 0.0;
    LogAdds(limit, Rounds(k, rounds), k, m);
  }

  lemma LogAdds(limit: string -> Positive, trace: seq<Hit>, k: string, m: nat)
    requires m < |trace|
    ensures var logs := Logs(limit, trace, k); logs(m + 1) == logs(m) || logs(m + 1) == logs(m) + [trace[m].now]
  {
    LogStep(limit, trace, m, k);
  }

  lemma AdmittedGrows(limit: string -> Positive, trace: seq<Hit>, k: string, i: nat)
    requires i < |trace| && trace[i].key == k && Admitted(limit, trace, i)
    ensures |Logs(limit, trace, k)(i)| < |Logs(limit, trace, k)(i + 1)|
  {
    LogStep(limit, trace, i, k);
  }

  lemma RoundGrows(limit: string -> Positive, k: string, rounds: nat, j: nat)
    requires j < rounds
    ensures GrowsAt(Logs(limit, Rounds(k, rounds), k), j)
  {
    RoundAdmits(limit, k, rounds, j);
    AdmittedGrows(limit, Rounds(k, rounds), k, ROUND * j);
  }

  ghost predicate AllAt(log: seq<real>, t: real) {
    forall i :: 0 <= i < |log| ==> log[i] == t
  }

  lemma {:induction false} LogsAllAt(logs: nat -> seq<real>, rounds: nat, n: nat)
    requires RoundLogs(logs, rounds) && n <= ROUND * rounds
    ensures AllAt(logs(n), 0.0)
  {
    if n == 0 {
    } else {
      LogsAllAt(logs, rounds, n - 1);
      assert AddsAt(logs, n - 1);
    }
  }

  lemma CountAll(log: seq<real>, t: real)
    requires AllAt(log, t)
    ensures CountIf(log, Minute(t)) == |log|
  {
    CountSuffix(log, 0, Minute(t));
  }

  lemma RoundsGaps(k: string, rounds: nat, m: nat)
    requires MAX_TRACKED_KEYS <= m
    ensures GapsAtMost(Rounds(k, rounds), k, m)
  {
    var trace := Rounds(k, rounds);
    forall i, j | 0 <= i < j < |trace| && k !in KeysBetween(trace, i, j)
      ensures |KeysBetween(trace, i, j)| <= m
    {
      forall x | x in KeysBetween(trace, i, j)
        ensures x in Others(k)
      {
        var a :| i < a < j && trace[a].key == x;
        OtherLength(k, 0);
        assert Others(k)[a % ROUND - 1] == x;
      }
      OthersCount(k);
      SubsetSize(KeysBetween(trace, i, j), set x | x in Others(k));
    }
  }

  /** One more round than the limit, all within an instant: every request of `k` is admitted. */
  lemma RoundsExceed(limit: string -> Positive, k: string)
    ensures !Bounded(limit, Rounds(k, limit(k) + 1), k)
  {
    var rounds := limit(k) + 1;
    var trace := Rounds(k, rounds);
    RoundsLog(limit, k, rounds);
    LogsReach(Logs(limit, trace, k), rounds, rounds);
    LogsAllAt(Logs(limit, trace, k), rounds, |trace|);
    CountAll(Log(limit, trace, |trace|, k), 0.0);
    assert AdmittedSince(limit, trace, k, 0.0) > limit(k);
  }

  /** Main result: a client outnumbered by at most `m` other keys between close requests is held to its
      limit on every such trace, if and only if `m` is below MAX_TRACKED_KEYS. */
  lemma BoundaryIff(limit: string -> Positive, k: string, m: nat)
    ensures (forall trace :: ClockRuns(trace) && GapsAtMost(trace, k, m) ==> Bounded(limit, trace, k)) <==>
            m < MAX_TRACKED_KEYS
  {
    if m < MAX_TRACKED_KEYS {
      forall trace | ClockRuns(trace) && GapsAtMost(trace, k, m)
        ensures Bounded(limit, trace, k)
      {
        assert LruSafe(trace, k);
        forall t
          ensures AdmittedSince(limit, trace, k, t) <= limit(k)
        {
          WindowBound(limit, trace, |trace|, k, Minute(t));
        }
      }
    } else {
      RoundsGaps(k, limit(k) + 1, m);
      RoundsExceed(limit, k);
      assert ClockRuns(Rounds(k, limit(k) + 1));
    }
  }
}
