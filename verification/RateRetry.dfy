/** What a rejected client is told to wait, and whether waiting that long is enough. */
module RateRetry {
  import opened Prelude
  import opened RateLimiter

  /** A sorted log holds `m` admissions of the last 60 seconds if and only if its `m`-th last is one. */
  lemma {:induction false} CountAtLeast(log: seq<real>, m: nat, t: real)
    requires Sorted(log) && 0 < m <= |log|
    ensures CountIf(log, InWindow(t)) >= m <==> log[|log| - m] > t - 60.0
  {
    var last := log[|log| - 1];
    var front := log[..|log| - 1];
    if last > t - 60.0 {
      if m > 1 {
        CountAtLeast(front, m - 1, t);
      }
    } else {
      CountSuffix(log, |log|, InWindow(t));
    }
  }

  /** How long the request must wait for the oldest of its `limit` admissions to leave the window. */
  ghost function Remaining(limit: string -> Positive, trace: seq<Hit>, n: nat): real
    requires n < |trace| && limit(trace[n].key) <= |Log(limit, trace, n, trace[n].key)|
  {
    var log := Log(limit, trace, n, trace[n].key);
    log[|log| - limit(trace[n].key)] + 60.0 - trace[n].now
  }

  /** A window that holds its limit, all of it from the last 60 seconds, and agrees with its log. */
  ghost predicate Full(h: Hits, k: string, limit: Positive, now: real, log: seq<real>) {
    var w := SeenWindow(h, k, now);
    |w| == limit && Agrees(w, log, now - 60.0) && forall x :: x in w ==> x > now - 60.0
  }

  lemma FullRejects(h: Hits, k: string, limit: Positive, now: real, log: seq<real>)
    requires Full(h, k, limit, now, log)
    ensures limit <= |log|
    ensures var r := log[|log| - limit] + 60.0 - now;
            0.0 < r && Verdict(h, k, limit, now) == Reject(if r < 1.0 then 1 else r.Floor)
  {
    var w := SeenWindow(h, k, now);
    var d :| AgreesFrom(w, log, now - 60.0, d);
    assert w[0] in w;
  }

  lemma SeenBounded(h: Hits, k: string, limit: Positive, now: real)
    requires k in h.windows ==> WindowBounded(h.windows[k], limit, now)
    ensures |SeenWindow(h, k, now)| <= limit && forall x :: x in SeenWindow(h, k, now) ==> x > now - 60.0
  {
    TrimBounded(if k in h.windows then h.windows[k] else [], limit, now);
  }

  lemma RejectedIsFull(limit: string -> Positive, trace: seq<Hit>, n: nat)
    requires n < |trace| && ClockRuns(trace) && LruSafe(trace, trace[n].key) && !Admitted(limit, trace, n)
    ensures var k := trace[n].key;
            Full(Run(limit, trace, n), k, limit(k), trace[n].now, Log(limit, trace, n, k))
  {
    SeenIsLog(limit, trace, n);
    if n > 0 {
      RunBounds(limit, trace, n);
    }
    SeenBounded(Run(limit, trace, n), trace[n].key, limit(trace[n].key), trace[n].now);
  }

  /** A rejected request is told the whole seconds until its oldest admission leaves the window, or one. */
  lemma RetryAfterIs(limit: string -> Positive, trace: seq<Hit>, n: nat)
    requires n < |trace| && ClockRuns(trace) && LruSafe(trace, trace[n].key) && !Admitted(limit, trace, n)
    ensures limit(trace[n].key) <= |Log(limit, trace, n, trace[n].key)|
    ensures var r := Remaining(limit, trace, n);
            0.0 < r && Answer(limit, trace, n) == Reject(if r < 1.0 then 1 else r.Floor)
  {
    RejectedIsFull(limit, trace, n);
    FullRejects(Run(limit, trace, n), trace[n].key, limit(trace[n].key), trace[n].now,
      Log(limit, trace, n, trace[n].key));
  }

  lemma RoundedDown(log: seq<real>, limit: Positive, now: real, later: real)
    requires Sorted(log) && limit <= |log|
    requires var r := log[|log| - limit] + 60.0 - now;
             0.0 < r && later == now + (if r < 1.0 then 1 else r.Floor) as real
    ensures var r := log[|log| - limit] + 60.0 - now;
            CountIf(log, InWindow(later)) < limit <==> r <= 1.0 || r == r.Floor as real
  {
    CountAtLeast(log, limit, later);
  }

  /** When the wait is over its log has room if and only if the wait was not rounded down. */
  lemma RetryRoom(limit: string -> Positive, trace: seq<Hit>, n: nat, later: real)
    requires n < |trace| && ClockRuns(trace) && LruSafe(trace, trace[n].key) && !Admitted(limit, trace, n)
    requires later == trace[n].now + Answer(limit, trace, n).retryAfter as real
    ensures limit(trace[n].key) <= |Log(limit, trace, n, trace[n].key)|
    ensures var r := Remaining(limit, trace, n);
            CountIf(Log(limit, trace, n, trace[n].key), InWindow(later)) < limit(trace[n].key) <==>
            r <= 1.0 || r == r.Floor as real
  {
    RetryAfterIs(limit, trace, n);
    LogSorted(limit, trace, n, trace[n].key);
    RoundedDown(Log(limit, trace, n, trace[n].key), limit(trace[n].key), trace[n].now, later);
  }

  /** The next request is decided on the same log. */
  lemma NextCounts(limit: string -> Positive, trace: seq<Hit>, n: nat)
    requires n + 1 < |trace| && ClockRuns(trace) && LruSafe(trace, trace[n].key) && !Admitted(limit, trace, n)
    requires trace[n + 1].key == trace[n].key
    ensures Admitted(limit, trace, n + 1) <==>
            CountIf(Log(limit, trace, n, trace[n].key), InWindow(trace[n + 1].now)) < limit(trace[n].key)
  {
    LogStep(limit, trace, n, trace[n].key);
    AdmitsAsFullLog(limit, trace, n + 1);
  }

  /** The client's next request, made when it was told to, is admitted if and only if what it had to wait
      for was no more than a second or a whole number of them: the wait is rounded down. */
  lemma RetryAdmittedIff(limit: string -> Positive, trace: seq<Hit>, n: nat)
    requires n + 1 < |trace| && ClockRuns(trace) && LruSafe(trace, trace[n].key) && !Admitted(limit, trace, n)
    requires trace[n + 1].key == trace[n].key
    requires trace[n + 1].now == trace[n].now + Answer(limit, trace, n).retryAfter as real
    ensures limit(trace[n].key) <= |Log(limit, trace, n, trace[n].key)|
    ensures var r := Remaining(limit, trace, n);
            Admitted(limit, trace, n + 1) <==> r <= 1.0 || r == r.Floor as real
  {
    RetryRoom(limit, trace, n, trace[n + 1].now);
    NextCounts(limit, trace, n);
  }
}
