/** The limiter over requests: who is admitted, told by headers and buckets instead of tracking keys. */
module RateRequests {
  import opened Prelude
  import opened RateLimiter

  // ---------- Runs, by what Dispatch makes of each request: a hit, and a limit, zero for none ----------

  /** One call of `Dispatch`. */
  ghost predicate Answers(h: Hits, hit: Hit, lim: nat, h': Hits, d: Decision) {
    if lim == 0 then d == Bypass && h' == h
    else d == Verdict(h, hit.key, lim, hit.now) && h' == Step(h, hit.key, lim, hit.now)
  }

  datatype Calls = Calls(hits: seq<Hit>, lims: seq<nat>, states: seq<Hits>, answers: seq<Decision>)

  ghost predicate AnswersAt(c: Calls, n: nat)
    requires n < |c.hits| == |c.lims| == |c.answers| == |c.states| - 1
  {
    Answers(c.states[n], c.hits[n], c.lims[n], c.states[n + 1], c.answers[n])
  }

  /** Calls of `Dispatch` one after another, from the empty map on. */
  ghost predicate Serves(c: Calls) {
    && |c.hits| == |c.lims| == |c.answers| == |c.states| - 1
    && c.states[0] == Hits([], map[])
    && forall n: nat :: n < |c.hits| ==> AnswersAt(c, n)
  }

  /** Each limit is that of its key. */
  ghost predicate Fits(limit: string -> Positive, hits: seq<Hit>, lims: seq<nat>) {
    |hits| == |lims| && forall i :: 0 <= i < |hits| && lims[i] != 0 ==> limit(hits[i].key) == lims[i]
  }

  predicate Limited(hits: seq<Hit>, lims: seq<nat>, m: int, k: string)
    requires |hits| == |lims|
  {
    0 <= m < |hits| && lims[m] != 0 && hits[m].key == k
  }

  /** The limited ones among the first `n`. */
  function HitsOf(hits: seq<Hit>, lims: seq<nat>, n: nat): seq<Hit>
    requires n <= |hits| == |lims|
  {
    if n == 0 then []
    else HitsOf(hits, lims, n - 1) + if lims[n - 1] != 0 then [hits[n - 1]] else []
  }

  /** How many of the first `n` requests under a key were admitted after an instant. */
  function AdmittedSince(hits: seq<Hit>, answers: seq<Decision>, n: nat, k: string, since: real): nat
    requires n <= |hits| == |answers|
  {
    if n == 0 then 0
    else
      AdmittedSince(hits, answers, n - 1, k, since) +
      if hits[n - 1].key == k && answers[n - 1] == Admit && hits[n - 1].now > since then 1 else 0
  }

  lemma HitsNext(hits: seq<Hit>, lims: seq<nat>, n: nat)
    requires n < |hits| == |lims|
    ensures HitsOf(hits, lims, n + 1) ==
            if lims[n] != 0 then HitsOf(hits, lims, n) + [hits[n]] else HitsOf(hits, lims, n)
  {
  }

  // ---------- Where each hit comes from ----------

  function Source(hits: seq<Hit>, lims: seq<nat>, n: nat, i: nat): (m: nat)
    requires n <= |hits| == |lims| && i < |HitsOf(hits, lims, n)|
    ensures m < n && lims[m] != 0 && HitsOf(hits, lims, n)[i] == hits[m] && |HitsOf(hits, lims, m)| == i
  {
    if i < |HitsOf(hits, lims, n - 1)| then Source(hits, lims, n - 1, i) else n - 1
  }

  lemma {:induction false} HitsGrow(hits: seq<Hit>, lims: seq<nat>, m: nat, n: nat)
    requires m <= n <= |hits| == |lims|
    ensures HitsOf(hits, lims, m) <= HitsOf(hits, lims, n)
  {
    if m == n {
    } else {
      HitsGrow(hits, lims, m, n - 1);
    }
  }

  /** A limited request is the source of its hit. */
  lemma IsSource(hits: seq<Hit>, lims: seq<nat>, n: nat, m: nat)
    requires m < n <= |hits| == |lims| && lims[m] != 0
    ensures |HitsOf(hits, lims, m)| < |HitsOf(hits, lims, n)|
    ensures HitsOf(hits, lims, n)[|HitsOf(hits, lims, m)|] == hits[m]
  {
    assert HitsOf(hits, lims, m + 1) == HitsOf(hits, lims, m) + [hits[m]];
    HitsGrow(hits, lims, m + 1, n);
  }

  /** Hits keep the order of requests. */
  lemma KeepsOrder(hits: seq<Hit>, lims: seq<nat>, l: nat, m: nat)
    requires l < |hits| == |lims| && m < |hits| && lims[l] != 0 && lims[m] != 0
    ensures l < m <==> |HitsOf(hits, lims, l)| < |HitsOf(hits, lims, m)|
  {
    if l < m {
      IsSource(hits, lims, m, l);
    } else {
      HitsGrow(hits, lims, m, l);
    }
  }

  /** The keys of the limited requests between two. */
  function KeysAsked(hits: seq<Hit>, lims: seq<nat>, i: int, j: int): set<string>
    requires -1 <= i && j <= |hits| == |lims|
  {
    set m | i < m < j && lims[m] != 0 :: hits[m].key
  }

  /** Among the first `n`, two limited requests of `k` less than a window apart, with none between, have
      fewer than MAX_TRACKED_KEYS keys between them. */
  ghost predicate KeySafe(hits: seq<Hit>, lims: seq<nat>, n: nat, k: string)
    requires n <= |hits| == |lims|
  {
    forall i, j {:trigger KeysAsked(hits, lims, i, j)} ::
      0 <= i < j < n && Limited(hits, lims, i, k) && Limited(hits, lims, j, k) &&
      k !in KeysAsked(hits, lims, i, j) && hits[j].now - hits[i].now < 60.0 ==>
        |KeysAsked(hits, lims, i, j)| < MAX_TRACKED_KEYS
  }

  /** Between two hits lie the keys asked between their requests. */
  lemma SameKeys(hits: seq<Hit>, lims: seq<nat>, n: nat, i: nat, j: nat)
    requires n <= |hits| == |lims| && i < j < |HitsOf(hits, lims, n)|
    ensures KeysBetween(HitsOf(hits, lims, n), i, j) ==
            KeysAsked(hits, lims, Source(hits, lims, n, i), Source(hits, lims, n, j))
  {
    var trace, a, b := HitsOf(hits, lims, n), Source(hits, lims, n, i), Source(hits, lims, n, j);
    forall k | k in KeysBetween(trace, i, j)
      ensures k in KeysAsked(hits, lims, a, b)
    {
      var h :| i < h < j && trace[h].key == k;
      KeepsOrder(hits, lims, a, Source(hits, lims, n, h));
      KeepsOrder(hits, lims, Source(hits, lims, n, h), b);
    }
    forall k | k in KeysAsked(hits, lims, a, b)
      ensures k in KeysBetween(trace, i, j)
    {
      var m :| a < m < b && lims[m] != 0 && hits[m].key == k;
      KeepsOrder(hits, lims, a, m);
      KeepsOrder(hits, lims, m, b);
      IsSource(hits, lims, n, m);
    }
  }

  lemma TraceSafe(hits: seq<Hit>, lims: seq<nat>, n: nat, k: string)
    requires n <= |hits| == |lims| && KeySafe(hits, lims, n, k)
    ensures LruSafe(HitsOf(hits, lims, n), k)
  {
    var trace := HitsOf(hits, lims, n);
    forall i, j | 0 <= i < j < |trace| && trace[i].key == k && trace[j].key == k && k !in KeysBetween(trace, i, j)
                  && trace[j].now - trace[i].now < 60.0
      ensures |KeysBetween(trace, i, j)| < MAX_TRACKED_KEYS
    {
      KeepsOrder(hits, lims, Source(hits, lims, n, i), Source(hits, lims, n, j));
      SameKeys(hits, lims, n, i, j);
    }
  }

  lemma TraceClock(hits: seq<Hit>, lims: seq<nat>, n: nat)
    requires n <= |hits| == |lims| && ClockRuns(hits)
    ensures ClockRuns(HitsOf(hits, lims, n))
  {
    var trace := HitsOf(hits, lims, n);
    forall i, j | 0 <= i <= j < |trace|
      ensures trace[i].now <= trace[j].now
    {
      KeepsOrder(hits, lims, Source(hits, lims, n, i), Source(hits, lims, n, j));
      assert trace[i] == hits[Source(hits, lims, n, i)] && trace[j] == hits[Source(hits, lims, n, j)];
    }
  }

  // ---------- What the trace of hits leaves ----------

  lemma CountOne(log: seq<real>, x: real, p: real -> bool)
    ensures CountIf(log + [x], p) == CountIf(log, p) + if p(x) then 1 else 0
  {
    assert (log + [x])[..|log|] == log;
  }

  /** After `m` calls this is the map, and these are the admissions of `k` since an instant. */
  ghost predicate Matches(c: Calls, k: string, now: real, m: nat, h: Hits, log: seq<real>)
    requires m <= |c.hits| == |c.lims| == |c.answers| == |c.states| - 1
  {
    c.states[m] == h && AdmittedSince(c.hits, c.answers, m, k, now - 60.0) == CountIf(log, InWindow(now))
  }

  /** So it stays for the trace of the hits so far. */
  ghost predicate MatchKept(c: Calls, k: string, now: real, hs: nat -> Hits, logs: nat -> seq<real>, m: nat)
    requires m < |c.hits| == |c.lims| == |c.answers| == |c.states| - 1
  {
    var p, q := |HitsOf(c.hits, c.lims, m)|, |HitsOf(c.hits, c.lims, m + 1)|;
    Matches(c, k, now, m, hs(p), logs(p)) ==> Matches(c, k, now, m + 1, hs(q), logs(q))
  }

  lemma {:induction false} AllMatch(c: Calls, k: string, now: real, hs: nat -> Hits, logs: nat -> seq<real>, n: nat)
    requires Serves(c) && n <= |c.hits| && hs(0) == Hits([], map[]) && logs(0) == []
    requires forall m: nat :: m < n ==> MatchKept(c, k, now, hs, logs, m)
    ensures var p := |HitsOf(c.hits, c.lims, n)|; Matches(c, k, now, n, hs(p), logs(p))
  {
    if n == 0 {
    } else {
      AllMatch(c, k, now, hs, logs, n - 1);
      assert MatchKept(c, k, now, hs, logs, n - 1);
    }
  }

  ghost predicate LogsAt(limit: string -> Positive, trace: seq<Hit>, k: string, hs: nat -> Hits, logs: nat -> seq<real>,
      p: nat)
    requires p < |trace|
  {
    logs(p + 1) == if trace[p].key == k && Admits(hs(p), trace[p].key, limit(trace[p].key), trace[p].now)
                   then logs(p) + [trace[p].now] else logs(p)
  }

  lemma AnswerIs(c: Calls, n: nat)
    requires Serves(c) && n < |c.hits| && c.lims[n] != 0
    ensures c.answers[n] == Verdict(c.states[n], c.hits[n].key, c.lims[n], c.hits[n].now)
    ensures c.states[n + 1] == Step(c.states[n], c.hits[n].key, c.lims[n], c.hits[n].now)
  {
    assert AnswersAt(c, n);
  }

  lemma CountStep(limit: string -> Positive, c: Calls, k: string, now: real, log: seq<real>, log': seq<real>, m: nat)
    requires Serves(c) && m < |c.hits| && Fits(limit, c.hits, c.lims) && c.lims[m] != 0
    requires var hit := c.hits[m];
             log' == if hit.key == k && Admits(c.states[m], hit.key, limit(hit.key), hit.now)
                     then log + [hit.now] else log
    ensures CountIf(log', InWindow(now)) - CountIf(log, InWindow(now)) ==
            if c.hits[m].key == k && c.answers[m] == Admit && c.hits[m].now > now - 60.0 then 1 else 0
  {
    AnswerIs(c, m);
    CountOne(log, c.hits[m].now, InWindow(now));
  }

  lemma StateStep(limit: string -> Positive, c: Calls, h: Hits, hit: Hit, h': Hits, m: nat)
    requires Serves(c) && m < |c.hits| && Fits(limit, c.hits, c.lims) && c.lims[m] != 0 && c.hits[m] == hit
    requires c.states[m] == h && h' == Step(h, hit.key, limit(hit.key), hit.now)
    ensures c.states[m + 1] == h'
  {
    AnswerIs(c, m);
  }

  lemma MatchStep(limit: string -> Positive, c: Calls, k: string, now: real, m: nat, h: Hits, log: seq<real>, h': Hits,
      log': seq<real>)
    requires Serves(c) && m < |c.hits| && Fits(limit, c.hits, c.lims) && c.lims[m] != 0
    requires Matches(c, k, now, m, h, log)
    requires var hit := c.hits[m];
             && h' == Step(h, hit.key, limit(hit.key), hit.now)
             && log' == if hit.key == k && Admits(h, hit.key, limit(hit.key), hit.now) then log + [hit.now] else log
    ensures Matches(c, k, now, m + 1, h', log')
  {
    StateStep(limit, c, h, c.hits[m], h', m);
    CountStep(limit, c, k, now, log, log', m);
  }

  lemma KeepsMatch(limit: string -> Positive, c: Calls, k: string, now: real, trace: seq<Hit>, hs: nat -> Hits,
      logs: nat -> seq<real>, m: nat)
    requires Serves(c) && m < |c.hits| && Fits(limit, c.hits, c.lims)
    requires c.lims[m] != 0 ==>
               var p := |HitsOf(c.hits, c.lims, m)|;
               && p < |trace| && trace[p] == c.hits[m]
               && StepsAt(limit, trace, hs, p) && LogsAt(limit, trace, k, hs, logs, p)
    ensures MatchKept(c, k, now, hs, logs, m)
  {
    var p := |HitsOf(c.hits, c.lims, m)|;
    HitsNext(c.hits, c.lims, m);
    if c.lims[m] == 0 {
      assert AnswersAt(c, m);
    } else if Matches(c, k, now, m, hs(p), logs(p)) {
      MatchStep(limit, c, k, now, m, hs(p), logs(p), hs(p + 1), logs(p + 1));
    }
  }

  /** With the log of `k` the map decides request `p`. */
  ghost predicate DecidesAt(limit: string -> Positive, trace: seq<Hit>, hs: nat -> Hits, logs: nat -> seq<real>, p: nat)
    requires p < |trace|
  {
    Verdict(hs(p), trace[p].key, limit(trace[p].key), trace[p].now) == Admit <==>
    CountIf(logs(p), InWindow(trace[p].now)) < limit(trace[p].key)
  }

  /** The maps and logs of a trace: on a safe one, they decide every request of the key. */
  ghost predicate Records(limit: string -> Positive, trace: seq<Hit>, k: string, hs: nat -> Hits,
      logs: nat -> seq<real>)
  {
    && hs(0) == Hits([], map[]) && logs(0) == []
    && (forall p: nat :: p < |trace| ==> StepsAt(limit, trace, hs, p))
    && (forall p: nat :: p < |trace| ==> LogsAt(limit, trace, k, hs, logs, p))
  }

  lemma RunRecords(limit: string -> Positive, trace: seq<Hit>, k: string)
    ensures Records(limit, trace, k, Runs(limit, trace), Logs(limit, trace, k))
  {
    RunsStep(limit, trace);
    forall p: nat | p < |trace|
      ensures LogsAt(limit, trace, k, Runs(limit, trace), Logs(limit, trace, k), p)
    {
      LogStep(limit, trace, p, k);
    }
  }

  lemma RunDecides(limit: string -> Positive, trace: seq<Hit>, p: nat)
    requires p < |trace| && ClockRuns(trace) && LruSafe(trace, trace[p].key)
    ensures DecidesAt(limit, trace, Runs(limit, trace), Logs(limit, trace, trace[p].key), p)
  {
    AdmitsAsFullLog(limit, trace, p);
  }

  lemma RecordsOf(limit: string -> Positive, trace: seq<Hit>, p: nat) returns (hs: nat -> Hits, logs: nat -> seq<real>)
    requires p < |trace| && ClockRuns(trace) && LruSafe(trace, trace[p].key)
    ensures Records(limit, trace, trace[p].key, hs, logs) && DecidesAt(limit, trace, hs, logs, p)
  {
    hs, logs := Runs(limit, trace), Logs(limit, trace, trace[p].key);
    RunRecords(limit, trace, trace[p].key);
    RunDecides(limit, trace, p);
  }

  lemma TraceMatches(limit: string -> Positive, c: Calls, k: string, now: real, n: nat, trace: seq<Hit>,
      hs: nat -> Hits, logs: nat -> seq<real>)
    requires Serves(c) && n < |c.hits| && Fits(limit, c.hits, c.lims) && trace == HitsOf(c.hits, c.lims, n + 1)
    requires Records(limit, trace, k, hs, logs)
    ensures var p := |HitsOf(c.hits, c.lims, n)|; Matches(c, k, now, n, hs(p), logs(p))
  {
    forall m: nat | m < n
      ensures MatchKept(c, k, now, hs, logs, m)
    {
      if c.lims[m] != 0 {
        IsSource(c.hits, c.lims, n + 1, m);
        assert StepsAt(limit, trace, hs, |HitsOf(c.hits, c.lims, m)|);
        assert LogsAt(limit, trace, k, hs, logs, |HitsOf(c.hits, c.lims, m)|);
      }
      KeepsMatch(limit, c, k, now, trace, hs, logs, m);
    }
    AllMatch(c, k, now, hs, logs, n);
  }

  lemma TraceOf(c: Calls, n: nat) returns (trace: seq<Hit>)
    requires n < |c.hits| == |c.lims| && c.lims[n] != 0
    requires ClockRuns(c.hits) && KeySafe(c.hits, c.lims, n + 1, c.hits[n].key)
    ensures trace == HitsOf(c.hits, c.lims, n + 1) && ClockRuns(trace) && LruSafe(trace, c.hits[n].key)
    ensures var p := |HitsOf(c.hits, c.lims, n)|; p < |trace| && trace[p] == c.hits[n]
  {
    trace := HitsOf(c.hits, c.lims, n + 1);
    TraceClock(c.hits, c.lims, n + 1);
    TraceSafe(c.hits, c.lims, n + 1, c.hits[n].key);
    HitsNext(c.hits, c.lims, n);
  }

  /** A limited request whose key is not crowded out is admitted if and only if fewer than its limit were
      admitted under the key in the last 60 seconds. */
  lemma KeyAdmittedIff(limit: string -> Positive, c: Calls, n: nat)
    requires Serves(c) && n < |c.hits| && c.lims[n] != 0 && Fits(limit, c.hits, c.lims)
    requires ClockRuns(c.hits) && KeySafe(c.hits, c.lims, n + 1, c.hits[n].key)
    ensures c.answers[n] == Admit <==>
            AdmittedSince(c.hits, c.answers, n, c.hits[n].key, c.hits[n].now - 60.0) < c.lims[n]
  {
    var trace := TraceOf(c, n);
    var hs, logs := RecordsOf(limit, trace, |HitsOf(c.hits, c.lims, n)|);
    TraceMatches(limit, c, c.hits[n].key, c.hits[n].now, n, trace, hs, logs);
    AnswerIs(c, n);
  }

  // ---------- Requests ----------

  /** Requests at their instants, with the map before and after each and the answers. */
  datatype Served = Served(s: Settings, reqs: seq<Request>, nows: seq<real>, states: seq<Hits>, answers: seq<Decision>)
  {
    ghost predicate DispatchedAt(n: nat)
      requires n < |reqs| == |nows| == |answers| == |states| - 1
    {
      Dispatched(s, states[n], reqs[n], nows[n], states[n + 1], answers[n])
    }

    /** A run of `Dispatch` from the empty map on, while the clock does not go back. */
    ghost predicate Valid() {
      && |reqs| == |nows| == |answers| == |states| - 1
      && states[0] == Hits([], map[])
      && (forall n: nat :: n < |reqs| ==> DispatchedAt(n))
      && forall i, j :: 0 <= i <= j < |nows| ==> nows[i] <= nows[j]
    }

    /** How many of the first `n` requests with this header and bucket were admitted after an instant. */
    function AdmittedFor(client: (string, Bucket), n: nat, since: real): nat
      requires n <= |reqs| == |nows| == |answers|
    {
      if n == 0 then 0
      else
        AdmittedFor(client, n - 1, since) +
        if Client(reqs[n - 1]) == client && answers[n - 1] == Admit && nows[n - 1] > since then 1 else 0
    }

    predicate Asks(m: int, client: (string, Bucket)) {
      0 <= m < |reqs| && LimitFor(s, reqs[m]) != 0 && Client(reqs[m]) == client
    }

    /** The headers and buckets of the limited requests between two. */
    function Between(i: int, j: int): set<(string, Bucket)>
      requires -1 <= i && j <= |reqs|
    {
      set m | i < m < j && LimitFor(s, reqs[m]) != 0 :: Client(reqs[m])
    }

    /** Among the first `n`, two limited requests of the client less than a window apart, with none between,
        have fewer than MAX_TRACKED_KEYS others between them. */
    ghost predicate NotCrowdedOut(client: (string, Bucket), n: nat)
      requires n <= |reqs| == |nows|
    {
      forall i, j {:trigger Between(i, j)} ::
        0 <= i < j < n && Asks(i, client) && Asks(j, client) && client !in Between(i, j) && nows[j] - nows[i] < 60.0 ==>
          |Between(i, j)| < MAX_TRACKED_KEYS
    }
  }

  /** Call `i` is what `Dispatch` makes of request `i`. */
  ghost predicate SpeaksAt(q: Served, c: Calls, i: nat)
    requires i < |q.reqs| == |q.nows| == |c.hits| == |c.lims|
  {
    c.hits[i] == Hit(TrackingKey(q.reqs[i]), q.nows[i]) && c.lims[i] == LimitFor(q.s, q.reqs[i])
  }

  ghost predicate Speaks(q: Served, c: Calls) {
    && |q.reqs| == |q.nows| == |c.hits| == |c.lims|
    && c.states == q.states && c.answers == q.answers
    && forall i: nat :: i < |q.reqs| ==> SpeaksAt(q, c, i)
  }

  lemma CallsOf(q: Served) returns (c: Calls)
    requires q.Valid()
    ensures Speaks(q, c)
  {
    c := Calls(seq(|q.reqs|, i requires 0 <= i < |q.reqs| => Hit(TrackingKey(q.reqs[i]), q.nows[i])),
      seq(|q.reqs|, i requires 0 <= i < |q.reqs| => LimitFor(q.s, q.reqs[i])), q.states, q.answers);
  }

  lemma SpeaksServes(q: Served, c: Calls)
    requires q.Valid() && Speaks(q, c)
    ensures Serves(c)
  {
    forall n: nat | n < |c.hits|
      ensures AnswersAt(c, n)
    {
      assert q.DispatchedAt(n) && SpeaksAt(q, c, n);
    }
  }

  lemma SpeaksClock(q: Served, c: Calls)
    requires q.Valid() && Speaks(q, c)
    ensures ClockRuns(c.hits)
  {
    forall i, j | 0 <= i <= j < |c.hits|
      ensures c.hits[i].now <= c.hits[j].now
    {
      assert SpeaksAt(q, c, i) && SpeaksAt(q, c, j);
    }
  }

  /** The limit a key falls under, read off its end. */
  function LimitOfKey(s: Settings, k: string): Positive {
    var b := if |k| >= 3 && k[|k| - 3..] == "ads" then Uploads
             else if |k| >= 3 && k[|k| - 3..] == "tes" then Writes
             else General;
    if BucketLimit(s, b) == 0 then 1 else BucketLimit(s, b)
  }

  lemma KeyEnds(s: Settings, r: Request)
    requires LimitFor(s, r) != 0
    ensures LimitOfKey(s, TrackingKey(r)) == LimitFor(s, r)
  {
    var n := BucketName(BucketOf(r.path, r.verb));
    var k := TrackingKey(r);
    assert k == RawKey(r) + ":" + n && n[|n| - 3..] == k[|k| - 3..];
    assert "uploads"[4..] == "ads" && "writes"[3..] == "tes" && "general"[4..] == "ral";
    assert "ral"[0] == 'r' && "ads"[0] == 'a' && "tes"[0] == 't';
  }

  lemma SpeaksFit(q: Served, c: Calls) returns (limit: string -> Positive)
    requires Speaks(q, c)
    ensures Fits(limit, c.hits, c.lims)
  {
    limit := k => LimitOfKey(q.s, k);
    forall i | 0 <= i < |c.hits| && c.lims[i] != 0
      ensures limit(c.hits[i].key) == c.lims[i]
    {
      assert SpeaksAt(q, c, i);
      KeyEnds(q.s, q.reqs[i]);
    }
  }

  lemma {:induction false} AdmittedForKey(q: Served, c: Calls, r: Request, n: nat, since: real)
    requires Speaks(q, c) && n <= |q.reqs| == |q.answers|
    ensures q.AdmittedFor(Client(r), n, since) == AdmittedSince(c.hits, c.answers, n, TrackingKey(r), since)
  {
    if n == 0 {
    } else {
      AdmittedForKey(q, c, r, n - 1, since);
      assert SpeaksAt(q, c, n - 1);
      TrackingKeyIff(q.reqs[n - 1], r);
    }
  }

  /** As many keys as things they are the keys of, at most. */
  lemma {:induction false} ImageSize<T>(xs: set<T>, keys: set<string>, of: T -> string)
    requires forall k :: k in keys ==> exists x :: x in xs && of(x) == k
    ensures |keys| <= |xs|
    decreases |xs|
  {
    if keys == {} {
    } else {
      var k :| k in keys;
      var x :| x in xs && of(x) == k;
      forall l | l in keys - {k}
        ensures exists y :: y in xs - {x} && of(y) == l
      {
        var y :| y in xs && of(y) == l;
        assert y in xs - {x};
      }
      ImageSize(xs - {x}, keys - {k}, of);
    }
  }

  function KeyText(c: (string, Bucket)): string {
    c.0 + ":" + BucketName(c.1)
  }

  lemma KeysFew(q: Served, c: Calls, i: nat, j: nat)
    requires Speaks(q, c) && i < j < |q.reqs|
    ensures |KeysAsked(c.hits, c.lims, i, j)| <= |q.Between(i, j)|
  {
    forall k | k in KeysAsked(c.hits, c.lims, i, j)
      ensures exists x :: x in q.Between(i, j) && KeyText(x) == k
    {
      var m :| i < m < j && c.lims[m] != 0 && c.hits[m].key == k;
      assert SpeaksAt(q, c, m);
      assert Client(q.reqs[m]) in q.Between(i, j) && KeyText(Client(q.reqs[m])) == k;
    }
    ImageSize(q.Between(i, j), KeysAsked(c.hits, c.lims, i, j), KeyText);
  }

  lemma LimitedAsks(q: Served, c: Calls, m: nat, r: Request)
    requires Speaks(q, c) && m < |q.reqs|
    ensures Limited(c.hits, c.lims, m, TrackingKey(r)) <==> q.Asks(m, Client(r))
  {
    assert SpeaksAt(q, c, m);
    TrackingKeyIff(q.reqs[m], r);
  }

  lemma BetweenKey(q: Served, c: Calls, i: nat, j: nat, r: Request)
    requires Speaks(q, c) && i < j < |q.reqs| && Client(r) in q.Between(i, j)
    ensures TrackingKey(r) in KeysAsked(c.hits, c.lims, i, j)
  {
    var m :| i < m < j && LimitFor(q.s, q.reqs[m]) != 0 && Client(q.reqs[m]) == Client(r);
    LimitedAsks(q, c, m, r);
  }

  lemma SpeaksSafe(q: Served, c: Calls, r: Request, n: nat)
    requires Speaks(q, c) && n <= |q.reqs| && q.NotCrowdedOut(Client(r), n)
    ensures KeySafe(c.hits, c.lims, n, TrackingKey(r))
  {
    var k := TrackingKey(r);
    forall i, j | 0 <= i < j < n && Limited(c.hits, c.lims, i, k) && Limited(c.hits, c.lims, j, k)
                  && k !in KeysAsked(c.hits, c.lims, i, j) && c.hits[j].now - c.hits[i].now < 60.0
      ensures |KeysAsked(c.hits, c.lims, i, j)| < MAX_TRACKED_KEYS
    {
      LimitedAsks(q, c, i, r);
      LimitedAsks(q, c, j, r);
      assert SpeaksAt(q, c, i) && SpeaksAt(q, c, j);
      if Client(r) in q.Between(i, j) {
        BetweenKey(q, c, i, j, r);
      }
      KeysFew(q, c, i, j);
    }
  }

  lemma KeyAnswer(q: Served, c: Calls, n: nat)
    requires q.Valid() && Speaks(q, c) && n < |q.reqs| && q.NotCrowdedOut(Client(q.reqs[n]), n + 1)
    requires SpeaksAt(q, c, n) && c.lims[n] != 0
    ensures c.answers[n] == Admit <==>
            AdmittedSince(c.hits, c.answers, n, c.hits[n].key, c.hits[n].now - 60.0) < c.lims[n]
  {
    SpeaksServes(q, c);
    SpeaksClock(q, c);
    SpeaksSafe(q, c, q.reqs[n], n + 1);
    var limit := SpeaksFit(q, c);
    KeyAdmittedIff(limit, c, n);
  }

  lemma SpeaksOfLimit(q: Served, c: Calls, n: nat)
    requires Speaks(q, c) && n < |q.reqs| && LimitFor(q.s, q.reqs[n]) != 0
    ensures SpeaksAt(q, c, n) && c.lims[n] != 0
  {
  }

  lemma ClientAnswer(q: Served, c: Calls, n: nat)
    requires q.Valid() && Speaks(q, c) && n < |q.reqs| && q.NotCrowdedOut(Client(q.reqs[n]), n + 1)
    requires SpeaksAt(q, c, n) && c.lims[n] != 0
    ensures q.answers[n] == Admit <==>
            q.AdmittedFor(Client(q.reqs[n]), n, q.nows[n] - 60.0) < LimitFor(q.s, q.reqs[n])
  {
    KeyAnswer(q, c, n);
    AdmittedForKey(q, c, q.reqs[n], n, c.hits[n].now - 60.0);
  }

  lemma UnlimitedPasses(q: Served, n: nat)
    requires q.Valid() && n < |q.reqs| && LimitFor(q.s, q.reqs[n]) == 0
    ensures q.answers[n] == Bypass && q.states[n + 1] == q.states[n]
  {
    assert q.DispatchedAt(n);
  }

  /** Main result: on every run of `Dispatch`, a limited request of a client that is not crowded out is
      admitted if and only if fewer than its limit of requests with its header and bucket were admitted in
      the last 60 seconds. */
  lemma RequestAdmittedIff(q: Served, n: nat)
    requires q.Valid() && n < |q.reqs| && q.NotCrowdedOut(Client(q.reqs[n]), n + 1)
    requires LimitFor(q.s, q.reqs[n]) != 0
    ensures q.answers[n] == Admit <==>
            q.AdmittedFor(Client(q.reqs[n]), n, q.nows[n] - 60.0) < LimitFor(q.s, q.reqs[n])
  {
    var c := CallsOf(q);
    SpeaksOfLimit(q, c, n);
    ClientAnswer(q, c, n);
  }
}
