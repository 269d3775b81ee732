/** The in-memory sliding-window rate limiter: an LRU map from client keys to trimmed deques of
    admission times, proved to enforce what a complete log of admissions would. */
module RateLimiter {
  import opened Prelude

  const MAX_TRACKED_KEYS: nat := 10000

  // ---------- Which key and which limit a request falls under ----------

  datatype Settings = Settings(enabled: bool, general: nat, writes: nat, uploads: nat)

  datatype Request = Request(path: string, verb: string, apiKey: Option<string>)

  datatype Bucket = Uploads | Writes | General

  function BucketOf(path: string, verb: string): Bucket {
    if "/api/v1/uploads" <= path || ("/api/v1/files" <= path && verb == "POST") then Uploads
    else if verb in ["POST", "PUT", "PATCH", "DELETE"] then Writes
    else General
  }

  function BucketName(b: Bucket): string {
    match b
    case Uploads => "uploads"
    case Writes => "writes"
    case General => "general"
  }

  function BucketLimit(s: Settings, b: Bucket): nat {
    match b
    case Uploads => s.uploads
    case Writes => s.writes
    case General => s.general
  }

  /** The text whose SHA-256 keys the map; the digest is taken to be collision-free. */
  function TrackingKey(r: Request): string {
    (match r.apiKey case Some(k) => k case None => "anon") + ":" + BucketName(BucketOf(r.path, r.verb))
  }

  function LimitFor(s: Settings, r: Request): nat {
    if !s.enabled || "/health" <= r.path || r.path == "/" then 0
    else BucketLimit(s, BucketOf(r.path, r.verb))
  }

  lemma StartsWith(p: string, q: string, rest: string)
    requires |p| <= |q|
    ensures p <= q + rest <==> p <= q
  {
    assert (q + rest)[..|p|] == q[..|p|];
  }

  /** Which requests are limited, and by which setting: none if the limiter is off, nor health checks or
      the root; uploads and the files posted by their own; other writes by theirs; reads by the general
      one. */
  lemma LimitIs(s: Settings, rest: string, verb: string, apiKey: Option<string>)
    ensures forall r :: !s.enabled ==> LimitFor(s, r) == 0
    ensures LimitFor(s, Request("/health" + rest, verb, apiKey)) == LimitFor(s, Request("/", verb, apiKey)) == 0
    ensures s.enabled ==>
              var write := verb in {"POST", "PUT", "PATCH", "DELETE"};
              && LimitFor(s, Request("/api/v1/uploads" + rest, verb, apiKey)) == s.uploads
              && LimitFor(s, Request("/api/v1/files" + rest, verb, apiKey)) ==
                   (if verb == "POST" then s.uploads else if write then s.writes else s.general)
              && LimitFor(s, Request("/api/v1/records" + rest, verb, apiKey)) ==
                   (if write then s.writes else s.general)
  {
    StartsWith("/health", "/health", rest);
    StartsWith("/health", "/api/v1/uploads", rest);
    StartsWith("/health", "/api/v1/files", rest);
    StartsWith("/health", "/api/v1/records", rest);
    assert "/health"[1] != "/api/v1/uploads"[1] && "/health"[1] != "/api/v1/files"[1];
    assert "/health"[1] != "/api/v1/records"[1];
    StartsWith("/api/v1/uploads", "/api/v1/uploads", rest);
    StartsWith("/api/v1/files", "/api/v1/files", rest);
    StartsWith("/api/v1/uploads", "/api/v1/records", rest);
    StartsWith("/api/v1/files", "/api/v1/records", rest);
    StartsApart("/api/v1/uploads", "/api/v1/files" + rest);
    assert "/api/v1/uploads"[8] != "/api/v1/records"[8] && "/api/v1/files"[8] != "/api/v1/records"[8];
  }

  lemma StartsApart(p: string, q: string)
    requires |p| > 8 && |q| > 8 && p[8] != q[8]
    ensures !(p <= q)
  {
  }

  /** The text before the last colon: the header, or what stands for a missing one. */
  function RawKey(r: Request): string {
    match r.apiKey case Some(k) => k case None => "anon"
  }

  /** Whose request it is, and of which kind. */
  function Client(r: Request): (string, Bucket) {
    (RawKey(r), BucketOf(r.path, r.verb))
  }

  /** Two requests share a window if and only if they have the same header and the same bucket. */
  lemma TrackingKeyIff(a: Request, b: Request)
    ensures TrackingKey(a) == TrackingKey(b) <==> Client(a) == Client(b)
  {
    var n, m := BucketName(BucketOf(a.path, a.verb)), BucketName(BucketOf(b.path, b.verb));
    assert TrackingKey(a) == RawKey(a) + ":" + n && TrackingKey(b) == RawKey(b) + ":" + m;
    if TrackingKey(a) == TrackingKey(b) {
      SameEnd(RawKey(a), n, RawKey(b), m);
      assert n[|n| - 2] == m[|m| - 2] && n[|n| - 3] == m[|m| - 3];
      assert n == m;
      assert RawKey(a) == TrackingKey(a)[..|RawKey(a)|] && RawKey(b) == TrackingKey(b)[..|RawKey(b)|];
    }
  }

  lemma SameEnd(a: string, n: string, b: string, m: string)
    requires a + ":" + n == b + ":" + m && |n| >= 3 && |m| >= 3
    ensures n[|n| - 2] == m[|m| - 2] && n[|n| - 3] == m[|m| - 3]
  {
    var k, l := a + ":" + n, b + ":" + m;
    assert k[|k| - 2] == n[|n| - 2] && l[|l| - 2] == m[|m| - 2];
    assert k[|k| - 3] == n[|n| - 3] && l[|l| - 3] == m[|m| - 3];
  }

  /** The bucket can be read back off the key, so one key is never limited in two ways. */
  lemma KeyFixesLimit(s: Settings, a: Request, b: Request)
    requires LimitFor(s, a) != 0 && LimitFor(s, b) != 0
    requires TrackingKey(a) == TrackingKey(b)
    ensures LimitFor(s, a) == LimitFor(s, b)
  {
    var k := TrackingKey(a);
    var n, m := BucketName(BucketOf(a.path, a.verb)), BucketName(BucketOf(b.path, b.verb));
    assert k[|k| - 1] == n[|n| - 1] && k[|k| - 1] == m[|m| - 1];
    assert k[|k| - 2] == n[|n| - 2] && k[|k| - 2] == m[|m| - 2];
    assert k[|k| - 3] == n[|n| - 3] && k[|k| - 3] == m[|m| - 3];
  }

  // ---------- The map and one dispatch ----------

  /** `_hits`: keys from least to most recently used, and the deque of each. */
  datatype Hits = Hits(order: seq<string>, windows: map<string, seq<real>>)

  datatype Decision = Bypass | Admit | Reject(retryAfter: int)

  type Positive = n: int | 0 < n witness 1

  ghost predicate ValidHits(h: Hits) {
    && (forall i, j :: 0 <= i < j < |h.order| ==> h.order[i] != h.order[j])
    && (forall k :: k in h.order <==> k in h.windows)
    && |h.order| <= MAX_TRACKED_KEYS
  }

  function IndexOf(xs: seq<string>, k: string): (p: nat)
    requires k in xs
    ensures p < |xs| && xs[p] == k
  {
    if xs[0] == k then 0 else 1 + IndexOf(xs[1..], k)
  }

  /** `_hits` after inserting the key, or after `move_to_end`. */
  function Touched(order: seq<string>, k: string): seq<string> {
    if k in order then
      var p := IndexOf(order, k);
      order[..p] + order[p + 1..] + [k]
    else
      order + [k]
  }

  /** Drop the least recently used keys beyond the bound. */
  function Evict(order: seq<string>, windows: map<string, seq<real>>): Hits {
    var extra := Max(0, |order| - MAX_TRACKED_KEYS);
    Hits(order[extra..], map k | k in windows && k !in order[..extra] :: windows[k])
  }

  function Trim(w: seq<real>, now: real): seq<real> {
    if w != [] && w[0] <= now - 60.0 then Trim(w[1..], now) else w
  }

  function Max(a: int, b: int): int { if a < b then b else a }

  /** The window a dispatch decides on: the key's deque (new or existing), trimmed. */
  function SeenWindow(h: Hits, k: string, now: real): seq<real> {
    Trim(if k in h.windows then h.windows[k] else [], now)
  }

  function Tracked(h: Hits, k: string): Hits {
    Evict(Touched(h.order, k), if k in h.windows then h.windows else h.windows[k := []])
  }

  predicate Admits(h: Hits, k: string, limit: Positive, now: real) {
    |SeenWindow(h, k, now)| < limit
  }

  /** The map after a dispatch: only an admitted request joins its deque. */
  function Step(h: Hits, k: string, limit: Positive, now: real): Hits {
    var kept, w := Tracked(h, k), SeenWindow(h, k, now);
    Hits(kept.order, kept.windows[k := if Admits(h, k, limit, now) then w + [now] else w])
  }

  function Verdict(h: Hits, k: string, limit: Positive, now: real): Decision {
    if Admits(h, k, limit, now) then Admit
    else Reject(Max(1, (SeenWindow(h, k, now)[0] + 60.0 - now).Floor))
  }

  lemma TouchedProps(order: seq<string>, k: string)
    requires forall i, j :: 0 <= i < j < |order| ==> order[i] != order[j]
    ensures var t := Touched(order, k);
            && t != [] && t[|t| - 1] == k
            && |t| == |order| + (if k in order then 0 else 1)
            && (forall i, j :: 0 <= i < j < |t| ==> t[i] != t[j])
            && (forall x :: x in t <==> x in order || x == k)
  {
    var t := Touched(order, k);
    if k in order {
      var p := IndexOf(order, k);
      assert t == order[..p] + order[p + 1..] + [k];
      forall x | x in order
        ensures x in t
      {
        var i :| 0 <= i < |order| && order[i] == x;
        assert i < p ==> t[i] == x;
        assert i > p ==> t[i - 1] == x;
      }
    }
  }

  lemma SuffixMembers(t: seq<string>, e: int)
    requires forall i, j :: 0 <= i < j < |t| ==> t[i] != t[j]
    requires 0 <= e <= |t|
    ensures forall x :: x in t[e..] <==> x in t && x !in t[..e]
  {
    assert t == t[..e] + t[e..];
    forall x | x in t[e..]
      ensures x !in t[..e]
    {
      var j :| 0 <= j < |t[e..]| && t[e..][j] == x;
      assert t[e + j] == x;
    }
  }

  lemma EvictValid(t: seq<string>, windows: map<string, seq<real>>)
    requires forall i, j :: 0 <= i < j < |t| ==> t[i] != t[j]
    requires forall x :: x in t <==> x in windows
    ensures ValidHits(Evict(t, windows))
    ensures t != [] ==> t[|t| - 1] in Evict(t, windows).windows
  {
    var e := Max(0, |t| - MAX_TRACKED_KEYS);
    SuffixMembers(t, e);
    if t != [] {
      assert t[e..][|t| - e - 1] == t[|t| - 1];
    }
  }

  /** Touching and evicting keep a valid map that still tracks the key just used. */
  lemma TrackedValid(h: Hits, k: string)
    requires ValidHits(h)
    ensures ValidHits(Tracked(h, k))
    ensures k in Tracked(h, k).windows
  {
    TouchedProps(h.order, k);
    EvictValid(Touched(h.order, k), if k in h.windows then h.windows else h.windows[k := []]);
  }

  lemma StepValid(h: Hits, k: string, limit: Positive, now: real)
    requires ValidHits(h)
    ensures ValidHits(Step(h, k, limit, now))
  {
    TrackedValid(h, k);
  }

  /** What a dispatch leaves and answers. */
  ghost predicate Dispatched(s: Settings, h: Hits, r: Request, now: real, h': Hits, d: Decision) {
    if LimitFor(s, r) == 0 then d == Bypass && h' == h
    else
      && d == Verdict(h, TrackingKey(r), LimitFor(s, r), now)
      && h' == Step(h, TrackingKey(r), LimitFor(s, r), now)
  }

  class RateLimitMiddleware {
    const settings: Settings
    var order: seq<string>
    var windows: map<string, seq<real>>

    ghost function State(): Hits reads this { Hits(order, windows) }

    ghost predicate Valid() reads this { ValidHits(State()) }

    constructor (settings: Settings)
      ensures Valid() && this.settings == settings && State() == Hits([], map[])
    {
      this.settings := settings;
      order, windows := [], map[];
    }

    method Dispatch(r: Request, now: real) returns (d: Decision)
      requires Valid()
      modifies this
      ensures Valid()
      ensures Dispatched(settings, old(State()), r, now, State(), d)
    {
      var limit := LimitFor(settings, r);
      if limit == 0 {
        return Bypass;
      }
      StepValid(State(), TrackingKey(r), limit, now);
      d := Limited(TrackingKey(r), limit, now);
    }

    method Limited(key: string, limit: Positive, now: real) returns (d: Decision)
      requires key in order <==> key in windows
      modifies this
      ensures State() == Step(old(State()), key, limit, now)
      ensures d == Verdict(old(State()), key, limit, now)
    {
      ghost var was := State();
      var window := Touch(key);
      BoundMap();
      assert State() == Tracked(was, key);
      window := TrimWindow(window, now);
      d, window := Decide(window, limit, now);
      windows := windows[key := window];
    }

    /** Admits into the trimmed window, or says how long to wait. */
    method Decide(seen: seq<real>, limit: Positive, now: real) returns (d: Decision, window: seq<real>)
      ensures |seen| < limit ==> d == Admit && window == seen + [now]
      ensures |seen| >= limit ==> d == Reject(Max(1, (seen[0] + 60.0 - now).Floor)) && window == seen
    {
      if |seen| >= limit {
        return Reject(Max(1, (seen[0] + 60.0 - now).Floor)), seen;
      }
      return Admit, seen + [now];
    }

    /** Fetch or insert the key's deque, and make the key the most recently used. */
    method Touch(key: string) returns (window: seq<real>)
      requires key in order <==> key in windows
      modifies this
      ensures order == Touched(old(order), key)
      ensures windows == if key in old(windows) then old(windows) else old(windows)[key := []]
      ensures window == if key in old(windows) then old(windows)[key] else []
    {
      window := [];
      if key !in windows {
        windows := windows[key := window];
        order := order + [key];
      } else {
        window := windows[key];
        order := MoveToEnd(order, key);
      }
    }

    /** The loop that keeps the map within its bound. */
    method BoundMap()
      modifies this
      ensures State() == Evict(old(order), old(windows))
    {
      ghost var n := |order|;
      while |order| > MAX_TRACKED_KEYS
        invariant 0 <= n - |order| <= Max(0, n - MAX_TRACKED_KEYS)
        invariant order == old(order)[n - |order|..]
        invariant windows == map k | k in old(windows) && k !in old(order)[..n - |order|] :: old(windows)[k]
        decreases |order|
      {
        ghost var dropped := n - |order|;
        assert old(order)[..dropped + 1] == old(order)[..dropped] + [order[0]];
        windows := windows - {order[0]};
        order := order[1..];
      }
    }
  }

  /** `OrderedDict.move_to_end` of a present key. */
  method MoveToEnd(xs: seq<string>, k: string) returns (ys: seq<string>)
    requires k in xs
    ensures ys == Touched(xs, k)
  {
    var p := 0;
    while xs[p] != k
      invariant 0 <= p < |xs| && k in xs[p..]
      invariant IndexOf(xs, k) == p + IndexOf(xs[p..], k)
      decreases |xs| - p
    {
      assert xs[p..][1..] == xs[p + 1..];
      p := p + 1;
    }
    ys := xs[..p] + xs[p + 1..] + [k];
  }

  /** The `popleft` loop. */
  method TrimWindow(window: seq<real>, now: real) returns (w: seq<real>)
    ensures w == Trim(window, now)
  {
    w := window;
    while w != [] && w[0] <= now - 60.0
      invariant Trim(w, now) == Trim(window, now)
      decreases |w|
    {
      w := w[1..];
    }
  }

  // ---------- Runs, and the complete log a run would leave ----------

  datatype Hit = Hit(key: string, now: real)

  ghost predicate ClockRuns(trace: seq<Hit>) {
    forall i, j {:trigger trace[i].now, trace[j].now} :: 0 <= i <= j < |trace| ==> trace[i].now <= trace[j].now
  }

  /** The limiter after the first `n` requests of a trace. */
  ghost function Run(limit: string -> Positive, trace: seq<Hit>, n: nat): Hits
    requires n <= |trace|
  {
    if n == 0 then Hits([], map[])
    else Step(Run(limit, trace, n - 1), trace[n - 1].key, limit(trace[n - 1].key), trace[n - 1].now)
  }

  /** Whether, and how, the limiter answers request `n`. */
  ghost predicate Admitted(limit: string -> Positive, trace: seq<Hit>, n: nat)
    requires n < |trace|
  {
    Admits(Run(limit, trace, n), trace[n].key, limit(trace[n].key), trace[n].now)
  }

  ghost function Answer(limit: string -> Positive, trace: seq<Hit>, n: nat): Decision
    requires n < |trace|
  {
    Verdict(Run(limit, trace, n), trace[n].key, limit(trace[n].key), trace[n].now)
  }

  /** Every admission of `k` in the first `n` requests, oldest first, never trimmed or evicted. */
  ghost function Log(limit: string -> Positive, trace: seq<Hit>, n: nat, k: string): seq<real>
    requires n <= |trace|
  {
    if n == 0 then []
    else Log(limit, trace, n - 1, k) +
         if trace[n - 1].key == k && Admitted(limit, trace, n - 1) then [trace[n - 1].now] else []
  }

  ghost function CountIf(xs: seq<real>, p: real -> bool): nat {
    if xs == [] then 0 else CountIf(xs[..|xs| - 1], p) + if p(xs[|xs| - 1]) then 1 else 0
  }

  /** The 60 seconds up to `now` (admissions never lie beyond it). */
  ghost function InWindow(now: real): real -> bool {
    x => x > now - 60.0
  }

  function KeysBetween(trace: seq<Hit>, i: int, j: int): set<string>
    requires -1 <= i && j <= |trace|
  {
    set m | i < m < j :: trace[m].key
  }

  /** Requests of `k` closer than a window apart, with none between, see fewer than
      MAX_TRACKED_KEYS other keys. */
  ghost predicate LruSafe(trace: seq<Hit>, k: string) {
    forall i, j {:trigger KeysBetween(trace, i, j)} ::
      0 <= i < j < |trace| && trace[i].key == k && trace[j].key == k &&
      k !in KeysBetween(trace, i, j) && trace[j].now - trace[i].now < 60.0 ==>
        |KeysBetween(trace, i, j)| < MAX_TRACKED_KEYS
  }

  /** The last of the first `n` requests that is for `k`, or -1. */
  ghost function LastIndex(trace: seq<Hit>, n: nat, k: string): (i: int)
    requires n <= |trace|
    ensures -1 <= i < n
    ensures i >= 0 ==> trace[i].key == k
    ensures forall m :: i < m < n ==> trace[m].key != k
  {
    if n == 0 then -1
    else if trace[n - 1].key == k then n - 1
    else LastIndex(trace, n - 1, k)
  }

  // ---------- The map keeps the most recently used keys ----------

  ghost predicate ByLastUse(trace: seq<Hit>, n: nat, order: seq<string>)
    requires n <= |trace|
  {
    && (forall p :: 0 <= p < |order| ==> LastIndex(trace, n, order[p]) >= 0)
    && (forall p, q :: 0 <= p < q < |order| ==> LastIndex(trace, n, order[p]) < LastIndex(trace, n, order[q]))
  }

  function Skip(p: int, i: int): int {
    if i < p then i else i + 1
  }

  /** When each key of the order was last used. */
  ghost function Uses(trace: seq<Hit>, n: nat, order: seq<string>): seq<int>
    requires n <= |trace|
  {
    seq(|order|, i requires 0 <= i < |order| => LastIndex(trace, n, order[i]))
  }

  ghost predicate Rising(a: seq<int>) {
    (forall i :: 0 <= i < |a| ==> a[i] >= 0) && forall i, j :: 0 <= i < j < |a| ==> a[i] < a[j]
  }

  lemma RisingIsByLastUse(trace: seq<Hit>, n: nat, order: seq<string>)
    requires n <= |trace|
    ensures ByLastUse(trace, n, order) <==> Rising(Uses(trace, n, order))
  {
    var a := Uses(trace, n, order);
    assert forall i :: 0 <= i < |order| ==> a[i] == LastIndex(trace, n, order[i]);
  }

  /** Without entry `p`, and with a greater one at the end. */
  lemma RisingMoved(a: seq<int>, b: seq<int>, p: nat, last: nat)
    requires Rising(a) && p <= |a| && |b| == |a| + (if p < |a| then 0 else 1)
    requires forall i :: 0 <= i < |a| ==> a[i] < last
    requires forall i :: 0 <= i < |b| - 1 ==> b[i] == a[Skip(p, i)]
    requires b[|b| - 1] == last
    ensures Rising(b)
  {
  }

  /** Where the touched key stood, or the end. */
  function PlaceOf(order: seq<string>, k: string): (p: nat)
    ensures p <= |order| && (k in order <==> p < |order|) && (p < |order| ==> order[p] == k)
  {
    if k in order then IndexOf(order, k) else |order|
  }

  lemma TouchedMoves(order: seq<string>, k: string)
    ensures var t, p := Touched(order, k), PlaceOf(order, k);
            && |t| == |order| + (if p < |order| then 0 else 1) && t[|t| - 1] == k
            && forall i :: 0 <= i < |t| - 1 ==> t[i] == order[Skip(p, i)]
  {
  }

  lemma UsesMove(trace: seq<Hit>, n: nat, order: seq<string>, t: seq<string>, p: nat)
    requires n < |trace| && ByLastUse(trace, n, order) && p == PlaceOf(order, trace[n].key)
    requires |t| == |order| + (if p < |order| then 0 else 1) && t[|t| - 1] == trace[n].key
    requires forall i :: 0 <= i < |t| - 1 ==> t[i] == order[Skip(p, i)]
    ensures var a, b := Uses(trace, n, order), Uses(trace, n + 1, t);
            b[|b| - 1] == n && (forall i :: 0 <= i < |a| ==> a[i] < n) && forall i :: 0 <= i < |b| - 1 ==>
                b[i] == a[Skip(p, i)]
  {
    forall i | 0 <= i < |t| - 1
      ensures LastIndex(trace, n + 1, t[i]) == LastIndex(trace, n, order[Skip(p, i)])
    {
      OthersKeepPlace(trace, n, order, Skip(p, i), p);
    }
  }

  lemma MovedByLastUse(trace: seq<Hit>, n: nat, order: seq<string>, t: seq<string>, p: nat)
    requires n < |trace| && ByLastUse(trace, n, order) && p == PlaceOf(order, trace[n].key)
    requires |t| == |order| + (if p < |order| then 0 else 1) && t[|t| - 1] == trace[n].key
    requires forall i :: 0 <= i < |t| - 1 ==> t[i] == order[Skip(p, i)]
    ensures ByLastUse(trace, n + 1, t)
  {
    assert Rising(Uses(trace, n + 1, t)) by {
      UsesMove(trace, n, order, t, p);
      RisingIsByLastUse(trace, n, order);
      RisingMoved(Uses(trace, n, order), Uses(trace, n + 1, t), p, n);
    }
    RisingIsByLastUse(trace, n + 1, t);
  }

  lemma TouchedByLastUse(trace: seq<Hit>, n: nat, order: seq<string>)
    requires n < |trace| && ByLastUse(trace, n, order)
    ensures ByLastUse(trace, n + 1, Touched(order, trace[n].key))
  {
    TouchedMoves(order, trace[n].key);
    MovedByLastUse(trace, n, order, Touched(order, trace[n].key), PlaceOf(order, trace[n].key));
  }

  lemma OthersKeepPlace(trace: seq<Hit>, n: nat, order: seq<string>, i: int, p: int)
    requires n < |trace| && ByLastUse(trace, n, order)
    requires 0 <= i < |order| && i != p
    requires if trace[n].key in order then 0 <= p < |order| && order[p] == trace[n].key else p == |order|
    ensures order[i] != trace[n].key
    ensures LastIndex(trace, n + 1, order[i]) == LastIndex(trace, n, order[i])
  {
    if p < |order| {
      assert LastIndex(trace, n, order[i]) != LastIndex(trace, n, order[p]);
    }
  }

  /** A key that was dropped saw too many others since its last use. */
  ghost predicate DroppedSawMany(trace: seq<Hit>, n: nat, kept: map<string, seq<real>>)
    requires n <= |trace|
  {
    forall k :: LastIndex(trace, n, k) >= 0 && k !in kept ==>
      |KeysBetween(trace, LastIndex(trace, n, k), n)| >= MAX_TRACKED_KEYS
  }

  lemma EvictedSawMany(trace: seq<Hit>, n: nat, order: seq<string>)
    requires n <= |trace| && ByLastUse(trace, n, order)
    requires |order| == MAX_TRACKED_KEYS + 1
    ensures |KeysBetween(trace, LastIndex(trace, n, order[0]), n)| >= MAX_TRACKED_KEYS
  {
    var i := LastIndex(trace, n, order[0]);
    var later := order[1..];
    forall a, b | 0 <= a < b < |later|
      ensures later[a] != later[b]
    {
      assert LastIndex(trace, n, order[a + 1]) < LastIndex(trace, n, order[b + 1]);
    }
    DistinctCount(later);
    forall x | x in later
      ensures x in KeysBetween(trace, i, n)
    {
      var a :| 0 <= a < |later| && later[a] == x;
      assert LastIndex(trace, n, order[0]) < LastIndex(trace, n, order[a + 1]);
    }
    SubsetSize((set x | x in later), KeysBetween(trace, i, n));
  }

  ghost predicate LruInv(trace: seq<Hit>, n: nat, h: Hits)
    requires n <= |trace|
  {
    ByLastUse(trace, n, h.order) && DroppedSawMany(trace, n, h.windows)
  }

  /** The states of a run, as a function of how many requests were served. */
  ghost function Runs(limit: string -> Positive, trace: seq<Hit>): nat -> Hits {
    (n: nat) => if n <= |trace| then Run(limit, trace, n) else Hits([], map[])
  }

  /** Its logs, likewise. */
  ghost function Logs(limit: string -> Positive, trace: seq<Hit>, k: string): nat -> seq<real> {
    (n: nat) => if n <= |trace| then Log(limit, trace, n, k) else []
  }

  ghost predicate StepsAt(limit: string -> Positive, trace: seq<Hit>, hs: nat -> Hits, n: nat)
    requires n < |trace|
  {
    hs(n + 1) == Step(hs(n), trace[n].key, limit(trace[n].key), trace[n].now)
  }

  lemma RunsStep(limit: string -> Positive, trace: seq<Hit>)
    ensures Runs(limit, trace)(0) == Hits([], map[])
    ensures forall n: nat :: n < |trace| ==> StepsAt(limit, trace, Runs(limit, trace), n)
  {
  }

  ghost predicate LruKept(trace: seq<Hit>, hs: nat -> Hits, m: nat)
    requires m < |trace|
  {
    ValidHits(hs(m)) && LruInv(trace, m, hs(m)) ==> ValidHits(hs(m + 1)) && LruInv(trace, m + 1, hs(m + 1))
  }

  lemma LruKeeps(limit: string -> Positive, trace: seq<Hit>, m: nat, hs: nat -> Hits)
    requires m < |trace| && StepsAt(limit, trace, hs, m)
    ensures LruKept(trace, hs, m)
  {
    if ValidHits(hs(m)) && LruInv(trace, m, hs(m)) {
      StepValid(hs(m), trace[m].key, limit(trace[m].key), trace[m].now);
      LruStep(trace, m, hs(m), limit(trace[m].key));
    }
  }

  lemma {:induction false} AllLru(trace: seq<Hit>, n: nat, hs: nat -> Hits)
    requires n <= |trace| && hs(0) == Hits([], map[]) && forall m: nat :: m < |trace| ==> LruKept(trace, hs, m)
    ensures ValidHits(hs(n)) && LruInv(trace, n, hs(n))
  {
    if n == 0 {
    } else {
      AllLru(trace, n - 1, hs);
      assert LruKept(trace, hs, n - 1);
    }
  }

  lemma RunsKeep(limit: string -> Positive, trace: seq<Hit>, n: nat, hs: nat -> Hits)
    requires n <= |trace| && hs(0) == Hits([], map[])
    requires forall m: nat :: m < |trace| ==> StepsAt(limit, trace, hs, m)
    ensures ValidHits(hs(n)) && LruInv(trace, n, hs(n))
  {
    forall m: nat | m < |trace|
      ensures LruKept(trace, hs, m)
    {
      LruKeeps(limit, trace, m, hs);
    }
    AllLru(trace, n, hs);
  }

  lemma RunValid(limit: string -> Positive, trace: seq<Hit>, n: nat)
    requires n <= |trace|
    ensures ValidHits(Run(limit, trace, n))
  {
    RunsStep(limit, trace);
    RunsKeep(limit, trace, n, Runs(limit, trace));
  }

  lemma LruInvariant(limit: string -> Positive, trace: seq<Hit>, n: nat)
    requires n <= |trace|
    ensures LruInv(trace, n, Run(limit, trace, n))
  {
    RunsStep(limit, trace);
    RunsKeep(limit, trace, n, Runs(limit, trace));
  }

  lemma LruStep(trace: seq<Hit>, n: nat, h: Hits, limit: Positive)
    requires n < |trace| && ValidHits(h) && LruInv(trace, n, h)
    ensures LruInv(trace, n + 1, Step(h, trace[n].key, limit, trace[n].now))
  {
    LruTrack(trace, n, h);
    MoreTracked(trace, n + 1, Tracked(h, trace[n].key).windows, Step(h, trace[n].key, limit, trace[n].now).windows);
  }

  lemma MoreTracked(trace: seq<Hit>, n: nat, a: map<string, seq<real>>, b: map<string, seq<real>>)
    requires n <= |trace| && DroppedSawMany(trace, n, a) && a.Keys <= b.Keys
    ensures DroppedSawMany(trace, n, b)
  {
  }

  lemma LruTrack(trace: seq<Hit>, n: nat, h: Hits)
    requires n < |trace| && ValidHits(h) && LruInv(trace, n, h)
    ensures LruInv(trace, n + 1, Tracked(h, trace[n].key))
  {
    TouchedByLastUse(trace, n, h.order);
    TouchedFits(h, trace[n].key);
    LruEvict(trace, n, h, Touched(h.order, trace[n].key));
  }

  lemma LruEvict(trace: seq<Hit>, n: nat, h: Hits, order: seq<string>)
    requires n < |trace| && LruInv(trace, n, h)
    requires ByLastUse(trace, n + 1, order) && |order| <= MAX_TRACKED_KEYS + 1
    ensures LruInv(trace, n + 1,
            Evict(order, if trace[n].key in h.windows then h.windows else h.windows[trace[n].key := []]))
  {
    var windows := if trace[n].key in h.windows then h.windows else h.windows[trace[n].key := []];
    StillSawMany(trace, n, h.windows, windows);
    EvictDropped(trace, n + 1, order, windows);
  }

  lemma TouchedFits(h: Hits, key: string)
    requires ValidHits(h)
    ensures |Touched(h.order, key)| <= MAX_TRACKED_KEYS + 1
  {
    TouchedProps(h.order, key);
  }

  lemma StillSawMany(trace: seq<Hit>, n: nat, before: map<string, seq<real>>, after: map<string, seq<real>>)
    requires n < |trace| && DroppedSawMany(trace, n, before)
    requires after.Keys == before.Keys + {trace[n].key}
    ensures DroppedSawMany(trace, n + 1, after)
  {
    forall k | LastIndex(trace, n + 1, k) >= 0 && k !in after
      ensures |KeysBetween(trace, LastIndex(trace, n + 1, k), n + 1)| >= MAX_TRACKED_KEYS
    {
      var i := LastIndex(trace, n, k);
      SubsetSize(KeysBetween(trace, i, n), KeysBetween(trace, i, n + 1));
    }
  }

  lemma EvictDropped(trace: seq<Hit>, n: nat, order: seq<string>, windows: map<string, seq<real>>)
    requires n <= |trace| && ByLastUse(trace, n, order) && DroppedSawMany(trace, n, windows)
    requires |order| <= MAX_TRACKED_KEYS + 1
    ensures LruInv(trace, n, Evict(order, windows))
  {
    if |order| == MAX_TRACKED_KEYS + 1 {
      EvictedSawMany(trace, n, order);
      assert order[..1] == [order[0]];
    }
  }

  // ---------- Exactly which keys are tracked ----------

  /** A used key that is no longer tracked was last used before every tracked one. */
  ghost predicate DroppedOlder(trace: seq<Hit>, n: nat, order: seq<string>)
    requires n <= |trace|
  {
    forall x :: LastIndex(trace, n, x) >= 0 && x !in order ==> OlderThan(trace, n, x, order)
  }

  ghost predicate OlderThan(trace: seq<Hit>, n: nat, x: string, order: seq<string>)
    requires n <= |trace|
  {
    forall j :: 0 <= j < |order| ==> LastIndex(trace, n, x) < LastIndex(trace, n, order[j])
  }

  /** The key just used is last of all; the others keep their places. */
  lemma TouchedLater(trace: seq<Hit>, n: nat, order: seq<string>, x: string, y: string)
    requires n < |trace| && LastIndex(trace, n, x) >= 0 && x !in order && x != trace[n].key
    requires DroppedOlder(trace, n, order) && (y in order || y == trace[n].key)
    ensures LastIndex(trace, n + 1, x) < LastIndex(trace, n + 1, y)
  {
    if y != trace[n].key {
      var i :| 0 <= i < |order| && order[i] == y;
      TrackedOrOlder(trace, n, order, x, i);
    }
  }

  lemma OlderTouched(trace: seq<Hit>, n: nat, order: seq<string>, t: seq<string>)
    requires n < |trace| && DroppedOlder(trace, n, order)
    requires forall x :: x in t <==> x in order || x == trace[n].key
    ensures DroppedOlder(trace, n + 1, t)
  {
    forall x | LastIndex(trace, n + 1, x) >= 0 && x !in t
      ensures OlderThan(trace, n + 1, x, t)
    {
      forall j | 0 <= j < |t|
        ensures LastIndex(trace, n + 1, x) < LastIndex(trace, n + 1, t[j])
      {
        assert t[j] in t;
        TouchedLater(trace, n, order, x, t[j]);
      }
    }
  }

  lemma OlderEvicted(trace: seq<Hit>, n: nat, order: seq<string>, e: nat)
    requires n <= |trace| && e <= |order| && ByLastUse(trace, n, order) && DroppedOlder(trace, n, order)
    ensures DroppedOlder(trace, n, order[e..])
  {
    forall x | LastIndex(trace, n, x) >= 0 && x !in order[e..]
      ensures OlderThan(trace, n, x, order[e..])
    {
      if x in order {
        var i :| 0 <= i < |order| && order[i] == x;
        assert forall q :: e <= q < |order| ==> order[q] == order[e..][q - e];
        assert i < e;
      } else {
        assert OlderThan(trace, n, x, order);
      }
    }
  }

  lemma {:induction false} RunsOlder(limit: string -> Positive, trace: seq<Hit>, n: nat, hs: nat -> Hits)
    requires n <= |trace| && hs(0) == Hits([], map[])
    requires forall m: nat :: m < |trace| ==> StepsAt(limit, trace, hs, m)
    ensures DroppedOlder(trace, n, hs(n).order)
  {
    if n == 0 {
    } else {
      RunsOlder(limit, trace, n - 1, hs);
      RunsKeep(limit, trace, n - 1, hs);
      assert StepsAt(limit, trace, hs, n - 1);
      OlderStep(trace, n - 1, hs(n - 1), hs(n), limit(trace[n - 1].key));
    }
  }

  lemma OlderStep(trace: seq<Hit>, n: nat, h: Hits, h': Hits, limit: Positive)
    requires n < |trace| && ValidHits(h) && LruInv(trace, n, h) && DroppedOlder(trace, n, h.order)
    requires h' == Step(h, trace[n].key, limit, trace[n].now)
    ensures DroppedOlder(trace, n + 1, h'.order)
  {
    TouchedOlder(trace, n, h.order);
    OlderEvicted(trace, n + 1, Touched(h.order, trace[n].key),
        Max(0, |Touched(h.order, trace[n].key)| - MAX_TRACKED_KEYS));
  }

  lemma TouchedOlder(trace: seq<Hit>, n: nat, order: seq<string>)
    requires n < |trace| && ByLastUse(trace, n, order) && DroppedOlder(trace, n, order)
    requires forall i, j :: 0 <= i < j < |order| ==> order[i] != order[j]
    ensures ByLastUse(trace, n + 1, Touched(order, trace[n].key))
            && DroppedOlder(trace, n + 1, Touched(order, trace[n].key))
  {
    TouchedByLastUse(trace, n, order);
    TouchedProps(order, trace[n].key);
    OlderTouched(trace, n, order, Touched(order, trace[n].key));
  }

  lemma TrackedOrOlder(trace: seq<Hit>, n: nat, order: seq<string>, x: string, p: nat)
    requires n <= |trace| && DroppedOlder(trace, n, order) && LastIndex(trace, n, x) >= 0 && p < |order|
    ensures x in order || LastIndex(trace, n, x) < LastIndex(trace, n, order[p])
  {
    if x !in order {
      assert OlderThan(trace, n, x, order);
    }
  }

  /** The keys used since a tracked key are the ones behind it in the order. */
  lemma TrackedSawFew(trace: seq<Hit>, n: nat, order: seq<string>, p: nat)
    requires n <= |trace| && ByLastUse(trace, n, order) && DroppedOlder(trace, n, order)
    requires p < |order| <= MAX_TRACKED_KEYS
    ensures |KeysBetween(trace, LastIndex(trace, n, order[p]), n)| < MAX_TRACKED_KEYS
  {
    var i, later := LastIndex(trace, n, order[p]), order[p + 1..];
    forall x | x in KeysBetween(trace, i, n)
      ensures x in later
    {
      var m :| i < m < n && trace[m].key == x;
      assert LastIndex(trace, n, x) >= m;
      TrackedOrOlder(trace, n, order, x, p);
      var q :| 0 <= q < |order| && order[q] == x;
      assert q > p;
      assert later[q - p - 1] == x;
    }
    var s := set x | x in later;
    SubsetSize(KeysBetween(trace, i, n), s);
    AtMostLength(later);
  }

  lemma {:induction false} AtMostLength(xs: seq<string>)
    ensures |set x | x in xs| <= |xs|
  {
    if xs == [] {
    } else {
      AtMostLength(xs[1..]);
      assert (set x | x in xs) == {xs[0]} + set x | x in xs[1..];
    }
  }

  /** A key is tracked if and only if it was used and has seen fewer than MAX_TRACKED_KEYS others since:
      the map is exactly an LRU of that size. */
  lemma TrackedIff(limit: string -> Positive, trace: seq<Hit>, n: nat, k: string)
    requires n <= |trace|
    ensures k in Run(limit, trace, n).windows <==>
              LastIndex(trace, n, k) >= 0 && |KeysBetween(trace, LastIndex(trace, n, k), n)| < MAX_TRACKED_KEYS
  {
    RunsStep(limit, trace);
    RunsKeep(limit, trace, n, Runs(limit, trace));
    RunsOlder(limit, trace, n, Runs(limit, trace));
    TrackedInRun(trace, n, Run(limit, trace, n), k);
  }

  lemma TrackedInRun(trace: seq<Hit>, n: nat, h: Hits, k: string)
    requires n <= |trace| && ValidHits(h) && LruInv(trace, n, h) && DroppedOlder(trace, n, h.order)
    ensures k in h.windows <==>
            LastIndex(trace, n, k) >= 0 && |KeysBetween(trace, LastIndex(trace, n, k), n)| < MAX_TRACKED_KEYS
  {
    if k in h.windows {
      var p :| 0 <= p < |h.order| && h.order[p] == k;
      TrackedSawFew(trace, n, h.order, p);
    }
  }

  // ---------- The deque is the part of the log that can still count ----------

  ghost predicate Sorted(xs: seq<real>) {
    forall i, j :: 0 <= i <= j < |xs| ==> xs[i] <= xs[j]
  }

  ghost predicate AllUpTo(xs: seq<real>, t: real) {
    forall i :: 0 <= i < |xs| ==> xs[i] <= t
  }

  lemma SortedAppend(log: seq<real>, t: real)
    requires Sorted(log) && AllUpTo(log, t)
    ensures Sorted(log + [t]) && AllUpTo(log + [t], t)
  {
  }

  /** Sorted, and nothing later than the last request of its key. */
  ghost predicate EndsAtLast(trace: seq<Hit>, n: nat, k: string, log: seq<real>)
    requires n <= |trace|
  {
    var i := LastIndex(trace, n, k);
    Sorted(log) && if i < 0 then log == [] else AllUpTo(log, trace[i].now)
  }

  lemma {:induction false} LogSorted(limit: string -> Positive, trace: seq<Hit>, n: nat, k: string)
    requires n <= |trace| && ClockRuns(trace)
    ensures EndsAtLast(trace, n, k, Log(limit, trace, n, k))
  {
    if n == 0 {
    } else {
      LogSorted(limit, trace, n - 1, k);
      var log, i := Log(limit, trace, n - 1, k), LastIndex(trace, n - 1, k);
      assert log + [] == log;
      if trace[n - 1].key == k {
        assert i >= 0 ==> trace[i].now <= trace[n - 1].now;
        SortedAppend(log, trace[n - 1].now);
      }
    }
  }

  /** The deque is a suffix of the log, and what is missing from it has left the window. */
  ghost predicate Agrees(w: seq<real>, log: seq<real>, cut: real) {
    exists d :: AgreesFrom(w, log, cut, d)
  }

  ghost predicate AgreesFrom(w: seq<real>, log: seq<real>, cut: real, d: int) {
    0 <= d <= |log| && w == log[d..] && AllUpTo(log[..d], cut)
  }

  lemma {:induction false} CountSuffix(log: seq<real>, d: int, p: real -> bool)
    requires 0 <= d <= |log|
    requires forall i :: 0 <= i < |log| ==> (p(log[i]) <==> d <= i)
    ensures CountIf(log, p) == |log| - d
  {
    if log == [] {
    } else {
      var m := |log| - 1;
      CountSuffix(log[..m], if d <= m then d else m, p);
    }
  }

  lemma {:induction false} TrimAgrees(w: seq<real>, log: seq<real>, cut: real, now: real)
    requires Sorted(log) && cut <= now - 60.0 && Agrees(w, log, cut)
    ensures Agrees(Trim(w, now), log, now - 60.0)
    ensures |Trim(w, now)| == CountIf(log, InWindow(now))
    decreases |w|
  {
    var d :| AgreesFrom(w, log, cut, d);
    if w != [] && w[0] <= now - 60.0 {
      assert w[1..] == log[d + 1..];
      assert log[..d + 1] == log[..d] + [w[0]];
      assert AgreesFrom(w[1..], log, now - 60.0, d + 1);
      TrimAgrees(w[1..], log, now - 60.0, now);
    } else {
      assert AgreesFrom(w, log, now - 60.0, d);
      forall i | 0 <= i < |log|
        ensures log[i] > now - 60.0 <==> d <= i
      {
        if i < d {
          assert log[..d][i] <= cut;
        } else {
          assert log[d] == w[0] && log[d] <= log[i];
        }
      }
      CountSuffix(log, d, InWindow(now));
    }
  }

  /** What a request sees of its deque is exactly the log's last 60 seconds. */
  ghost predicate SeenCounts(h: Hits, k: string, now: real, log: seq<real>) {
    Agrees(SeenWindow(h, k, now), log, now - 60.0) && |SeenWindow(h, k, now)| == CountIf(log, InWindow(now))
  }

  ghost predicate SeenCountsLog(limit: string -> Positive, trace: seq<Hit>, n: nat)
    requires n < |trace|
  {
    SeenCounts(Run(limit, trace, n), trace[n].key, trace[n].now, Log(limit, trace, n, trace[n].key))
  }

  /** A tracked deque is what its log holds past a cut. */
  ghost predicate Tallies(h: Hits, k: string, log: seq<real>, cut: real) {
    k in h.windows ==> Agrees(h.windows[k], log, cut)
  }

  /** So it is 60 seconds before the last request of its key. */
  ghost predicate TalliesAt(trace: seq<Hit>, n: nat, k: string, h: Hits, log: seq<real>)
    requires n <= |trace|
  {
    var i := LastIndex(trace, n, k);
    i >= 0 ==> Tallies(h, k, log, trace[i].now - 60.0)
  }

  /** A safe key that is no longer tracked has nothing left in the window. */
  lemma UntrackedIsStale(trace: seq<Hit>, n: nat, h: Hits, log: seq<real>)
    requires n < |trace| && ClockRuns(trace) && LruSafe(trace, trace[n].key)
    requires LruInv(trace, n, h) && trace[n].key !in h.windows && EndsAtLast(trace, n, trace[n].key, log)
    ensures AllUpTo(log, trace[n].now - 60.0)
  {
    var k := trace[n].key;
    var i := LastIndex(trace, n, k);
    if i >= 0 {
      assert k !in KeysBetween(trace, i, n);
      assert trace[n].now - trace[i].now >= 60.0;
    }
  }

  lemma TrackedWasUsed(trace: seq<Hit>, n: nat, h: Hits, k: string)
    requires n <= |trace| && ValidHits(h) && LruInv(trace, n, h) && k in h.windows
    ensures LastIndex(trace, n, k) >= 0
  {
    var p :| 0 <= p < |h.order| && h.order[p] == k;
  }

  lemma SeenValues(h: Hits, k: string, now: real, log: seq<real>, cut: real)
    requires Sorted(log)
    requires if k in h.windows then cut <= now - 60.0 && Agrees(h.windows[k], log, cut) else AllUpTo(log, now - 60.0)
    ensures SeenCounts(h, k, now, log)
  {
    if k in h.windows {
      TrimAgrees(h.windows[k], log, cut, now);
    } else {
      EmptyAgrees(log, now - 60.0);
      TrimAgrees([], log, now - 60.0, now);
    }
  }

  lemma SeenFromTally(trace: seq<Hit>, n: nat, h: Hits, log: seq<real>)
    requires n < |trace| && ClockRuns(trace) && LruSafe(trace, trace[n].key) && ValidHits(h) && LruInv(trace, n, h)
    requires EndsAtLast(trace, n, trace[n].key, log) && TalliesAt(trace, n, trace[n].key, h, log)
    ensures SeenCounts(h, trace[n].key, trace[n].now, log)
  {
    var k := trace[n].key;
    if k in h.windows {
      TrackedWasUsed(trace, n, h, k);
      SeenValues(h, k, trace[n].now, log, trace[LastIndex(trace, n, k)].now - 60.0);
    } else {
      UntrackedIsStale(trace, n, h, log);
      SeenValues(h, k, trace[n].now, log, trace[n].now - 60.0);
    }
  }

  lemma SeenFromDeque(limit: string -> Positive, trace: seq<Hit>, n: nat)
    requires n < |trace| && ClockRuns(trace) && LruSafe(trace, trace[n].key)
    requires var k := trace[n].key; TalliesAt(trace, n, k, Run(limit, trace, n), Log(limit, trace, n, k))
    ensures SeenCountsLog(limit, trace, n)
  {
    RunValid(limit, trace, n);
    LruInvariant(limit, trace, n);
    LogSorted(limit, trace, n, trace[n].key);
    SeenFromTally(trace, n, Run(limit, trace, n), Log(limit, trace, n, trace[n].key));
  }

  lemma EmptyAgrees(log: seq<real>, cut: real)
    requires AllUpTo(log, cut)
    ensures Agrees([], log, cut)
  {
    assert log[..|log|] == log;
    assert AgreesFrom([], log, cut, |log|);
  }

  lemma AgreesExtend(w: seq<real>, log: seq<real>, cut: real, t: real)
    requires Agrees(w, log, cut)
    ensures Agrees(w + [t], log + [t], cut)
  {
    var d :| AgreesFrom(w, log, cut, d);
    assert (log + [t])[..d] == log[..d];
    assert AgreesFrom(w + [t], log + [t], cut, d);
  }

  /** A step rewrites one deque only. */
  lemma StepWindows(h: Hits, k: string, limit: Positive, now: real)
    ensures var h', w := Step(h, k, limit, now), SeenWindow(h, k, now);
            && k in h'.windows && h'.windows[k] == (if |w| < limit then w + [now] else w)
            && (forall x :: x != k && x in h'.windows ==> x in h.windows && h'.windows[x] == h.windows[x])
  {
  }

  lemma RunNext(limit: string -> Positive, a: seq<Hit>, n: nat)
    requires n < |a|
    ensures Run(limit, a, n + 1) == Step(Run(limit, a, n), a[n].key, limit(a[n].key), a[n].now)
  {
  }

  lemma LogStep(limit: string -> Positive, trace: seq<Hit>, n: nat, k: string)
    requires n < |trace|
    ensures Log(limit, trace, n + 1, k) == if trace[n].key == k && Admitted(limit, trace, n)
                                           then Log(limit, trace, n, k) + [trace[n].now] else Log(limit, trace, n, k)
  {
    assert Log(limit, trace, n, k) + [] == Log(limit, trace, n, k);
  }

  /** One dispatch keeps a deque in agreement with its log. */
  lemma OwnStep(h: Hits, hit: Hit, limit: Positive, log: seq<real>)
    requires Agrees(SeenWindow(h, hit.key, hit.now), log, hit.now - 60.0)
    ensures Tallies(Step(h, hit.key, limit, hit.now), hit.key,
              if Admits(h, hit.key, limit, hit.now) then log + [hit.now] else log, hit.now - 60.0)
  {
    StepWindows(h, hit.key, limit, hit.now);
    AgreesExtend(SeenWindow(h, hit.key, hit.now), log, hit.now - 60.0, hit.now);
  }

  lemma OtherStep(h: Hits, hit: Hit, limit: Positive, k: string, log: seq<real>, cut: real)
    requires k != hit.key && Tallies(h, k, log, cut)
    ensures Tallies(Step(h, hit.key, limit, hit.now), k, log, cut)
  {
    StepWindows(h, hit.key, limit, hit.now);
  }

  lemma TallyStep(trace: seq<Hit>, n: nat, k: string, h: Hits, log: seq<real>, limit: Positive)
    requires n < |trace| && TalliesAt(trace, n, k, h, log)
    requires trace[n].key == k ==> Agrees(SeenWindow(h, k, trace[n].now), log, trace[n].now - 60.0)
    ensures TalliesAt(trace, n + 1, k, Step(h, trace[n].key, limit, trace[n].now),
              if trace[n].key == k && Admits(h, k, limit, trace[n].now) then log + [trace[n].now] else log)
  {
    if trace[n].key == k {
      OwnStep(h, trace[n], limit, log);
    } else if LastIndex(trace, n, k) >= 0 {
      OtherStep(h, trace[n], limit, k, log, trace[LastIndex(trace, n, k)].now - 60.0);
    }
  }

  ghost predicate TallyKept(trace: seq<Hit>, k: string, hs: nat -> Hits, logs: nat -> seq<real>, m: nat)
    requires m < |trace|
  {
    TalliesAt(trace, m, k, hs(m), logs(m)) ==> TalliesAt(trace, m + 1, k, hs(m + 1), logs(m + 1))
  }

  lemma {:induction false} AllTally(trace: seq<Hit>, n: nat, k: string, hs: nat -> Hits, logs: nat -> seq<real>)
    requires n <= |trace| && forall m: nat :: m < |trace| ==> TallyKept(trace, k, hs, logs, m)
    ensures TalliesAt(trace, n, k, hs(n), logs(n))
  {
    if n == 0 {
    } else {
      AllTally(trace, n - 1, k, hs, logs);
      assert TallyKept(trace, k, hs, logs, n - 1);
    }
  }

  lemma DequesAgree(limit: string -> Positive, trace: seq<Hit>, n: nat, k: string)
    requires n <= |trace| && ClockRuns(trace) && LruSafe(trace, k)
    ensures TalliesAt(trace, n, k, Run(limit, trace, n), Log(limit, trace, n, k))
  {
    var hs, logs := Runs(limit, trace), Logs(limit, trace, k);
    forall m: nat | m < |trace|
      ensures TallyKept(trace, k, hs, logs, m)
    {
      RunKeepsTally(limit, trace, k, m);
    }
    AllTally(trace, n, k, hs, logs);
  }

  lemma RunKeepsTally(limit: string -> Positive, trace: seq<Hit>, k: string, m: nat)
    requires m < |trace| && ClockRuns(trace) && LruSafe(trace, k)
    ensures TallyKept(trace, k, Runs(limit, trace), Logs(limit, trace, k), m)
  {
    var hs, logs := Runs(limit, trace), Logs(limit, trace, k);
    if TalliesAt(trace, m, k, hs(m), logs(m)) {
      RunSees(limit, trace, k, m);
      RunsStep(limit, trace);
      assert StepsAt(limit, trace, hs, m);
      LogStep(limit, trace, m, k);
      TallyStep(trace, m, k, hs(m), logs(m), limit(trace[m].key));
    }
  }

  lemma RunSees(limit: string -> Positive, trace: seq<Hit>, k: string, m: nat)
    requires m < |trace| && ClockRuns(trace) && LruSafe(trace, k)
    requires TalliesAt(trace, m, k, Runs(limit, trace)(m), Logs(limit, trace, k)(m))
    ensures trace[m].key == k ==>
              Agrees(SeenWindow(Runs(limit, trace)(m), k, trace[m].now), Logs(limit, trace, k)(m), trace[m].now - 60.0)
  {
    if trace[m].key == k {
      SeenFromDeque(limit, trace, m);
    }
  }

  // ---------- Main results ----------

  lemma SeenIsLog(limit: string -> Positive, trace: seq<Hit>, n: nat)
    requires n < |trace| && ClockRuns(trace) && LruSafe(trace, trace[n].key)
    ensures SeenCountsLog(limit, trace, n)
  {
    DequesAgree(limit, trace, n, trace[n].key);
    SeenFromDeque(limit, trace, n);
  }

  /** The bounded LRU map of deques decides every safe request as the complete log would. */
  lemma AdmitsAsFullLog(limit: string -> Positive, trace: seq<Hit>, n: nat)
    requires n < |trace| && ClockRuns(trace) && LruSafe(trace, trace[n].key)
    ensures var k, now := trace[n].key, trace[n].now;
            Admitted(limit, trace, n) <==> CountIf(Log(limit, trace, n, k), InWindow(now)) < limit(k)
  {
    SeenIsLog(limit, trace, n);
  }

  ghost predicate ShorterThanWindow(p: real -> bool) {
    forall x, y :: p(x) && p(y) && x <= y ==> y - x < 60.0
  }

  lemma {:induction false} CountMonotone(xs: seq<real>, p: real -> bool, q: real -> bool)
    requires forall i :: 0 <= i < |xs| && p(xs[i]) ==> q(xs[i])
    ensures CountIf(xs, p) <= CountIf(xs, q)
  {
    if xs == [] {
    } else {
      CountMonotone(xs[..|xs| - 1], p, q);
    }
  }

  lemma OneMoreFits(log: seq<real>, now: real, p: real -> bool, limit: Positive)
    requires CountIf(log, p) <= limit && ShorterThanWindow(p) && AllUpTo(log, now)
    requires CountIf(log, InWindow(now)) < limit
    ensures CountIf(log + [now], p) <= limit
  {
    assert (log + [now])[..|log|] == log;
    if p(now) {
      CountMonotone(log, p, InWindow(now));
    }
  }

  lemma LogUpToNow(limit: string -> Positive, trace: seq<Hit>, n: nat, k: string)
    requires n < |trace| && ClockRuns(trace)
    ensures AllUpTo(Log(limit, trace, n, k), trace[n].now)
  {
    LogSorted(limit, trace, n, k);
  }

  lemma AdmittedFits(limit: string -> Positive, trace: seq<Hit>, n: nat, k: string, p: real -> bool)
    requires n < |trace| && ClockRuns(trace) && LruSafe(trace, k) && ShorterThanWindow(p) && trace[n].key == k
    ensures Admitted(limit, trace, n) && CountIf(Log(limit, trace, n, k), p) <= limit(k) ==>
              CountIf(Log(limit, trace, n, k) + [trace[n].now], p) <= limit(k)
  {
    if Admitted(limit, trace, n) && CountIf(Log(limit, trace, n, k), p) <= limit(k) {
      LogUpToNow(limit, trace, n, k);
      AdmitsAsFullLog(limit, trace, n);
      OneMoreFits(Log(limit, trace, n, k), trace[n].now, p, limit(k));
    }
  }

  /** One request: the log stays, or grows by an admission that fits. */
  lemma LogFits(limit: string -> Positive, trace: seq<Hit>, n: nat, k: string, p: real -> bool)
    requires n < |trace| && ClockRuns(trace) && LruSafe(trace, k) && ShorterThanWindow(p)
    ensures Fits(Log(limit, trace, n, k), Log(limit, trace, n + 1, k), trace[n].now, limit(k), p)
  {
    LogStep(limit, trace, n, k);
    if trace[n].key == k {
      AdmittedFits(limit, trace, n, k, p);
    }
  }

  ghost predicate Fits(log: seq<real>, log': seq<real>, now: real, limit: Positive, p: real -> bool) {
    log' == log || (log' == log + [now] && (CountIf(log, p) <= limit ==> CountIf(log', p) <= limit))
  }

  lemma {:induction false} GrownBound(trace: seq<Hit>, n: nat, logs: nat -> seq<real>, limit: Positive, p: real -> bool)
    requires n <= |trace| && logs(0) == []
    requires forall m: nat :: m < |trace| ==> Fits(logs(m), logs(m + 1), trace[m].now, limit, p)
    ensures CountIf(logs(n), p) <= limit
  {
    if n == 0 {
    } else {
      GrownBound(trace, n - 1, logs, limit, p);
      assert Fits(logs(n - 1), logs(n - 1 + 1), trace[n - 1].now, limit, p);
    }
  }

  lemma LogsFit(limit: string -> Positive, trace: seq<Hit>, k: string, p: real -> bool, n: nat)
    requires n < |trace| && ClockRuns(trace) && LruSafe(trace, k) && ShorterThanWindow(p)
    ensures Fits(Logs(limit, trace, k)(n), Logs(limit, trace, k)(n + 1), trace[n].now, limit(k), p)
  {
    LogFits(limit, trace, n, k, p);
  }

  /** No set of instants spanning less than 60 seconds holds more than `limit` admissions. */
  lemma WindowBound(limit: string -> Positive, trace: seq<Hit>, n: nat, k: string, p: real -> bool)
    requires n <= |trace| && ClockRuns(trace) && LruSafe(trace, k) && ShorterThanWindow(p)
    ensures CountIf(Log(limit, trace, n, k), p) <= limit(k)
  {
    var logs := Logs(limit, trace, k);
    forall m: nat | m < |trace|
      ensures Fits(logs(m), logs(m + 1), trace[m].now, limit(k), p)
    {
      LogsFit(limit, trace, k, p, m);
    }
    GrownBound(trace, n, logs, limit(k), p);
  }

  /** Both kinds of half-open 60-second interval are instances of WindowBound. */
  lemma HalfOpenIntervalsBounded(limit: string -> Positive, trace: seq<Hit>, k: string, t: real)
    requires ClockRuns(trace) && LruSafe(trace, k)
    ensures CountIf(Log(limit, trace, |trace|, k), x => t < x <= t + 60.0) <= limit(k)
    ensures CountIf(Log(limit, trace, |trace|, k), x => t <= x < t + 60.0) <= limit(k)
  {
    WindowBound(limit, trace, |trace|, k, x => t < x <= t + 60.0);
    WindowBound(limit, trace, |trace|, k, x => t <= x < t + 60.0);
  }

  ghost predicate WindowBounded(w: seq<real>, limit: Positive, now: real) {
    Sorted(w) && |w| <= limit && AllUpTo(w, now)
  }

  lemma {:induction false} TrimBounded(w: seq<real>, limit: Positive, now: real)
    requires WindowBounded(w, limit, now)
    ensures WindowBounded(Trim(w, now), limit, now)
    ensures forall i :: 0 <= i < |Trim(w, now)| ==> Trim(w, now)[i] > now - 60.0
  {
    if w == [] {
    } else {
      if w[0] <= now - 60.0 {
        TrimBounded(w[1..], limit, now);
      } else {
        assert forall i :: 0 <= i < |w| ==> w[0] <= w[i];
      }
    }
  }

  /** On every run, eviction or not: deques stay sorted and within their limit, and the map within
      its bound. */
  lemma {:induction false} RunBounds(limit: string -> Positive, trace: seq<Hit>, n: nat)
    requires 0 < n <= |trace| && ClockRuns(trace)
    ensures |Run(limit, trace, n).order| == |Run(limit, trace, n).windows| <= MAX_TRACKED_KEYS
    ensures DequesBounded(limit, Run(limit, trace, n), trace[n - 1].now)
  {
    RunValid(limit, trace, n);
    ValidSizes(Run(limit, trace, n));
    var h := Run(limit, trace, n - 1);
    if n > 1 {
      RunBounds(limit, trace, n - 1);
      assert DequesBounded(limit, h, trace[n - 1].now);
    }
    StepBounded(limit, h, trace[n - 1].key, trace[n - 1].now);
  }

  ghost predicate DequesBounded(limit: string -> Positive, h: Hits, now: real) {
    forall k :: k in h.windows ==> WindowBounded(h.windows[k], limit(k), now)
  }

  lemma ValidSizes(h: Hits)
    requires ValidHits(h)
    ensures |h.order| == |h.windows|
  {
    DistinctCount(h.order);
    assert h.windows.Keys == set x | x in h.order;
  }

  lemma StepBounded(limit: string -> Positive, h: Hits, key: string, now: real)
    requires DequesBounded(limit, h, now)
    ensures DequesBounded(limit, Step(h, key, limit(key), now), now)
  {
    TrimBounded(if key in h.windows then h.windows[key] else [], limit(key), now);
    StepWindows(h, key, limit(key), now);
  }

  /** A rejected client is told to wait between 1 and 60 seconds. */
  lemma RetryAfterBounds(limit: string -> Positive, trace: seq<Hit>, n: nat)
    requires n < |trace| && ClockRuns(trace) && Answer(limit, trace, n).Reject?
    ensures 1 <= Answer(limit, trace, n).retryAfter <= 60
  {
    var h, key, now := Run(limit, trace, n), trace[n].key, trace[n].now;
    if n > 0 {
      RunBounds(limit, trace, n);
    }
    TrimBounded(if key in h.windows then h.windows[key] else [], limit(key), now);
    assert SeenWindow(h, key, now)[0] > now - 60.0;
  }
}
