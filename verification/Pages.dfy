/** Sorted, paginated listings of the in-memory store. */
module Pages {
  import opened Prelude
  import opened Domain
  import opened Sorting

  /** Ordering by a time column, then by id: `updated_at` in listings, `expires_at` in cleanup. */
  function ByTime<P(!new)>(time: Row<P> -> Time): (Row<P>, Row<P>) -> bool {
    (a: Row<P>, b: Row<P>) => time(a) < time(b) || (time(a) == time(b) && StringLe(a.id, b.id))
  }

  lemma ByTimeIsOrder<P(!new)>(time: Row<P> -> Time)
    ensures TotalPreorder(ByTime(time))
    ensures forall a, b :: ByTime(time)(a, b) && ByTime(time)(b, a) ==> a.id == b.id
  {
    var le := ByTime(time);
    forall a, b
      ensures le(a, b) || le(b, a)
      ensures le(a, b) && le(b, a) ==> a.id == b.id
    {
      StringLeTotal(a.id, b.id);
    }
    forall a, b, c | le(a, b) && le(b, c)
      ensures le(a, c)
    {
      if StringLe(a.id, b.id) && StringLe(b.id, c.id) {
        StringLeTransitive(a.id, b.id, c.id);
      }
    }
  }

  ghost predicate KeyedById<P>(items: map<string, Row<P>>) {
    forall id :: id in items ==> items[id].id == id
  }

  /** The whole result of a query: the matching rows, each once, in order. */
  ghost predicate IsListing<P(!new)>(rows: seq<Row<P>>, items: map<string, Row<P>>, pred: Row<P> -> bool,
      time: Row<P> -> Time)
  {
    && SortedBy(ByTime(time), rows)
    && multiset(rows) == Matching(items, items.Keys, pred)
  }

  /** The matching rows among some of the keys. */
  ghost function Matching<P(!new)>(items: map<string, Row<P>>, keys: set<string>, pred: Row<P> -> bool)
    : multiset<Row<P>>
  {
    multiset(set id | id in keys && id in items && pred(items[id]) :: items[id])
  }

  lemma ListingMembers<P(!new)>(rows: seq<Row<P>>, items: map<string, Row<P>>, pred: Row<P> -> bool,
      time: Row<P> -> Time)
    requires IsListing(rows, items, pred, time)
    ensures forall r :: r in rows <==> exists id :: id in items && items[id] == r && pred(r)
    ensures forall i, j :: 0 <= i < j < |rows| ==> rows[i] != rows[j]
  {
    var m := multiset(rows);
    forall r
      ensures r in rows <==> exists id :: id in items && items[id] == r && pred(r)
    {
      assert r in rows <==> r in m;
    }
    forall i, j | 0 <= i < j < |rows|
      ensures rows[i] != rows[j]
    {
      assert rows == rows[..j] + [rows[j]] + rows[j + 1..];
      assert rows[i] in rows[..j];
      assert m == multiset(rows[..j]) + multiset{rows[j]} + multiset(rows[j + 1..]);
      assert m[rows[j]] <= 1;
    }
  }

  /** A query has one listing, so pages cut from two calls fit together. */
  lemma ListingUnique<P(!new)>(a: seq<Row<P>>, b: seq<Row<P>>, items: map<string, Row<P>>, pred: Row<P> -> bool,
      time: Row<P> -> Time)
    requires KeyedById(items) && IsListing(a, items, pred, time) && IsListing(b, items, pred, time)
    ensures a == b
  {
    ByTimeIsOrder(time);
    SortedUnique(ByTime(time), a, b);
  }

  function Clamp(n: nat, len: nat): nat {
    if n < len then n else len
  }

  /** `items[offset : offset + limit]`. */
  function Slice<T>(rows: seq<T>, limit: nat, offset: nat): seq<T> {
    rows[Clamp(offset, |rows|)..Clamp(offset + limit, |rows|)]
  }

  method Page<P(!new, ==)>(items: map<string, Row<P>>, pred: Row<P> -> bool, time: Row<P> -> Time, limit: nat,
      offset: nat)
    returns (page: seq<Row<P>>, total: nat, ghost listing: seq<Row<P>>)
    requires KeyedById(items)
    ensures IsListing(listing, items, pred, time)
    ensures page == Slice(listing, limit, offset) && total == |listing|
    ensures forall l :: IsListing(l, items, pred, time) ==> page == Slice(l, limit, offset) && total == |l|
  {
    ByTimeIsOrder(time);
    var rows: seq<Row<P>> := [];
    var pending := items.Keys;
    while pending != {}
      invariant pending <= items.Keys
      invariant SortedBy(ByTime(time), rows)
      invariant multiset(rows) == Matching(items, items.Keys - pending, pred)
      decreases |pending|
    {
      var id :| id in pending;
      ghost var done := items.Keys - pending;
      pending := pending - {id};
      assert items.Keys - pending == done + {id};
      OneMore(items, done, id, pred);
      if pred(items[id]) {
        InsertProps(ByTime(time), items[id], rows);
        rows := Insert(ByTime(time), items[id], rows);
      }
    }
    assert items.Keys - pending == items.Keys;
    listing := rows;
    page := rows[Clamp(offset, |rows|)..Clamp(offset + limit, |rows|)];
    total := |rows|;
    forall l | IsListing(l, items, pred, time)
      ensures l == rows
    {
      ListingUnique(l, rows, items, pred, time);
    }
  }

  lemma OneMore<P(!new)>(items: map<string, Row<P>>, done: set<string>, id: string, pred: Row<P> -> bool)
    requires KeyedById(items) && id in items && id !in done
    ensures Matching(items, done + {id}, pred) ==
            Matching(items, done, pred) + if pred(items[id]) then multiset{items[id]} else multiset{}
  {
    var a := set x | x in done && x in items && pred(items[x]) :: items[x];
    var b := set x | x in done + {id} && x in items && pred(items[x]) :: items[x];
    assert items[id] !in a;
    assert b == a + if pred(items[id]) then {items[id]} else {};
  }

  /** The pages at offsets 0, L, 2L, ... of one listing, joined. */
  function JoinPages<T>(rows: seq<T>, limit: nat, pages: nat): seq<T> {
    if pages == 0 then [] else JoinPages(rows, limit, pages - 1) + Slice(rows, limit, limit * (pages - 1))
  }

  lemma {:induction false} PagesArePrefix<T>(rows: seq<T>, limit: nat, pages: nat)
    ensures JoinPages(rows, limit, pages) == rows[..Clamp(limit * pages, |rows|)]
  {
    if pages > 0 {
      PagesArePrefix(rows, limit, pages - 1);
      assert limit * (pages - 1) + limit == limit * pages;
    }
  }

  /** Enough pages give back the whole listing: every matching row once, in order, `total` of them. */
  lemma PagesPartition<T>(rows: seq<T>, limit: nat, pages: nat)
    requires limit * pages >= |rows|
    ensures JoinPages(rows, limit, pages) == rows
  {
    PagesArePrefix(rows, limit, pages);
  }

  // ---------- Expired rows ----------

  function ExpiryTime<P(!new)>(r: Row<P>): Time {
    if r.expiresAt.Some? then r.expiresAt.value else 0
  }

  function ExpiredAt<P(!new)>(now: Time): Row<P> -> bool {
    (r: Row<P>) => r.Expired(now)
  }

  function Ids<P>(rows: seq<Row<P>>): seq<string> {
    seq(|rows|, i requires 0 <= i < |rows| => rows[i].id)
  }

  function Without<P>(items: map<string, Row<P>>, ids: seq<string>): map<string, Row<P>> {
    map id | id in items && id !in ids :: items[id]
  }

  /** The ids cleanup works through: distinct, and of matching rows. */
  lemma SliceIds<P(!new)>(listing: seq<Row<P>>, items: map<string, Row<P>>, pred: Row<P> -> bool,
      time: Row<P> -> Time, limit: nat)
    requires KeyedById(items) && IsListing(listing, items, pred, time)
    ensures var ids := Ids(Slice(listing, limit, 0));
            Distinct(ids) && forall i :: 0 <= i < |ids| ==> ids[i] in items && pred(items[ids[i]])
  {
    ListingMembers(listing, items, pred, time);
    forall i | 0 <= i < |listing|
      ensures listing[i].id in items && items[listing[i].id] == listing[i] && pred(listing[i])
    {
      assert listing[i] in listing;
    }
  }

  // ---------- What a cleanup removes, by the columns ----------

  /** Of the rows that match, the listing's first `limit` go: all of them if there are fewer, and none
      with a later time, or a later id at the same time, than a match that stays. */
  lemma FirstOfListing<P(!new)>(listing: seq<Row<P>>, items: map<string, Row<P>>, pred: Row<P> -> bool,
      time: Row<P> -> Time, limit: nat)
    requires KeyedById(items) && IsListing(listing, items, pred, time)
    ensures var ids := Ids(Slice(listing, limit, 0));
            && |ids| <= limit
            && (forall id :: id in ids ==> id in items && pred(items[id]))
            && (|ids| < limit ==> forall id :: id in items && pred(items[id]) ==> id in ids)
            && (forall id, x :: id in ids && x in items && pred(items[x]) && x !in ids ==>
                  time(items[id]) < time(items[x]) || (time(items[id]) == time(items[x]) && StringLe(id, x)))
  {
    var ids := Ids(Slice(listing, limit, 0));
    ListingMembers(listing, items, pred, time);
    SliceIds(listing, items, pred, time, limit);
    assert forall i :: 0 <= i < |ids| ==> listing[i] in listing && ids[i] == listing[i].id;
    assert forall i :: 0 <= i < |ids| ==> listing[i].id in ids;
    forall x | x in items && pred(items[x]) && x !in ids
      ensures exists j :: |ids| <= j < |listing| && listing[j] == items[x]
    {
      assert items[x] in listing;
      var j :| 0 <= j < |listing| && listing[j] == items[x];
    }
    forall id, x | id in ids && x in items && pred(items[x]) && x !in ids
      ensures time(items[id]) < time(items[x]) || (time(items[id]) == time(items[x]) && StringLe(id, x))
    {
      var i :| 0 <= i < |ids| && ids[i] == id;
      var j :| |ids| <= j < |listing| && listing[j] == items[x];
      assert ByTime(time)(listing[i], listing[j]);
    }
  }

  lemma WithoutCount<P>(items: map<string, Row<P>>, ids: seq<string>)
    requires Distinct(ids) && forall id :: id in ids ==> id in items
    ensures |Without(items, ids)| + |ids| == |items|
  {
    var gone := set id | id in ids;
    DistinctCount(ids);
    assert Without(items, ids).Keys == items.Keys - gone && gone <= items.Keys;
    assert |items.Keys| == |items| && |Without(items, ids).Keys| == |Without(items, ids)|;
  }

  predicate NoLater(a: Option<Time>, b: Option<Time>) {
    b.None? || (a.Some? && a.value <= b.value)
  }

  /** What cleanup is for: it removes up to `limit` rows that have run out, the earliest first, all of
      them if there are fewer, and leaves every other row as it is. */
  ghost predicate RanOut<P>(items: map<string, Row<P>>, items': map<string, Row<P>>, now: Time, limit: nat,
      count: nat)
  {
    && |items'| + count == |items| && count <= limit
    && (forall id :: id in items' ==> id in items && items'[id] == items[id])
    && (forall id :: id in items && id !in items' ==> items[id].expiresAt.Some? && items[id].expiresAt.value <= now)
    && (count < limit ==>
          forall id :: id in items' ==> items'[id].expiresAt.None? || now < items'[id].expiresAt.value)
    && (forall id, x :: id in items && id !in items' && x in items' ==>
          && NoLater(items[id].expiresAt, items'[x].expiresAt)
          && (items[id].expiresAt == items'[x].expiresAt ==> StringLe(id, x)))
  }

  lemma CleanupRunsOut<P(!new)>(listing: seq<Row<P>>, items: map<string, Row<P>>, now: Time, limit: nat)
    requires KeyedById(items) && IsListing(listing, items, ExpiredAt(now), ExpiryTime)
    ensures var ids := Ids(Slice(listing, limit, 0)); RanOut(items, Without(items, ids), now, limit, |ids|)
  {
    var ids := Ids(Slice(listing, limit, 0));
    FirstOfListing(listing, items, ExpiredAt(now), ExpiryTime, limit);
    SliceIds(listing, items, ExpiredAt(now), ExpiryTime, limit);
    WithoutCount(items, ids);
    RemovedRanOut(items, ids, now, limit);
  }

  predicate Gone<P>(items: map<string, Row<P>>, id: string, now: Time) {
    id in items && items[id].expiresAt.Some? && items[id].expiresAt.value <= now
  }

  lemma RemovedRanOut<P(!new)>(items: map<string, Row<P>>, ids: seq<string>, now: Time, limit: nat)
    requires |ids| <= limit && |Without(items, ids)| + |ids| == |items|
    requires forall id :: id in ids ==> Gone(items, id, now)
    requires |ids| < limit ==> forall id :: Gone(items, id, now) ==> id in ids
    requires forall id, x :: id in ids && Gone(items, id, now) && Gone(items, x, now) && x !in ids ==>
               || items[id].expiresAt.value < items[x].expiresAt.value
               || (items[id].expiresAt == items[x].expiresAt && StringLe(id, x))
    ensures RanOut(items, Without(items, ids), now, limit, |ids|)
  {
    forall id, x | id in items && id in ids && x in items && x !in ids
      ensures NoLater(items[id].expiresAt, items[x].expiresAt)
      ensures items[id].expiresAt == items[x].expiresAt ==> StringLe(id, x)
    {
      assert Gone(items, id, now);
      assert Gone(items, x, now) || items[x].expiresAt.None? || now < items[x].expiresAt.value;
    }
    forall id | id in items && id !in ids && |ids| < limit
      ensures items[id].expiresAt.None? || now < items[id].expiresAt.value
    {
      assert !Gone(items, id, now);
    }
  }
}
