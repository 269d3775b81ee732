/** Record listings: the in-memory predicate, the SQL filter chain, and the pages cut from them. */
module RecordQueries {
  import opened Prelude
  import opened Domain
  import opened LikeFolds
  import opened LikePatterns
  import opened Pages

  datatype Filter = Filter(
    namespace: Option<string>, keyPrefix: Option<string>, owner: Option<string>, tags: Option<seq<string>>,
    createdAfter: Option<Time>, createdBefore: Option<Time>, updatedAfter: Option<Time>, updatedBefore: Option<Time>,
    includeDeleted: bool, includeExpired: bool)

  predicate InWindow(t: Time, after: Option<Time>, before: Option<Time>) {
    (after.Some? ==> t >= after.value) && (before.Some? ==> t < before.value)
  }

  predicate Wanted(o: Option<string>, s: string) {
    o.Some? ==> o.value == s
  }

  predicate TimesAndState(f: Filter, r: RecordRow, now: Time) {
    && InWindow(r.createdAt, f.createdAfter, f.createdBefore)
    && InWindow(r.updatedAt, f.updatedAfter, f.updatedBefore)
    && (!f.includeDeleted ==> r.deletedAt.None?)
  }

  /** The predicate of the in-memory repository. */
  predicate MemoryMatches(f: Filter, r: RecordRow, now: Time) {
    && Wanted(f.namespace, r.payload.namespace)
    && (f.keyPrefix.Some? ==> f.keyPrefix.value <= r.payload.key)
    && Wanted(f.owner, r.owner)
    && (f.tags.Some? ==> (set t | t in f.tags.value) <= (set t | t in r.tags))
    && TimesAndState(f, r, now)
    && (!f.includeExpired ==> !r.Expired(now))
  }

  /** What is selected, by the columns: bounds include their start and exclude their end, tags are all
      present, and tombstones and expired rows are left out unless asked for. */
  lemma MemorySelects(f: Filter, r: RecordRow, now: Time)
    ensures MemoryMatches(f, r, now) <==>
              && (f.namespace.None? || f.namespace.value == r.payload.namespace)
              && (f.keyPrefix.None? || f.keyPrefix.value <= r.payload.key)
              && (f.owner.None? || f.owner.value == r.owner)
              && (f.tags.None? || forall i :: 0 <= i < |f.tags.value| ==> f.tags.value[i] in r.tags)
              && (f.createdAfter.None? || f.createdAfter.value <= r.createdAt)
              && (f.createdBefore.None? || r.createdAt < f.createdBefore.value)
              && (f.updatedAfter.None? || f.updatedAfter.value <= r.updatedAt)
              && (f.updatedBefore.None? || r.updatedAt < f.updatedBefore.value)
              && (f.includeDeleted || r.deletedAt.None?)
              && (f.includeExpired || r.expiresAt.None? || now < r.expiresAt.value)
  {
    if f.tags.Some? {
      SubsetPointwise(f.tags.value, r.tags);
    }
  }

  /** So adjacent windows split a listing: every row selected up to `m` and from `m` on, none in both. */
  lemma WindowsSplit(f: Filter, r: RecordRow, now: Time, m: Time)
    requires f.createdAfter.None? || f.createdAfter.value <= m
    requires f.createdBefore.None? || m <= f.createdBefore.value
    ensures var (early, late) := (f.(createdBefore := Some(m)), f.(createdAfter := Some(m)));
            && (MemoryMatches(f, r, now) <==> MemoryMatches(early, r, now) || MemoryMatches(late, r, now))
            && !(MemoryMatches(early, r, now) && MemoryMatches(late, r, now))
  {
  }

  /** The filters the SQL repository chains, on the text the columns hold, for a backend whose LIKE
      compares under `fold`: SQLite's folds ASCII letters, PostgreSQL's is `Same`. */
  predicate SqlMatches(fold: char -> char, f: Filter, r: RecordRow, now: Time) {
    && Wanted(f.namespace, r.payload.namespace)
    && (f.keyPrefix.Some? ==> LikeUnder(fold, PrefixPattern(f.keyPrefix.value), r.payload.key))
    && Wanted(f.owner, r.owner)
    && (f.tags.Some? ==> SqlTags(fold, f.tags.value, r.tags))
    && TimesAndState(f, r, now)
    && (!f.includeExpired ==> r.expiresAt.None? || r.expiresAt.value > now)
  }

  /** The chained tag filters. */
  predicate SqlTags(fold: char -> char, query: seq<string>, stored: seq<string>) {
    forall i :: 0 <= i < |query| ==> LikeUnder(fold, TagPattern(query[i]), JsonText(stored))
  }

  function FoldedFilter(fold: char -> char, f: Filter): Filter {
    f.(keyPrefix := if f.keyPrefix.Some? then Some(Folded(fold, f.keyPrefix.value)) else None,
       tags := if f.tags.Some? then Some(FoldedAll(fold, f.tags.value)) else None)
  }

  function FoldedRow(fold: char -> char, r: RecordRow): RecordRow {
    r.(tags := FoldedAll(fold, r.tags), payload := r.payload.(key := Folded(fold, r.payload.key)))
  }

  lemma SubsetPointwise(query: seq<string>, stored: seq<string>)
    ensures (set t | t in query) <= (set t | t in stored) <==> forall i :: 0 <= i < |query| ==> query[i] in stored
  {
    var wanted, present := set t | t in query, set t | t in stored;
    if wanted <= present {
      forall i | 0 <= i < |query|
        ensures query[i] in stored
      {
        assert query[i] in wanted;
      }
    }
  }

  /** Main result: on any backend the SQL filters select, for valid query tags, what the in-memory
      predicate would select with key, prefix and tags folded. */
  lemma SqlSelectsFolded(fold: char -> char, f: Filter, r: RecordRow, now: Time)
    requires TextFold(fold) && ValidTags(r.tags) && (f.tags.Some? ==> ValidTags(f.tags.value))
    ensures SqlMatches(fold, f, r, now) <==> MemoryMatches(FoldedFilter(fold, f), FoldedRow(fold, r), now)
  {
    if f.keyPrefix.Some? {
      PrefixFilterFolds(fold, f.keyPrefix.value, r.payload.key);
    }
    if f.tags.Some? {
      var query := f.tags.value;
      forall i | 0 <= i < |query|
        ensures LikeUnder(fold, TagPattern(query[i]), JsonText(r.tags)) <==>
                FoldedAll(fold, query)[i] in FoldedAll(fold, r.tags)
      {
        TagFilterFolds(fold, query[i], r.tags);
      }
      SubsetPointwise(FoldedAll(fold, query), FoldedAll(fold, r.tags));
    }
  }

  /** Both backends select the same rows, for a key prefix without letters of two cases and query tags
      that are exact (`PrefixExactIff` and `TagExactIff` say that the others are not). */
  lemma BackendsAgree(fold: char -> char, f: Filter, r: RecordRow, now: Time)
    requires TextFold(fold) && StoredTags(r.tags)
    requires f.keyPrefix.Some? ==> Caseless(fold, f.keyPrefix.value)
    requires f.tags.Some? ==> forall i :: 0 <= i < |f.tags.value| ==> Exact(fold, f.tags.value[i])
    ensures SqlMatches(fold, f, r, now) <==> MemoryMatches(f, r, now)
  {
    if f.keyPrefix.Some? {
      PrefixFilterFolds(fold, f.keyPrefix.value, r.payload.key);
      FoldedPrefix(fold, f.keyPrefix.value, r.payload.key);
    }
    if f.tags.Some? {
      TagFiltersAreSubset(fold, f.tags.value, r.tags);
    }
  }

  /** The conjunction of tag filters is the in-memory test `set(tags) <= set(r.tags)`, for exact query
      tags. */
  lemma TagFiltersAreSubset(fold: char -> char, query: seq<string>, stored: seq<string>)
    requires TextFold(fold) && StoredTags(stored) && forall i :: 0 <= i < |query| ==> Exact(fold, query[i])
    ensures SqlTags(fold, query, stored) <==> (set t | t in query) <= (set t | t in stored)
  {
    forall i | 0 <= i < |query|
      ensures LikeUnder(fold, TagPattern(query[i]), JsonText(stored)) <==> query[i] in stored
    {
      ExactSelects(fold, query[i], stored);
    }
    SubsetPointwise(query, stored);
  }

  /** On a backend that compares case any prefix will do, and any query tags but seams. */
  lemma CaseSensitiveAgrees(f: Filter, r: RecordRow, now: Time)
    requires StoredTags(r.tags)
             && (f.tags.Some? ==> forall i :: 0 <= i < |f.tags.value| ==> !Seam(Same, f.tags.value[i]))
    ensures SqlMatches(Same, f, r, now) <==> MemoryMatches(f, r, now)
  {
    SameFold();
    BackendsAgree(Same, f, r, now);
  }

  function Matches(f: Filter, now: Time): RecordRow -> bool {
    (r: RecordRow) => MemoryMatches(f, r, now)
  }

  function UpdateTime(r: RecordRow): Time {
    r.updatedAt
  }

  /** `list`: one page and the total of the single listing the filter has. */
  method List(items: map<string, RecordRow>, f: Filter, now: Time, limit: nat, offset: nat)
    returns (page: seq<RecordRow>, total: nat)
    requires KeyedById(items)
    ensures forall l :: IsListing(l, items, Matches(f, now), UpdateTime) ==>
            page == Slice(l, limit, offset) && total == |l|
    ensures exists l :: IsListing(l, items, Matches(f, now), UpdateTime)
  {
    ghost var found;
    page, total, found := Page(items, Matches(f, now), UpdateTime, limit, offset);
  }

  /** On an unchanged store, walking the pages visits exactly the matching rows, each once. */
  lemma WalkVisitsMatches(items: map<string, RecordRow>, f: Filter, now: Time, rows: seq<RecordRow>, limit: nat,
      pages: nat)
    requires IsListing(rows, items, Matches(f, now), UpdateTime) && limit * pages >= |rows|
    ensures var all := JoinPages(rows, limit, pages);
            && |all| == |rows|
            && (forall i, j :: 0 <= i < j < |all| ==>
                  && all[i] != all[j] && all[i].updatedAt <= all[j].updatedAt
                  && (all[i].updatedAt == all[j].updatedAt ==> StringLe(all[i].id, all[j].id)))
            && (forall r :: r in all <==> exists id :: id in items && items[id] == r && MemoryMatches(f, r, now))
  {
    PagesPartition(rows, limit, pages);
    ListingMembers(rows, items, Matches(f, now), UpdateTime);
    forall i, j | 0 <= i < j < |rows|
      ensures rows[i].updatedAt <= rows[j].updatedAt
      ensures rows[i].updatedAt == rows[j].updatedAt ==> StringLe(rows[i].id, rows[j].id)
    {
      assert ByTime(UpdateTime)(rows[i], rows[j]);
    }
  }
}
