/** Rows shared by records and files, their expiry, tags and content identifiers. */
module Domain {
  import opened Prelude
  import opened LikePatterns
  import opened Sorting

  type Time = nat
  type Json = string

  /** The columns RecordData and FileObjectData have in common, and what is particular to each. */
  datatype Row<+P> = Row(
    id: string,
    owner: string,
    version: nat,
    idem: Option<string>,
    etag: string,
    metadata: Json,
    tags: seq<string>,
    createdAt: Time,
    updatedAt: Time,
    expiresAt: Option<Time>,
    deletedAt: Option<Time>,
    payload: P)
  {
    predicate Expired(now: Time) {
      expiresAt.Some? && expiresAt.value <= now
    }

    predicate Live(now: Time) {
      deletedAt.None? && !Expired(now)
    }
  }

  datatype RecordPayload = RecordPayload(namespace: string, key: string, value: Json)

  datatype FilePayload = FilePayload(filename: string, mime: string, size: nat, path: string, sha256: string)

  type RecordRow = Row<RecordPayload>
  type FileRow = Row<FilePayload>

  /** A row that is not deleted is live exactly before its expiry; without one, always. */
  lemma LiveWhen<P>(r: Row<P>)
    ensures r.deletedAt.Some? ==> forall t: Time :: !r.Live(t)
    ensures r.deletedAt.None? && r.expiresAt.None? ==> forall t: Time :: r.Live(t)
    ensures r.deletedAt.None? && r.expiresAt.Some? ==> forall t: Time :: r.Live(t) <==> t < r.expiresAt.value
    ensures forall t: Time :: r.Expired(t) <==> r.expiresAt.Some? && r.expiresAt.value <= t
  {
  }

  // ---------- Tags ----------

  /** `str.isspace()` of one character. */
  predicate Space(c: char) {
    || '\U{09}' <= c <= '\U{0D}' || '\U{1C}' <= c <= ' '
    || c in {'\U{85}', '\U{A0}', '\U{1680}', '\U{2028}', '\U{2029}', '\U{202F}', '\U{205F}', '\U{3000}'}
    || '\U{2000}' <= c <= '\U{200A}'
  }

  /** `str.strip()`. */
  function Strip(s: string): string
    decreases |s|
  {
    if s == "" then ""
    else if Space(s[0]) then Strip(s[1..])
    else if Space(s[|s| - 1]) then Strip(s[..|s| - 1])
    else s
  }

  predicate AllSpace(s: string) {
    forall i :: 0 <= i < |s| ==> Space(s[i])
  }

  /** Stripping takes blanks off both ends, and leaves none there. */
  lemma {:induction false} StripTrims(s: string) returns (left: string, right: string)
    ensures s == left + Strip(s) + right && AllSpace(left) && AllSpace(right)
    ensures Strip(s) != "" ==> !Space(Strip(s)[0]) && !Space(Strip(s)[|Strip(s)| - 1])
    decreases |s|
  {
    left, right := "", "";
    if s == "" {
    } else if Space(s[0]) {
      left, right := StripTrims(s[1..]);
      left := [s[0]] + left;
      assert s == [s[0]] + s[1..];
    } else if Space(s[|s| - 1]) {
      left, right := StripTrims(s[..|s| - 1]);
      right := right + [s[|s| - 1]];
      assert s == s[..|s| - 1] + [s[|s| - 1]];
    }
  }

  /** First occurrences only, in order. */
  function Dedupe(tags: seq<string>): seq<string> {
    if tags == [] then []
    else
      var n := |tags| - 1;
      var front := Dedupe(tags[..n]);
      if tags[n] in tags[..n] then front else front + [tags[n]]
  }

  function Stripped(tags: seq<string>): seq<string> {
    seq(|tags|, i requires 0 <= i < |tags| => Strip(tags[i]))
  }

  function Normal(tags: seq<string>): seq<string> {
    Dedupe(Stripped(tags))
  }

  method NormalizeTags(tags: seq<string>) returns (normalized: seq<string>)
    ensures normalized == Normal(tags)
  {
    var seen: set<string> := {};
    normalized := [];
    for i := 0 to |tags|
      invariant normalized == Dedupe(Stripped(tags)[..i])
      invariant forall t :: t in seen <==> t in Stripped(tags)[..i]
    {
      var tag := Strip(tags[i]);
      assert Stripped(tags)[..i + 1] == Stripped(tags)[..i] + [tag];
      assert Stripped(tags)[..i + 1][..i] == Stripped(tags)[..i];
      if tag !in seen {
        seen := seen + {tag};
        normalized := normalized + [tag];
      }
    }
    assert Stripped(tags)[..|tags|] == Stripped(tags);
  }

  /** A normalised list has the stripped tags, each once, and normalising it again changes nothing. */
  lemma {:induction false} DedupeProps(tags: seq<string>)
    ensures forall t :: t in Dedupe(tags) <==> t in tags
    ensures forall i, j :: 0 <= i < j < |Dedupe(tags)| ==> Dedupe(tags)[i] != Dedupe(tags)[j]
  {
    if tags == [] {
    } else {
      var n := |tags| - 1;
      DedupeProps(tags[..n]);
      assert tags == tags[..n] + [tags[n]];
    }
  }

  /** Where a tag first occurs. */
  function FirstAt(tags: seq<string>, t: string): (i: nat)
    requires t in tags
    ensures i < |tags| && tags[i] == t && t !in tags[..i]
  {
    if tags[0] == t then 0 else
      var i := FirstAt(tags[1..], t);
      assert tags[..i + 1] == [tags[0]] + tags[1..][..i];
      1 + i
  }

  lemma {:induction false} FirstAtEnd(tags: seq<string>, last: string, t: string)
    requires t in tags
    ensures FirstAt(tags + [last], t) == FirstAt(tags, t)
  {
    if tags[0] == t {
    } else {
      assert (tags + [last])[1..] == tags[1..] + [last];
      FirstAtEnd(tags[1..], last, t);
    }
  }

  /** The tags stay in the order in which they first occur. */
  lemma {:induction false} DedupeInOrder(tags: seq<string>)
    ensures forall i :: 0 <= i < |Dedupe(tags)| ==> Dedupe(tags)[i] in tags
    ensures forall i, j :: 0 <= i < j < |Dedupe(tags)| ==>
              FirstAt(tags, Dedupe(tags)[i]) < FirstAt(tags, Dedupe(tags)[j])
  {
    if tags == [] {
    } else {
      var n := |tags| - 1;
      var front, last := tags[..n], tags[n];
      assert tags == front + [last];
      DedupeInOrder(front);
      forall i | 0 <= i < |Dedupe(front)|
        ensures FirstAt(tags, Dedupe(front)[i]) == FirstAt(front, Dedupe(front)[i]) < n
      {
        FirstAtEnd(front, last, Dedupe(front)[i]);
      }
    }
  }

  lemma {:induction false} DedupeKeepsDistinct(tags: seq<string>)
    requires forall i, j :: 0 <= i < j < |tags| ==> tags[i] != tags[j]
    ensures Dedupe(tags) == tags
  {
    if tags == [] {
    } else {
      var n := |tags| - 1;
      DedupeKeepsDistinct(tags[..n]);
      assert tags == tags[..n] + [tags[n]];
    }
  }

  lemma {:induction false} StripStable(s: string)
    ensures Strip(Strip(s)) == Strip(s)
    decreases |s|
  {
    if s == "" {
    } else {
      if Space(s[0]) {
        StripStable(s[1..]);
      } else if Space(s[|s| - 1]) {
        StripStable(s[..|s| - 1]);
      }
    }
  }

  lemma NormalizeIdempotent(tags: seq<string>)
    ensures Normal(Normal(tags)) == Normal(tags)
  {
    var once := Normal(tags);
    DedupeProps(Stripped(tags));
    forall i | 0 <= i < |once|
      ensures Strip(once[i]) == once[i]
    {
      assert once[i] in Stripped(tags);
      var j :| 0 <= j < |tags| && Stripped(tags)[j] == once[i];
      StripStable(tags[j]);
    }
    assert Stripped(once) == once;
    DedupeKeepsDistinct(once);
  }

  /** `validate_tags`; its tags are the ones the SQL tag filter is exact for. */
  predicate TagsAccepted(tags: seq<string>) {
    |tags| <= MAX_TAGS && ValidTags(tags)
  }

  /** Accepted are up to 50 tags of 1 to 64 letters, digits, dots, underscores and dashes. */
  lemma AcceptedIff(tags: seq<string>)
    ensures TagsAccepted(tags) <==>
              && |tags| <= 50
              && forall i :: 0 <= i < |tags| ==>
                   1 <= |tags[i]| <= 64 && forall j :: 0 <= j < |tags[i]| ==>
                     'a' <= LowerChar(tags[i][j]) <= 'z' || '0' <= tags[i][j] <= '9' || tags[i][j] in "._-"
  {
    assert forall c: char :: TagChar(c) <==> 'a' <= LowerChar(c) <= 'z' || '0' <= c <= '9' || c in "._-";
  }

  /** A list that passes both is one the tag filter's exactness is about. */
  lemma AcceptedAreStored(tags: seq<string>)
    ensures TagsAccepted(Normal(tags)) ==> StoredTags(Normal(tags))
  {
    DedupeProps(Stripped(tags));
  }

  /** A tag that strips to nothing is not dropped: normalising keeps one empty tag exactly when some tag
      is blank, and validation then refuses the whole list. */
  lemma BlankTagKept(tags: seq<string>)
    ensures "" in Normal(tags) <==> exists i :: 0 <= i < |tags| && Strip(tags[i]) == ""
    ensures "" in Normal(tags) ==> !TagsAccepted(Normal(tags))
  {
    DedupeProps(Stripped(tags));
    if i :| 0 <= i < |tags| && Strip(tags[i]) == "" {
      assert Stripped(tags)[i] == "";
    }
    if "" in Normal(tags) {
      var k :| 0 <= k < |Normal(tags)| && Normal(tags)[k] == "";
      assert !ValidTag(Normal(tags)[k]);
    }
  }

  /** One blank beside a good tag is enough. */
  lemma BlankTagRefuses(tag: string)
    requires ValidTag(tag)
    ensures TagsAccepted(Normal([tag])) && !TagsAccepted(Normal([tag, " "]))
  {
    assert Strip(tag) == tag;
    assert Stripped([tag]) == [tag];
    DedupeKeepsDistinct([tag]);
    assert Strip(" "[1..]) == "";
    assert Strip([tag, " "][1]) == "";
    BlankTagKept([tag, " "]);
  }

  // ---------- Content identifiers ----------

  predicate StringLe(a: string, b: string) {
    a == "" || (b != "" && (a[0] < b[0] || (a[0] == b[0] && StringLe(a[1..], b[1..]))))
  }

  lemma {:induction false} StringLeTotal(a: string, b: string)
    ensures StringLe(a, b) || StringLe(b, a)
    ensures StringLe(a, b) && StringLe(b, a) ==> a == b
  {
    if a != "" && b != "" {
      StringLeTotal(a[1..], b[1..]);
      if StringLe(a, b) && StringLe(b, a) {
        assert a == [a[0]] + a[1..] && b == [b[0]] + b[1..];
      }
    }
  }

  lemma {:induction false} StringLeTransitive(a: string, b: string, c: string)
    requires StringLe(a, b) && StringLe(b, c)
    ensures StringLe(a, c)
  {
    if a != "" && a[0] == b[0] && b[0] == c[0] {
      StringLeTransitive(a[1..], b[1..], c[1..]);
    }
  }

  /** The order is the dictionary's: a prefix first, else the first difference decides. */
  lemma {:induction false} StringLeIff(a: string, b: string)
    ensures StringLe(a, b) <==> a <= b || exists k :: DiffersAt(a, b, k) && a[k] < b[k]
  {
    if a == "" || b == "" {
    } else {
      StringLeIff(a[1..], b[1..]);
      assert a <= b <==> a[0] == b[0] && a[1..] <= b[1..];
      if k :| DiffersAt(a[1..], b[1..], k) && a[1..][k] < b[1..][k] {
        assert a[0] == b[0] ==> DiffersAt(a, b, k + 1);
      }
      if k :| DiffersAt(a, b, k) && a[k] < b[k] {
        assert k > 0 ==> DiffersAt(a[1..], b[1..], k - 1);
      }
      assert a[0] < b[0] ==> DiffersAt(a, b, 0);
    }
  }

  predicate DiffersAt(a: string, b: string, k: int) {
    0 <= k < |a| && k < |b| && a[k] != b[k] && forall i :: 0 <= i < k ==> a[i] == b[i]
  }

  lemma StringLeIsOrder()
    ensures TotalPreorder(StringLe)
  {
    forall x, y ensures StringLe(x, y) || StringLe(y, x) {
      StringLeTotal(x, y);
    }
    forall x, y, z | StringLe(x, y) && StringLe(y, z) ensures StringLe(x, z) {
      StringLeTransitive(x, y, z);
    }
  }

  /** `sorted(tags)`. */
  function SortTags(tags: seq<string>): seq<string> {
    Sort(StringLe, tags)
  }

  /** The payload whose canonical JSON text is hashed. */
  datatype Canonical = Canonical(value: Json, metadata: Json, tags: seq<string>)

  function ContentEtag(hash: Canonical -> string, value: Json, metadata: Json, tags: seq<string>): string {
    hash(Canonical(value, metadata, SortTags(tags)))
  }

  /** Tag order never changes identity; anything else does, as far as the digest can tell. */
  lemma ContentEtagIdentity(hash: Canonical -> string, v: Json, m: Json, t: seq<string>, v': Json, m': Json,
      t': seq<string>)
    requires forall x, y :: hash(x) == hash(y) ==> x == y
    ensures ContentEtag(hash, v, m, t) == ContentEtag(hash, v', m', t')
            <==> v == v' && m == m' && multiset(t) == multiset(t')
  {
    StringLeIsOrder();
    SortProps(StringLe, t);
    SortProps(StringLe, t');
    if multiset(t) == multiset(t') {
      forall x, y | StringLe(x, y) && StringLe(y, x) ensures x == y {
        StringLeTotal(x, y);
      }
      SortedUnique(StringLe, SortTags(t), SortTags(t'));
    }
  }
}
