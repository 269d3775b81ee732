/** The LIKE filters on backends that fold case: SQLite's own LIKE folds ASCII letters, and `ilike` folds
    on every backend. Which key prefixes and tag queries are exact, under any fold. */
module LikeFolds {
  import opened Prelude
  import opened LikePatterns

  function Folded(fold: char -> char, s: string): string {
    seq(|s|, i requires 0 <= i < |s| => fold(s[i]))
  }

  function FoldedAll(fold: char -> char, tags: seq<string>): seq<string> {
    seq(|tags|, i requires 0 <= i < |tags| => Folded(fold, tags[i]))
  }

  /** The fold of a backend that compares case. */
  function Same(c: char): char {
    c
  }

  /** A case fold, character by character, moves no LIKE character and makes none. */
  ghost predicate CaseFold(fold: char -> char) {
    forall c :: Special(c) || Special(fold(c)) ==> fold(c) == c
  }

  predicate Mark(c: char) {
    c in "\", []"
  }

  /** It also leaves the marks of JSON text alone, and turns tag characters into each other. */
  ghost predicate TextFold(fold: char -> char) {
    CaseFold(fold) && (forall c :: Mark(c) ==> fold(c) == c) && forall c :: TagChar(fold(c)) <==> TagChar(c)
  }

  /** LIKE under a fold: `lower(column) LIKE lower(pattern)`. */
  predicate LikeUnder(fold: char -> char, p: string, s: string) {
    Like(Folded(fold, p), Folded(fold, s))
  }

  /** No other character folds to the same. */
  ghost predicate Alone(fold: char -> char, c: char) {
    forall d :: fold(d) == fold(c) ==> d == c
  }

  ghost predicate Caseless(fold: char -> char, s: string) {
    forall i :: 0 <= i < |s| ==> Alone(fold, s[i])
  }

  // ---------- Folding patterns and texts ----------

  lemma FoldAppend(fold: char -> char, a: string, b: string)
    ensures Folded(fold, a + b) == Folded(fold, a) + Folded(fold, b)
  {
  }

  lemma {:induction false} FoldOnePass(fold: char -> char, q: string)
    requires CaseFold(fold)
    ensures Folded(fold, EscapeOnePass(q)) == EscapeOnePass(Folded(fold, q))
  {
    if q == "" {
    } else {
      FoldOnePass(fold, q[1..]);
      assert Folded(fold, q)[1..] == Folded(fold, q[1..]);
      assert Folded(fold, EscapeChar(q[0])) == EscapeChar(fold(q[0]));
      FoldAppend(fold, EscapeChar(q[0]), EscapeOnePass(q[1..]));
    }
  }

  lemma FoldEscape(fold: char -> char, q: string)
    requires CaseFold(fold)
    ensures Folded(fold, LikeEscape(q)) == LikeEscape(Folded(fold, q))
  {
    EscapeIsOnePass(q);
    EscapeIsOnePass(Folded(fold, q));
    FoldOnePass(fold, q);
  }

  /** The search filter is the in-memory test `query.lower() in text.lower()`, under any one fold. */
  lemma SearchIgnoresCase(fold: char -> char, q: string, s: string)
    requires CaseFold(fold)
    ensures LikeUnder(fold, SearchPattern(q), s) <==> Occurs(Folded(fold, q), Folded(fold, s))
  {
    FoldEscape(fold, q);
    FoldAppend(fold, "%", LikeEscape(q));
    FoldAppend(fold, "%" + LikeEscape(q), "%");
    assert Folded(fold, "%") == "%";
    SearchFilterExact(Folded(fold, q), Folded(fold, s));
  }

  // ---------- Key prefixes ----------

  /** The prefix filter compares under the fold. */
  lemma PrefixFilterFolds(fold: char -> char, prefix: string, key: string)
    requires CaseFold(fold)
    ensures LikeUnder(fold, PrefixPattern(prefix), key) <==> Folded(fold, prefix) <= Folded(fold, key)
  {
    FoldEscape(fold, prefix);
    FoldAppend(fold, LikeEscape(prefix), "%");
    assert Folded(fold, "%") == "%";
    PrefixFilterExact(Folded(fold, prefix), Folded(fold, key));
  }

  const MAX_KEY := 512

  predicate StoredKey(key: string) {
    1 <= |key| <= MAX_KEY
  }

  lemma FoldedPrefix(fold: char -> char, a: string, b: string)
    ensures a <= b ==> Folded(fold, a) <= Folded(fold, b)
    ensures Caseless(fold, a) && Folded(fold, a) <= Folded(fold, b) ==> a <= b
  {
    if Caseless(fold, a) && Folded(fold, a) <= Folded(fold, b) {
      forall i | 0 <= i < |a|
        ensures a[i] == b[i]
      {
        assert Alone(fold, a[i]) && Folded(fold, a)[i] == Folded(fold, b)[i];
      }
    }
  }

  /** A text with a character that has another case is folded to the same as one other. */
  lemma OtherCase(fold: char -> char, q: string) returns (other: string)
    requires !Caseless(fold, q)
    ensures other != q && |other| == |q| > 0 && Folded(fold, other) == Folded(fold, q)
    ensures TextFold(fold) && ValidTag(q) ==> ValidTag(other)
  {
    var i :| 0 <= i < |q| && !Alone(fold, q[i]);
    var d :| fold(d) == fold(q[i]) && d != q[i];
    other := q[i := d];
  }

  /** Main result: the prefix filter is `startswith` on every stored key, if and only if no character of
      the prefix has another case (or it is longer than any key). */
  lemma PrefixExactIff(fold: char -> char, prefix: string)
    requires CaseFold(fold)
    ensures (forall key :: StoredKey(key) ==> (LikeUnder(fold, PrefixPattern(prefix), key) <==> prefix <= key))
            <==> Caseless(fold, prefix) || |prefix| > MAX_KEY
  {
    if Caseless(fold, prefix) || |prefix| > MAX_KEY {
      forall key | StoredKey(key)
        ensures LikeUnder(fold, PrefixPattern(prefix), key) <==> prefix <= key
      {
        PrefixFilterFolds(fold, prefix, key);
        FoldedPrefix(fold, prefix, key);
      }
    } else {
      var key := OtherCase(fold, prefix);
      PrefixFilterFolds(fold, prefix, key);
      assert StoredKey(key) && LikeUnder(fold, PrefixPattern(prefix), key) && !(prefix <= key);
    }
  }

  // ---------- Tags ----------

  lemma {:induction false} FoldElements(fold: char -> char, tags: seq<string>)
    requires TextFold(fold)
    ensures Folded(fold, Elements(tags)) == Elements(FoldedAll(fold, tags))
  {
    if tags == [] {
    } else {
      var t := tags[0];
      FoldQuoted(fold, t);
      if |tags| > 1 {
        FoldElements(fold, tags[1..]);
        assert FoldedAll(fold, tags)[1..] == FoldedAll(fold, tags[1..]);
        FoldAppend(fold, Quoted(t), ", ");
        FoldAppend(fold, Quoted(t) + ", ", Elements(tags[1..]));
        assert Folded(fold, ", ") == ", ";
      }
    }
  }

  lemma FoldQuoted(fold: char -> char, t: string)
    requires TextFold(fold)
    ensures Folded(fold, Quoted(t)) == Quoted(Folded(fold, t))
  {
    assert Folded(fold, "\"") == "\"";
    FoldAppend(fold, "\"", t);
    FoldAppend(fold, "\"" + t, "\"");
  }

  lemma FoldTagTexts(fold: char -> char, q: string, tags: seq<string>)
    requires TextFold(fold)
    ensures Folded(fold, TagPattern(q)) == TagPattern(Folded(fold, q))
    ensures Folded(fold, JsonText(tags)) == JsonText(FoldedAll(fold, tags))
  {
    FoldEscape(fold, q);
    assert Special('%') && Mark('"') && Mark('[') && Mark(']');
    assert Folded(fold, "%\"") == "%\"" && Folded(fold, "\"%") == "\"%";
    FoldAppend(fold, "%\"", LikeEscape(q));
    FoldAppend(fold, "%\"" + LikeEscape(q), "\"%");
    FoldElements(fold, tags);
    assert Folded(fold, "[") == "[" && Folded(fold, "]") == "]";
    FoldAppend(fold, "[", Elements(tags));
    FoldAppend(fold, "[" + Elements(tags), "]");
  }

  lemma FoldValid(fold: char -> char, t: string)
    requires TextFold(fold)
    ensures ValidTag(Folded(fold, t)) <==> ValidTag(t)
  {
    if ValidTag(Folded(fold, t)) {
      forall i | 0 <= i < |t|
        ensures TagChar(t[i])
      {
        assert TagChar(Folded(fold, t)[i]);
      }
    }
  }

  /** What the tag filter selects: the lists that the folded query can be read off once they are folded;
      for a valid tag, those that hold it in some case. */
  lemma TagFilterFolds(fold: char -> char, q: string, tags: seq<string>)
    requires TextFold(fold) && ValidTags(tags)
    ensures LikeUnder(fold, TagPattern(q), JsonText(tags)) <==> Selected(Folded(fold, q), FoldedAll(fold, tags))
    ensures ValidTag(q) ==>
              (Selected(Folded(fold, q), FoldedAll(fold, tags)) <==> Folded(fold, q) in FoldedAll(fold, tags))
  {
    forall i | 0 <= i < |tags|
      ensures ValidTag(FoldedAll(fold, tags)[i])
    {
      FoldValid(fold, tags[i]);
    }
    FoldTagTexts(fold, q, tags);
    TagFilterSelects(Folded(fold, q), FoldedAll(fold, tags));
    if ValidTag(q) {
      FoldValid(fold, q);
      TagQuoteFree(Folded(fold, q));
      assert TagChar(Folded(fold, q)[0]);
    }
  }

  /** Distinct tags that fold to these. */
  ghost predicate Spellable(fold: char -> char, named: seq<string>) {
    exists tags :: Distinct(tags) && FoldedAll(fold, tags) == named
  }

  /** A text, already folded, that can be read off a stored list. */
  ghost predicate Fits(fold: char -> char, q: string, tagNext: bool) {
    && Separated(q, tagNext) && ValidTags(Named(q, tagNext)) && Spellable(fold, Named(q, tagNext))
    && Room(q, tagNext) <= MAX_TAGS
  }

  /** A query that can be read off across the elements of a stored list. */
  ghost predicate Seam(fold: char -> char, q: string) {
    var f := Folded(fold, q);
    Fits(fold, f, false) || (Fits(fold, f, true) && !QuoteFree(f))
  }

  lemma SeamIsNoTag(fold: char -> char, q: string)
    requires TextFold(fold) && ValidTag(q)
    ensures !Seam(fold, q)
  {
    var f := Folded(fold, q);
    FoldValid(fold, q);
    TagQuoteFree(f);
    QuoteFreeWhole(f);
    assert TagChar(f[0]) && f[0] != ',';
  }

  /** A stored list that has something read off it makes that a seam, or holds it in some case. */
  lemma {:induction false} SelectedIsSeam(fold: char -> char, q: string, tags: seq<string>)
    requires TextFold(fold) && StoredTags(tags) && Selected(Folded(fold, q), FoldedAll(fold, tags))
    ensures Seam(fold, q) || Folded(fold, q) in FoldedAll(fold, tags)
  {
    var f, all := Folded(fold, q), FoldedAll(fold, tags);
    QuoteFreeWhole(f);
    assert all[1..] == FoldedAll(fold, tags[1..]);
    if ReadsTag(f, all) {
      if !QuoteFree(f) {
        ReadsTagNamed(f, all);
        PrefixFits(fold, tags, Named(f, true));
      }
    } else if ReadsSeparator(f, all[1..]) {
      ReadsSeparatorNamed(f, all[1..]);
      PrefixFits(fold, tags[1..], Named(f, false));
    } else {
      SelectedIsSeam(fold, q, tags[1..]);
    }
  }

  lemma PrefixFits(fold: char -> char, tags: seq<string>, named: seq<string>)
    requires TextFold(fold) && StoredTags(tags) && named <= FoldedAll(fold, tags)
    ensures ValidTags(named) && Spellable(fold, named)
  {
    var some := tags[..|named|];
    assert FoldedAll(fold, some) == named;
    forall i | 0 <= i < |named|
      ensures ValidTag(named[i])
    {
      FoldValid(fold, tags[i]);
    }
  }

  /** Every seam selects some stored list that does not contain it. */
  lemma SeamMisleads(fold: char -> char, q: string) returns (tags: seq<string>)
    requires TextFold(fold) && Seam(fold, q)
    ensures StoredTags(tags) && q !in tags && Selected(Folded(fold, q), FoldedAll(fold, tags))
  {
    var f := Folded(fold, q);
    var tagNext := Fits(fold, f, true) && !QuoteFree(f);
    tags := Spelled(fold, f, tagNext);
    if tagNext {
      ReadsTagNamed(f, FoldedAll(fold, tags));
    } else {
      var rest := tags;
      ReadsSeparatorNamed(f, FoldedAll(fold, rest));
      var first := AddFresh(rest);
      tags := [first] + rest;
      assert FoldedAll(fold, tags)[1..] == FoldedAll(fold, rest);
    }
    forall t | t in tags
      ensures t != q
    {
      if t == q {
        SeamIsNoTag(fold, q);
      }
    }
  }

  /** A stored list that begins with the named elements and goes on if it has to. */
  lemma Spelled(fold: char -> char, f: string, tagNext: bool) returns (tags: seq<string>)
    requires TextFold(fold) && Fits(fold, f, tagNext)
    ensures StoredTags(tags) && |tags| + (if tagNext then 0 else 1) <= MAX_TAGS
    ensures BeginsWith(FoldedAll(fold, tags), Named(f, tagNext), EndsOpen(f, tagNext))
  {
    var named := Named(f, tagNext);
    tags :| Distinct(tags) && FoldedAll(fold, tags) == named;
    forall i | 0 <= i < |tags|
      ensures ValidTag(tags[i])
    {
      assert ValidTag(named[i]) && named[i] == Folded(fold, tags[i]);
      FoldValid(fold, tags[i]);
    }
    if EndsOpen(f, tagNext) {
      var last := AddFresh(tags);
      assert FoldedAll(fold, tags + [last]) == named + [Folded(fold, last)];
      tags := tags + [last];
    }
  }

  /** No seam, and if a tag, one without letters of two cases. */
  ghost predicate Exact(fold: char -> char, q: string) {
    !Seam(fold, q) && (ValidTag(q) ==> Caseless(fold, q))
  }

  lemma ExactSelects(fold: char -> char, q: string, tags: seq<string>)
    requires TextFold(fold) && StoredTags(tags) && Exact(fold, q)
    ensures LikeUnder(fold, TagPattern(q), JsonText(tags)) <==> q in tags
  {
    var f, all := Folded(fold, q), FoldedAll(fold, tags);
    TagFilterFolds(fold, q, tags);
    if Selected(f, all) {
      SelectedIsSeam(fold, q, tags);
      var i :| 0 <= i < |all| && all[i] == f;
      assert f == Folded(fold, tags[i]);
      FoldValid(fold, tags[i]);
      FoldValid(fold, q);
      FoldedPrefix(fold, q, tags[i]);
      assert |q| == |f| == |tags[i]|;
    }
    if i :| 0 <= i < |tags| && tags[i] == q {
      assert all[i] == f;
    }
  }

  /** Main result: the tag filter is list membership on every stored list, if and only if the query is no
      seam and, if it is a valid tag, has no letter of two cases. A seam is `, ` or a text with quotes
      that names valid elements in a row, spelled apart by case if they repeat, few enough to fit. */
  lemma TagExactIff(fold: char -> char, q: string)
    requires TextFold(fold)
    ensures (forall tags :: StoredTags(tags) ==> (LikeUnder(fold, TagPattern(q), JsonText(tags)) <==> q in tags))
            <==> Exact(fold, q)
  {
    if Exact(fold, q) {
      forall tags | StoredTags(tags)
        ensures LikeUnder(fold, TagPattern(q), JsonText(tags)) <==> q in tags
      {
        ExactSelects(fold, q, tags);
      }
    } else if Seam(fold, q) {
      var tags := SeamMisleads(fold, q);
      TagFilterFolds(fold, q, tags);
      assert StoredTags(tags) && q !in tags && LikeUnder(fold, TagPattern(q), JsonText(tags));
    } else {
      var other := OtherCase(fold, q);
      var tags := [other];
      TagFilterFolds(fold, q, tags);
      assert FoldedAll(fold, tags)[0] == Folded(fold, q);
      assert StoredTags(tags) && q !in tags && LikeUnder(fold, TagPattern(q), JsonText(tags));
    }
  }

  // ---------- A backend that compares case ----------

  lemma SameFold()
    ensures TextFold(Same)
    ensures forall s :: Folded(Same, s) == s && Caseless(Same, s)
    ensures forall tags :: FoldedAll(Same, tags) == tags
  {
  }

  /** So there a query is exact unless it names valid, distinct elements in a row (or is `, `). */
  lemma CaseSensitiveExactIff(q: string)
    ensures (forall tags :: StoredTags(tags) ==> (Like(TagPattern(q), JsonText(tags)) <==> q in tags)) <==>
            !Seam(Same, q)
    ensures Seam(Same, q) <==> Joins(q, false) || (Joins(q, true) && !QuoteFree(q))
    ensures ValidTag(q) ==> !Seam(Same, q)
  {
    SameFold();
    TagExactIff(Same, q);
    if ValidTag(q) {
      SeamIsNoTag(Same, q);
    }
    assert forall tagNext :: Spellable(Same, Named(q, tagNext)) <==> Distinct(Named(q, tagNext)) by {
      forall tagNext: bool
        ensures Spellable(Same, Named(q, tagNext)) <==> Distinct(Named(q, tagNext))
      {
        assert FoldedAll(Same, Named(q, tagNext)) == Named(q, tagNext);
      }
    }
  }

  predicate Joins(q: string, tagNext: bool) {
    Separated(q, tagNext) && StoredTags(Named(q, tagNext)) && Room(q, tagNext) <= MAX_TAGS
  }

  // ---------- SQLite ----------

  predicate Letter(c: char) {
    'A' <= c <= 'Z' || 'a' <= c <= 'z'
  }

  predicate Letterless(s: string) {
    forall i :: 0 <= i < |s| ==> !Letter(s[i])
  }

  /** SQLite's LIKE: every ASCII letter has another case, and nothing else has. */
  lemma LowerFold()
    ensures TextFold(LowerChar)
    ensures forall c :: Alone(LowerChar, c) <==> !Letter(c)
    ensures forall s :: Caseless(LowerChar, s) <==> Letterless(s)
  {
    forall c: char
      ensures Alone(LowerChar, c) <==> !Letter(c)
    {
      if 'A' <= c <= 'Z' {
        assert LowerChar(LowerChar(c)) == LowerChar(c) && LowerChar(c) != c;
      } else if 'a' <= c <= 'z' {
        var upper := (c as int - 32) as char;
        assert LowerChar(upper) == c && upper != c;
      }
    }
  }

  /** Prefix "A" selects the key "a", and tag "A" the list that holds "a". */
  lemma SqliteSelectsOtherCase()
    ensures LikeUnder(LowerChar, PrefixPattern("A"), "a") && !("A" <= "a")
    ensures LikeUnder(LowerChar, TagPattern("A"), JsonText(["a"])) && "A" !in ["a"]
  {
    LowerFold();
    assert Folded(LowerChar, "A") == "a" == Folded(LowerChar, "a");
    PrefixFilterFolds(LowerChar, "A", "a");
    assert FoldedAll(LowerChar, ["a"])[0] == "a";
    TagFilterFolds(LowerChar, "A", ["a"]);
  }
}
