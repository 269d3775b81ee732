/** SQL LIKE patterns of the SQLAlchemy repository: the escaping helper, the key-prefix and
    search patterns, and the quoted-element pattern that selects rows by tag. */
module LikePatterns {
  import opened Prelude

  // ---------- The two helpers, as the source writes them ----------

  /** `raw.replace(c, w)` for a one-character `c`. */
  function Replace(raw: string, c: char, w: string): string {
    if raw == "" then "" else (if raw[0] == c then w else raw[..1]) + Replace(raw[1..], c, w)
  }

  function LikeEscape(raw: string): string {
    Replace(Replace(Replace(raw, '\\', "\\\\"), '%', "\\%"), '_', "\\_")
  }

  function TagPattern(tag: string): string {
    "%\"" + LikeEscape(tag) + "\"%"
  }

  function PrefixPattern(prefix: string): string {
    LikeEscape(prefix) + "%"
  }

  function SearchPattern(query: string): string {
    "%" + LikeEscape(query) + "%"
  }

  // ---------- LIKE with ESCAPE '\' (section 8.5 of ISO/IEC 9075-2:2003) ----------

  /** Case-sensitive LIKE; `LikeFolds` has backends that fold case. A backslash takes the next pattern
      character literally; a pattern that ends in a lone backslash, or escapes an ordinary character, is
      a data exception there and matches nothing here (`WellFormed` tells it apart). */
  predicate Like(p: string, s: string)
    decreases |p| + |s|
  {
    if p == "" then s == ""
    else if p[0] == '%' then Like(p[1..], s) || (s != "" && Like(p, s[1..]))
    else if s == "" then false
    else if p[0] == '_' then Like(p[1..], s[1..])
    else if p[0] == '\\' then |p| > 1 && Special(p[1]) && p[1] == s[0] && Like(p[2..], s[1..])
    else p[0] == s[0] && Like(p[1..], s[1..])
  }

  predicate Special(c: char) {
    c == '\\' || c == '%' || c == '_'
  }

  predicate WellFormed(p: string) {
    p == "" ||
    if p[0] == '\\' then |p| > 1 && Special(p[1]) && WellFormed(p[2..]) else WellFormed(p[1..])
  }

  // ---------- Three replacements are one pass ----------

  function EscapeChar(c: char): string {
    if Special(c) then ['\\', c] else [c]
  }

  function EscapeOnePass(raw: string): string {
    if raw == "" then "" else EscapeChar(raw[0]) + EscapeOnePass(raw[1..])
  }

  lemma {:induction false} ReplaceAppend(a: string, b: string, c: char, w: string)
    ensures Replace(a + b, c, w) == Replace(a, c, w) + Replace(b, c, w)
  {
    if a == "" {
      assert a + b == b;
    } else {
      assert (a + b)[..1] == a[..1] && (a + b)[1..] == a[1..] + b;
      ReplaceAppend(a[1..], b, c, w);
      var first := if a[0] == c then w else a[..1];
      assert Replace(a + b, c, w) == first + Replace(a[1..] + b, c, w);
    }
  }

  lemma ReplaceTwo(x: char, y: char, c: char, w: string)
    ensures Replace([x, y], c, w) == Replace([x], c, w) + Replace([y], c, w)
  {
    assert [x, y] == [x] + [y];
    ReplaceAppend([x], [y], c, w);
  }

  lemma EscapeOneChar(c: char)
    ensures LikeEscape([c]) == EscapeChar(c)
  {
    assert Replace([c], '\\', "\\\\") == if c == '\\' then "\\\\" else [c];
    if c == '\\' {
      ReplaceTwo(c, c, '%', "\\%");
      ReplaceTwo(c, c, '_', "\\_");
    } else if c == '%' {
      ReplaceTwo('\\', c, '_', "\\_");
    }
  }

  /** The three successive replacements do not disturb each other. */
  lemma {:induction false} EscapeIsOnePass(raw: string)
    ensures LikeEscape(raw) == EscapeOnePass(raw)
  {
    if raw == "" {
    } else {
      var head, tail := raw[..1], raw[1..];
      assert raw == head + tail && head == [raw[0]];
      var r1, t1 := Replace(head, '\\', "\\\\"), Replace(tail, '\\', "\\\\");
      ReplaceAppend(head, tail, '\\', "\\\\");
      ReplaceAppend(r1, t1, '%', "\\%");
      ReplaceAppend(Replace(r1, '%', "\\%"), Replace(t1, '%', "\\%"), '_', "\\_");
      EscapeOneChar(raw[0]);
      EscapeIsOnePass(tail);
    }
  }

  lemma EscapedCharWellFormed(c: char, p: string)
    requires WellFormed(p)
    ensures WellFormed(EscapeChar(c) + p)
  {
    assert (EscapeChar(c) + p)[|EscapeChar(c)|..] == p;
  }

  lemma {:induction false} OnePassWellFormed(raw: string, rest: string)
    requires WellFormed(rest)
    ensures WellFormed(EscapeOnePass(raw) + rest)
  {
    if raw == "" {
      assert EscapeOnePass(raw) + rest == rest;
    } else {
      var more := EscapeOnePass(raw[1..]) + rest;
      OnePassWellFormed(raw[1..], rest);
      EscapedCharWellFormed(raw[0], more);
      assert EscapeOnePass(raw) + rest == EscapeChar(raw[0]) + more;
    }
  }

  /** No escaped text raises the escape-sequence data exception, whatever follows it. */
  lemma EscapeWellFormed(raw: string, rest: string)
    requires WellFormed(rest)
    ensures WellFormed(LikeEscape(raw) + rest)
  {
    EscapeIsOnePass(raw);
    OnePassWellFormed(raw, rest);
  }

  // ---------- Escaped text is literal ----------

  /** An escaped prefix of a pattern consumes exactly its own text. */
  lemma {:induction false} EscapedConsumesText(raw: string, rest: string, s: string)
    ensures Like(LikeEscape(raw) + rest, s) <==> raw <= s && Like(rest, s[|raw|..])
  {
    EscapeIsOnePass(raw);
    if raw == "" {
      assert LikeEscape(raw) + rest == rest && s[0..] == s;
    } else {
      EscapeIsOnePass(raw[1..]);
      var p := EscapeOnePass(raw) + rest;
      var k := |EscapeChar(raw[0])|;
      assert p[k..] == EscapeOnePass(raw[1..]) + rest;
      if s != "" {
        EscapedConsumesText(raw[1..], rest, s[1..]);
        assert raw <= s <==> raw[0] == s[0] && raw[1..] <= s[1..];
        if raw <= s {
          assert s[1..][|raw| - 1..] == s[|raw|..];
        }
      }
    }
  }

  lemma {:induction false} PercentMatchesAll(s: string)
    ensures Like("%", s)
  {
    if s == "" {
    } else {
      PercentMatchesAll(s[1..]);
    }
  }

  /** A leading % tries every suffix of the text. */
  lemma {:induction false} PercentTriesSuffixes(rest: string, s: string)
    ensures Like("%" + rest, s) <==> exists i :: 0 <= i <= |s| && Like(rest, s[i..])
  {
    var p := "%" + rest;
    assert p[1..] == rest && s[0..] == s;
    if s == "" {
    } else {
      PercentTriesSuffixes(rest, s[1..]);
      if Like(p, s[1..]) {
        var j :| 0 <= j <= |s[1..]| && Like(rest, s[1..][j..]);
        assert s[1..][j..] == s[j + 1..];
      }
      if i :| 1 <= i <= |s| && Like(rest, s[i..]) {
        assert s[1..][i - 1..] == s[i..];
      }
    }
  }

  /** The key-prefix filter is `startswith`, wildcards in the prefix included. */
  lemma PrefixFilterExact(prefix: string, key: string)
    ensures WellFormed(PrefixPattern(prefix))
    ensures Like(PrefixPattern(prefix), key) <==> prefix <= key
  {
    EscapeWellFormed(prefix, "%");
    EscapedConsumesText(prefix, "%", key);
    if prefix <= key {
      PercentMatchesAll(key[|prefix|..]);
    }
  }

  ghost predicate Occurs(q: string, s: string) {
    exists i :: OccursAt(q, s, i)
  }

  predicate OccursAt(q: string, s: string, i: int) {
    0 <= i <= |s| && q <= s[i..]
  }

  /** The search filter is plain substring search, wildcards in the query included. */
  lemma SearchFilterExact(q: string, s: string)
    ensures WellFormed(SearchPattern(q))
    ensures Like(SearchPattern(q), s) <==> Occurs(q, s)
  {
    var rest := LikeEscape(q) + "%";
    EscapeWellFormed(q, "%");
    assert SearchPattern(q) == "%" + rest;
    PercentTriesSuffixes(rest, s);
    forall i | 0 <= i <= |s|
      ensures Like(rest, s[i..]) <==> OccursAt(q, s, i)
    {
      EscapedConsumesText(q, "%", s[i..]);
      if q <= s[i..] {
        PercentMatchesAll(s[i..][|q|..]);
      }
    }
    if Like(SearchPattern(q), s) {
      var i :| 0 <= i <= |s| && Like(rest, s[i..]);
      assert OccursAt(q, s, i);
    }
  }

  // ---------- Tag filters on the JSON text of a tag list ----------

  predicate TagChar(c: char) {
    'A' <= c <= 'Z' || 'a' <= c <= 'z' || '0' <= c <= '9' || c == '.' || c == '_' || c == '-'
  }

  /** What `validate_tags` lets into a stored row. */
  predicate ValidTag(tag: string) {
    0 < |tag| <= 64 && forall i :: 0 <= i < |tag| ==> TagChar(tag[i])
  }

  predicate QuoteFree(q: string) {
    forall i :: 0 <= i < |q| ==> q[i] != '"'
  }

  /** `json.dumps` of a list of strings that need no JSON escapes. */
  function JsonText(tags: seq<string>): string {
    "[" + Elements(tags) + "]"
  }

  function Elements(tags: seq<string>): string {
    if tags == [] then ""
    else if |tags| == 1 then Quoted(tags[0])
    else Quoted(tags[0]) + ", " + Elements(tags[1..])
  }

  function Quoted(q: string): string {
    "\"" + q + "\""
  }

  predicate ValidTags(tags: seq<string>) {
    forall i :: 0 <= i < |tags| ==> ValidTag(tags[i])
  }

  /** The first element's text has a quote at its two ends only. */
  lemma OccursAtQuote(q: string, t: string, after: string, i: int)
    requires QuoteFree(t) && OccursAt(Quoted(q), "\"" + (t + ("\"" + after)), i)
    ensures i == 0 || i > |t|
  {
    var text := "\"" + (t + ("\"" + after));
    assert text[i] == text[i..][0] == '"';
    assert forall m :: 0 < m <= |t| ==> text[m] == t[m - 1];
  }

  lemma OccursInTail(n: string, a: string, b: string, i: int)
    requires |a| <= i
    ensures OccursAt(n, a + b, i) <==> OccursAt(n, b, i - |a|)
  {
    if i <= |a + b| {
      assert (a + b)[i..] == b[i - |a|..];
    }
  }

  lemma QuotedInBrackets(q: string, e: string)
    ensures Occurs(Quoted(q), "[" + e + "]") <==> Occurs(Quoted(q), e)
  {
    var n, text := Quoted(q), "[" + e + "]";
    if i :| OccursAt(n, e, i) {
      assert text[i + 1..] == e[i..] + "]";
      assert OccursAt(n, text, i + 1);
    }
    if i :| OccursAt(n, text, i) {
      assert text[i..][0] == text[i] && text[i..][|n| - 1] == text[i + |n| - 1] == '"';
      assert i >= 1 && i + |n| <= |e| + 1;
      assert text[i..] == e[i - 1..] + "]";
      assert OccursAt(n, e, i - 1);
    }
  }

  /** Quotes are not LIKE characters, so escaping the quoted needle escapes the tag alone. */
  lemma EscapeTagQuotes(q: string)
    ensures LikeEscape(Quoted(q)) == "\"" + LikeEscape(q) + "\""
  {
    EscapeIsOnePass(q);
    EscapeIsOnePass(Quoted(q));
    OnePassAppend(q, "\"");
    assert Quoted(q)[1..] == q + "\"";
  }

  lemma {:induction false} OnePassAppend(a: string, b: string)
    ensures EscapeOnePass(a + b) == EscapeOnePass(a) + EscapeOnePass(b)
  {
    if a == "" {
      assert a + b == b;
    } else {
      assert (a + b)[1..] == a[1..] + b;
      OnePassAppend(a[1..], b);
    }
  }

  // ---------- Reading a query off the text of a list ----------

  /** Where the first quote of `q` is, or its end. */
  function FirstQuote(q: string): (c: nat)
    ensures c <= |q| && (c < |q| ==> q[c] == '"') && forall m :: 0 <= m < c ==> q[m] != '"'
  {
    if q == "" || q[0] == '"' then 0 else 1 + FirstQuote(q[1..])
  }

  /** From an element's opening quote on, cut at its quotes, `q` is that element, the separator, the
      next element, and so on. */
  predicate ReadsTag(q: string, tags: seq<string>)
    requires tags != []
    decreases |q|
  {
    var c := FirstQuote(q);
    q[..c] == tags[0] && (c < |q| ==> ReadsSeparator(q[c + 1..], tags[1..]))
  }

  /** The same from a closing quote on, before `tags`. */
  predicate ReadsSeparator(q: string, tags: seq<string>)
    decreases |q|
  {
    var c := FirstQuote(q);
    tags != [] && q[..c] == ", " && (c < |q| ==> ReadsTag(q[c + 1..], tags))
  }

  /** The query can be read off some place in the list. */
  predicate Selected(q: string, tags: seq<string>) {
    tags != [] && (ReadsTag(q, tags) || ReadsSeparator(q, tags[1..]) || Selected(q, tags[1..]))
  }

  /** The text after a closing quote that comes before `tags`, and after the opening quote of the first. */
  function AfterTag(tags: seq<string>): string {
    if tags == [] then "" else ", " + Elements(tags)
  }

  function FromTag(tags: seq<string>): string
    requires tags != []
  {
    tags[0] + ("\"" + AfterTag(tags[1..]))
  }

  lemma QuotedThen(t: string, rest: string)
    ensures Quoted(t) + rest == "\"" + (t + ("\"" + rest))
  {
  }

  lemma ElementsFromTag(tags: seq<string>)
    requires tags != []
    ensures Elements(tags) == "\"" + FromTag(tags)
  {
    QuotedThen(tags[0], AfterTag(tags[1..]));
    if |tags| == 1 {
      assert Quoted(tags[0]) + "" == Quoted(tags[0]);
    } else {
      assert Quoted(tags[0]) + (", " + Elements(tags[1..])) == Quoted(tags[0]) + ", " + Elements(tags[1..]);
    }
  }

  lemma TagQuoteFree(t: string)
    requires ValidTag(t)
    ensures QuoteFree(t)
  {
    assert forall m :: 0 <= m < |t| ==> TagChar(t[m]);
  }

  /** Where one text, closed by a quote, is a prefix of another, they agree up to their first quotes. */
  lemma {:induction false} SamePiece(q: string, piece: string, rest: string)
    requires QuoteFree(piece) && q + "\"" <= piece + ("\"" + rest)
    ensures FirstQuote(q) == |piece| <= |q| && q[..|piece|] == piece
    ensures |piece| < |q| ==> q[|piece| + 1..] + "\"" <= rest
    decreases |piece|
  {
    var l, r := q + "\"", piece + ("\"" + rest);
    assert l[0] == r[0];
    assert l[1..] <= r[1..];
    if piece == "" {
      assert r[1..] == rest;
      if q != "" {
        assert l[1..] == q[1..] + "\"";
      }
    } else {
      assert q != "" && q[0] == piece[0];
      assert l[1..] == q[1..] + "\"" && r[1..] == piece[1..] + ("\"" + rest);
      SamePiece(q[1..], piece[1..], rest);
      assert q == [q[0]] + q[1..] && piece == [piece[0]] + piece[1..];
      assert |piece| < |q| ==> q[|piece| + 1..] == q[1..][|piece|..];
    }
  }

  lemma JoinParts(a: string, b: string, rest: string)
    requires b + "\"" <= rest
    ensures a + ("\"" + b) + "\"" <= a + ("\"" + rest)
  {
    var more := rest[|b| + 1..];
    assert rest == b + "\"" + more;
    assert a + ("\"" + rest) == (a + ("\"" + b) + "\"") + more;
  }

  /** Conversely, a text is read off its first piece and what follows its first quote. */
  lemma JoinPiece(q: string, c: nat, rest: string)
    requires c <= |q| && (c < |q| ==> q[c] == '"' && q[c + 1..] + "\"" <= rest)
    ensures q + "\"" <= q[..c] + ("\"" + rest)
  {
    var a := q[..c];
    if c < |q| {
      var b := q[c + 1..];
      assert q == a + ("\"" + b);
      JoinParts(a, b, rest);
    } else {
      assert q == a;
      assert a + ("\"" + rest) == (a + "\"") + rest;
    }
  }

  lemma {:induction false} ReadsTagIff(q: string, tags: seq<string>)
    requires ValidTags(tags) && tags != []
    ensures ReadsTag(q, tags) <==> q + "\"" <= FromTag(tags)
    decreases |q|
  {
    var c, t, rest := FirstQuote(q), tags[0], AfterTag(tags[1..]);
    TagQuoteFree(t);
    if c < |q| {
      ReadsSeparatorIff(q[c + 1..], tags[1..]);
    }
    if q + "\"" <= FromTag(tags) {
      SamePiece(q, t, rest);
    }
    if ReadsTag(q, tags) {
      JoinPiece(q, c, rest);
    }
  }

  lemma {:induction false} ReadsSeparatorIff(q: string, tags: seq<string>)
    requires ValidTags(tags)
    ensures ReadsSeparator(q, tags) <==> q + "\"" <= AfterTag(tags)
    decreases |q|
  {
    if tags == [] {
    } else {
      var c, rest := FirstQuote(q), FromTag(tags);
      ElementsFromTag(tags);
      assert AfterTag(tags) == ", " + ("\"" + rest);
      if c < |q| {
        ReadsTagIff(q[c + 1..], tags);
      }
      if q + "\"" <= ", " + ("\"" + rest) {
        SamePiece(q, ", ", rest);
      }
      if ReadsSeparator(q, tags) {
        JoinPiece(q, c, rest);
      }
    }
  }

  lemma DropQuote(q: string, rest: string)
    ensures Quoted(q) <= "\"" + rest <==> q + "\"" <= rest
  {
    assert Quoted(q) == "\"" + (q + "\"");
    assert Quoted(q)[1..] == q + "\"" && ("\"" + rest)[1..] == rest;
  }

  lemma ClosingQuote(t: string, after: string)
    ensures ("\"" + (t + ("\"" + after)))[|t| + 1..] == "\"" + after
  {
  }

  lemma OccursAtHead(q: string, tags: seq<string>)
    requires ValidTags(tags) && tags != []
    ensures OccursAt(Quoted(q), Elements(tags), 0) <==> ReadsTag(q, tags)
    ensures OccursAt(Quoted(q), Elements(tags), |tags[0]| + 1) <==> ReadsSeparator(q, tags[1..])
  {
    var text, after := Elements(tags), AfterTag(tags[1..]);
    ElementsFromTag(tags);
    assert text[0..] == text;
    DropQuote(q, FromTag(tags));
    ReadsTagIff(q, tags);
    ClosingQuote(tags[0], after);
    DropQuote(q, after);
    ReadsSeparatorIff(q, tags[1..]);
  }

  /** An occurrence that starts past the first element starts in a later one. */
  lemma OccursPast(q: string, tags: seq<string>, i: int)
    requires tags != [] && i > |tags[0]| + 1
    ensures OccursAt(Quoted(q), Elements(tags), i) <==>
              |tags| > 1 && OccursAt(Quoted(q), Elements(tags[1..]), i - (|tags[0]| + 4))
  {
    var n, text := Quoted(q), Elements(tags);
    if |tags| > 1 {
      var head, rest := Quoted(tags[0]) + ", ", Elements(tags[1..]);
      assert text == head + rest && head[|head| - 2] == ',' && head[|head| - 1] == ' ';
      if i < |head| {
        assert text[i..][0] == text[i] == head[i] != '"';
      } else {
        OccursInTail(n, head, rest, i);
      }
    }
  }

  /** The quoted query occurs in the text of a list exactly where it can be read off it. */
  lemma {:induction false} OccursIffSelected(q: string, tags: seq<string>)
    requires ValidTags(tags)
    ensures Occurs(Quoted(q), Elements(tags)) <==> Selected(q, tags)
  {
    var n, text := Quoted(q), Elements(tags);
    if tags == [] {
      assert forall i :: !OccursAt(n, "", i);
    } else {
      var t, rest := tags[0], Elements(tags[1..]);
      OccursAtHead(q, tags);
      OccursIffSelected(q, tags[1..]);
      if i :| OccursAt(n, text, i) {
        TagQuoteFree(t);
        ElementsFromTag(tags);
        OccursAtQuote(q, t, AfterTag(tags[1..]), i);
        if i > |t| + 1 {
          OccursPast(q, tags, i);
        }
      }
      if i :| OccursAt(n, rest, i) {
        OccursPast(q, tags, i + |t| + 4);
        assert OccursAt(n, text, i + |t| + 4);
      }
    }
  }

  /** A query without quotes can only be read off one element, or off a separator. */
  lemma {:induction false} PlainSelected(q: string, tags: seq<string>)
    requires QuoteFree(q)
    ensures Selected(q, tags) <==> q in tags || (q == ", " && |tags| >= 2)
  {
    assert FirstQuote(q) == |q| && q[..|q|] == q;
    if tags == [] {
    } else {
      PlainSelected(q, tags[1..]);
      assert q in tags <==> q == tags[0] || q in tags[1..];
    }
  }

  /** What the tag filter selects, for every query: the lists it can be read off; for a query without
      quotes, those that hold it, or any two elements if it is the separator. */
  lemma TagFilterSelects(q: string, tags: seq<string>)
    requires ValidTags(tags)
    ensures Like(TagPattern(q), JsonText(tags)) <==> Selected(q, tags)
    ensures QuoteFree(q) ==> (Selected(q, tags) <==> q in tags || (q == ", " && |tags| >= 2))
  {
    EscapeTagQuotes(q);
    assert TagPattern(q) == SearchPattern(Quoted(q));
    SearchFilterExact(Quoted(q), JsonText(tags));
    QuotedInBrackets(q, Elements(tags));
    OccursIffSelected(q, tags);
    if QuoteFree(q) {
      PlainSelected(q, tags);
    }
  }

  // ---------- What a query that is read off a list names ----------

  const MAX_TAGS := 50

  /** What `normalize_tags` and `validate_tags` leave in a row. */
  predicate StoredTags(tags: seq<string>) {
    ValidTags(tags) && Distinct(tags) && |tags| <= MAX_TAGS
  }

  /** Cut at its quotes, every other piece of the text is the separator. */
  predicate Separated(q: string, tagNext: bool)
    decreases |q|
  {
    var c := FirstQuote(q);
    (!tagNext ==> q[..c] == ", ") && (c < |q| ==> Separated(q[c + 1..], !tagNext))
  }

  /** The pieces between separators. */
  function Named(q: string, tagNext: bool): seq<string>
    decreases |q|
  {
    var c := FirstQuote(q);
    (if tagNext then [q[..c]] else []) + (if c < |q| then Named(q[c + 1..], !tagNext) else [])
  }

  /** Its last piece is a separator, so an element has to follow. */
  predicate EndsOpen(q: string, tagNext: bool)
    decreases |q|
  {
    var c := FirstQuote(q);
    if c < |q| then EndsOpen(q[c + 1..], !tagNext) else !tagNext
  }

  /** The elements a list needs for the text to be read off it. */
  function Room(q: string, tagNext: bool): nat {
    (if tagNext then 0 else 1) + |Named(q, tagNext)| + (if EndsOpen(q, tagNext) then 1 else 0)
  }

  lemma QuoteFreeWhole(q: string)
    ensures QuoteFree(q) <==> FirstQuote(q) == |q|
    ensures q[..|q|] == q
  {
  }

  predicate BeginsWith(tags: seq<string>, named: seq<string>, open: bool) {
    named <= tags && (open ==> |named| < |tags|)
  }

  lemma BeginsWithTail(tags: seq<string>, first: string, named: seq<string>, open: bool)
    requires tags != []
    ensures BeginsWith(tags, [first] + named, open) <==> first == tags[0] && BeginsWith(tags[1..], named, open)
  {
    if BeginsWith(tags, [first] + named, open) {
      assert tags == ([first] + named) + tags[|named| + 1..];
      assert tags[1..] == named + tags[|named| + 1..];
    }
    if first == tags[0] && BeginsWith(tags[1..], named, open) {
      assert tags == [first] + tags[1..];
    }
  }

  /** Reading a text off a list is beginning with the elements it names. */
  lemma {:induction false} ReadsTagNamed(q: string, tags: seq<string>)
    requires tags != []
    ensures ReadsTag(q, tags) <==> Separated(q, true) && BeginsWith(tags, Named(q, true), EndsOpen(q, true))
    decreases |q|
  {
    var c := FirstQuote(q);
    if c < |q| {
      var more := q[c + 1..];
      ReadsSeparatorNamed(more, tags[1..]);
      BeginsWithTail(tags, q[..c], Named(more, false), EndsOpen(more, false));
    } else {
      BeginsWithTail(tags, q[..c], [], false);
      assert [q[..c]] + [] == [q[..c]];
    }
  }

  lemma {:induction false} ReadsSeparatorNamed(q: string, tags: seq<string>)
    ensures ReadsSeparator(q, tags) <==> Separated(q, false) && BeginsWith(tags, Named(q, false), EndsOpen(q, false))
    decreases |q|
  {
    var c := FirstQuote(q);
    if c < |q| {
      var more := q[c + 1..];
      assert [] + Named(more, true) == Named(more, true) != [];
      if tags != [] {
        ReadsTagNamed(more, tags);
      }
    }
  }

  /** Some length that no element has. */
  lemma {:induction false} FreshLength(used: seq<string>, n: nat) returns (k: nat)
    ensures n <= k <= n + |used| && forall t :: t in used ==> |t| != k
    decreases |used|
  {
    if i :| 0 <= i < |used| && |used[i]| == n {
      var others := used[..i] + used[i + 1..];
      k := FreshLength(others, n + 1);
      assert forall t :: t in used ==> t == used[i] || t in others;
    } else {
      k := n;
    }
  }

  /** A list with room is extended by an element it does not have. */
  lemma AddFresh(tags: seq<string>) returns (t: string)
    requires StoredTags(tags) && |tags| < MAX_TAGS
    ensures StoredTags(tags + [t]) && StoredTags([t] + tags)
  {
    var k := FreshLength(tags, 1);
    t := seq(k, i => 'a');
  }
}
