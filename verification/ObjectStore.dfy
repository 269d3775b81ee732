/** The in-memory object store: a map from keys to byte strings, with streaming in and out. */
module ObjectStore {
  import opened Prelude

  /** What the store's string keys stand for (`ChunkKeys` proves the strings tell them apart). */
  datatype Key = FileKey(id: string) | ChunkKey(session: string, offset: nat)

  class MemoryObjectStore {
    var blobs: map<Key, Bytes>

    constructor ()
      ensures blobs == map[]
    {
      blobs := map[];
    }

    method Put(k: Key, data: Bytes)
      modifies this
      ensures blobs == old(blobs)[k := data]
    {
      blobs := blobs[k := data];
    }

    method Get(k: Key) returns (r: Result<Bytes>)
      ensures r == if k in blobs then Ok(blobs[k]) else Err(Storage)
    {
      r := if k in blobs then Ok(blobs[k]) else Err(Storage);
    }

    method Delete(k: Key)
      modifies this
      ensures blobs == old(blobs) - {k}
    {
      blobs := blobs - {k};
    }

    /** Empty pieces are dropped; the blob is the concatenation of the rest. */
    method PutStream(k: Key, pieces: seq<Bytes>)
      modifies this
      ensures blobs == old(blobs)[k := Join(pieces)]
    {
      var data := [];
      var i := 0;
      while i < |pieces|
        invariant 0 <= i <= |pieces|
        invariant data == Join(pieces[..i]) && blobs == old(blobs)
      {
        assert pieces[..i + 1] == pieces[..i] + [pieces[i]];
        JoinAppend(pieces[..i], pieces[i]);
        if pieces[i] != [] {
          data := data + pieces[i];
        }
        i := i + 1;
      }
      assert pieces[..i] == pieces;
      blobs := blobs[k := data];
    }

    /** The slices a reader is handed: full ones, then the remainder, never an empty one. */
    method GetStream(k: Key, chunkSize: nat) returns (r: Result<seq<Bytes>>)
      requires 0 < chunkSize
      ensures r.Ok? <==> k in blobs
      ensures r.Ok? ==> Join(r.value) == blobs[k] && Slices(r.value, chunkSize)
      ensures r.Err? ==> r.error == Storage
    {
      if k !in blobs {
        return Err(Storage);
      }
      var data, pieces, offset := blobs[k], [], 0;
      while offset < |data|
        invariant 0 <= offset <= |data|
        invariant Join(pieces) == data[..offset]
        invariant Slices(pieces, chunkSize)
        invariant offset < |data| ==> forall i :: 0 <= i < |pieces| ==> |pieces[i]| == chunkSize
      {
        var end := if offset + chunkSize < |data| then offset + chunkSize else |data|;
        JoinAppend(pieces, data[offset..end]);
        assert data[..end] == data[..offset] + data[offset..end];
        pieces := pieces + [data[offset..end]];
        offset := end;
      }
      assert data[..offset] == data;
      r := Ok(pieces);
    }
  }

  ghost predicate Slices(pieces: seq<Bytes>, chunkSize: nat) {
    && (forall i :: 0 <= i < |pieces| ==> 0 < |pieces[i]| <= chunkSize)
    && (forall i :: 0 <= i < |pieces| - 1 ==> |pieces[i]| == chunkSize)
  }
}

/** The strings behind the keys: `{session}__chunk__{offset:020d}` beside bare file ids. */
module ChunkKeys {
  import opened ObjectStore

  const MARK := "__chunk__"

  /** Session and file ids are UUIDs, so they hold no underscore. */
  predicate PlainId(id: string) {
    forall i :: 0 <= i < |id| ==> id[i] != '_'
  }

  predicate Renderable(k: Key) {
    match k
    case FileKey(id) => PlainId(id)
    case ChunkKey(session, _) => PlainId(session)
  }

  function Digit(n: nat): char
    requires n < 10
  {
    "0123456789"[n]
  }

  function Digits(n: nat): string {
    if n < 10 then [Digit(n)] else Digits(n / 10) + [Digit(n % 10)]
  }

  function Zeros(n: nat): string {
    if n == 0 then "" else "0" + Zeros(n - 1)
  }

  /** `f"{n:020d}"`: at least twenty digits, more when the number needs them. */
  function Padded(n: nat): string {
    var d := Digits(n);
    if |d| < 20 then Zeros(20 - |d|) + d else d
  }

  function Render(k: Key): string {
    match k
    case FileKey(id) => id
    case ChunkKey(session, offset) => session + MARK + Padded(offset)
  }

  /** `int(text)` of a digit string. */
  function ParseInt(text: string): nat {
    if text == "" then 0
    else 10 * ParseInt(text[..|text| - 1]) + DigitValue(text[|text| - 1])
  }

  function DigitValue(c: char): nat {
    if '0' <= c <= '9' then (c as int) - ('0' as int) else 0
  }

  /** `text.split("__chunk__")[1]` of a text whose tail holds no second mark. */
  function AfterMark(text: string): string {
    if |text| < |MARK| then "" else if MARK <= text then text[|MARK|..] else AfterMark(text[1..])
  }

  lemma {:induction false} ParseDigits(n: nat)
    ensures ParseInt(Digits(n)) == n
  {
    if n < 10 {
    } else {
      ParseDigits(n / 10);
      var d := Digits(n);
      assert d[..|d| - 1] == Digits(n / 10);
    }
  }

  lemma {:induction false} ParseZeros(n: nat, d: string)
    ensures ParseInt(Zeros(n) + d) == ParseInt(d)
    decreases n + |d|
  {
    var t := Zeros(n) + d;
    if d != "" {
      assert t[..|t| - 1] == Zeros(n) + d[..|d| - 1];
      ParseZeros(n, d[..|d| - 1]);
    } else if n > 0 {
      ZerosEnd(n);
      assert t[..|t| - 1] == Zeros(n - 1) + "";
      ParseZeros(n - 1, "");
    }
  }

  lemma {:induction false} ZerosEnd(n: nat)
    requires n > 0
    ensures Zeros(n) == Zeros(n - 1) + "0"
  {
    if n <= 1 {
    } else {
      ZerosEnd(n - 1);
    }
  }

  lemma {:induction false} AfterMarkSkips(session: string, tail: string)
    requires PlainId(session)
    ensures AfterMark(session + MARK + tail) == tail
  {
    var t := session + MARK + tail;
    if session == "" {
      assert t == MARK + tail;
    } else {
      assert t[0] == session[0] != '_';
      assert t[1..] == session[1..] + MARK + tail;
      AfterMarkSkips(session[1..], tail);
    }
  }

  lemma ParsesBack(session: string, offset: nat)
    requires PlainId(session)
    ensures ParseInt(AfterMark(session + MARK + Padded(offset))) == offset
  {
    AfterMarkSkips(session, Padded(offset));
    ParseDigits(offset);
    var d := Digits(offset);
    if |d| < 20 {
      ParseZeros(20 - |d|, d);
    }
  }

  /** An id without underscores ends where the mark begins. */
  lemma SamePrefix(a: string, b: string, tail: string)
    requires PlainId(a) && PlainId(b) && a + MARK <= b + MARK + tail
    ensures a == b
  {
    var text, prefix := b + MARK + tail, a + MARK;
    assert prefix[|a|] == '_' && text[|b|] == '_';
    assert forall i :: 0 <= i < |a| ==> prefix[i] == a[i] == text[i];
    assert forall i :: 0 <= i < |b| ==> text[i] == b[i];
    assert |a| == |b|;
    assert a == text[..|a|] == b;
  }

  /** Listing by the prefix finds exactly this session's chunks, and the offset parses back. */
  lemma PrefixSelectsSession(k: Key, session: string)
    requires Renderable(k) && PlainId(session)
    ensures session + MARK <= Render(k) <==> k.ChunkKey? && k.session == session
    ensures k.ChunkKey? ==> ParseInt(AfterMark(Render(k))) == k.offset
  {
    var text, prefix := Render(k), session + MARK;
    if k.ChunkKey? {
      ParsesBack(k.session, k.offset);
      assert text == k.session + MARK + Padded(k.offset);
      if prefix <= text {
        SamePrefix(session, k.session, Padded(k.offset));
      }
    } else {
      assert prefix[|session|] == '_';
    }
  }

  /** Distinct keys have distinct strings: no chunk overwrites another chunk or a file. */
  lemma RenderInjective(a: Key, b: Key)
    requires Renderable(a) && Renderable(b) && Render(a) == Render(b)
    ensures a == b
  {
    if a.ChunkKey? {
      PrefixSelectsSession(a, a.session);
      PrefixSelectsSession(b, a.session);
    } else if b.ChunkKey? {
      PrefixSelectsSession(a, b.session);
      PrefixSelectsSession(b, b.session);
    }
  }
}
