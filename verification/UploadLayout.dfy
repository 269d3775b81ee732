/** The chunks of one upload session, as a map from offset to bytes: the greedy walk that meters and
    assembles them, and the sweep that deletes them. */
module UploadLayout {
  import opened Prelude

  type Chunks = map<nat, Bytes>

  datatype Status = Active | Finalizing | Finalized | Expired

  // ---------- The walk from offset 0 ----------

  /** Where the walk stops: at a gap, at an empty chunk, or once it is at or past `total`. */
  function WalkEnd(c: Chunks, total: nat, o: nat): nat
    decreases if o < total then total - o else 0
  {
    if o < total && o in c && c[o] != [] then WalkEnd(c, total, o + |c[o]|) else o
  }

  /** The bytes the walk passes over. */
  function WalkBytes(c: Chunks, total: nat, o: nat): Bytes
    decreases if o < total then total - o else 0
  {
    if o < total && o in c && c[o] != [] then c[o] + WalkBytes(c, total, o + |c[o]|) else []
  }

  /** `session.received_bytes` after a chunk is stored. */
  function Received(c: Chunks, total: nat): nat {
    var end := WalkEnd(c, total, 0);
    if end < total then end else total
  }

  /** The layout finalize accepts from `o`: offsets that tile `[o, total)` exactly. */
  function Layout(c: Chunks, total: nat, o: nat): Result<seq<nat>>
    decreases if o < total then total - o else 0
  {
    if o >= total then Ok([])
    else if o !in c || c[o] == [] || o + |c[o]| > total then Err(InvalidRequest)
    else
      match Layout(c, total, o + |c[o]|)
      case Ok(rest) => Ok([o] + rest)
      case Err(e) => Err(e)
  }

  predicate AllStored(c: Chunks, layout: seq<nat>) {
    forall i :: 0 <= i < |layout| ==> layout[i] in c
  }

  /** What finalize streams for a layout. */
  function Assembled(c: Chunks, layout: seq<nat>): seq<Bytes>
    requires AllStored(c, layout)
  {
    seq(|layout|, i requires 0 <= i < |layout| => c[layout[i]])
  }

  // ---------- What put_chunk lets into a session ----------

  const MIN_CHUNK := 65536
  const MAX_CHUNK := 67108864

  predicate Acceptable(o: nat, data: Bytes, total: nat, chunkSize: nat) {
    && data != []
    && o + |data| <= total
    && (|data| == chunkSize || o + |data| == total)
    && |data| <= MAX_CHUNK
  }

  ghost predicate AllAcceptable(c: Chunks, total: nat, chunkSize: nat) {
    forall o :: o in c ==> Acceptable(o, c[o], total, chunkSize)
  }

  lemma {:induction false} WalkBounds(c: Chunks, total: nat, chunkSize: nat, o: nat)
    requires AllAcceptable(c, total, chunkSize) && o <= total
    ensures o <= WalkEnd(c, total, o) <= total
    ensures |WalkBytes(c, total, o)| == WalkEnd(c, total, o) - o
    decreases total - o
  {
    if o < total && o in c {
      assert Acceptable(o, c[o], total, chunkSize);
      WalkBounds(c, total, chunkSize, o + |c[o]|);
    }
  }

  /** What an accepted layout streams is the walk's bytes, up to `total`. */
  lemma {:induction false} LayoutIsWalk(c: Chunks, total: nat, o: nat)
    requires Layout(c, total, o).Ok? && o <= total
    ensures AllStored(c, Layout(c, total, o).value)
    ensures Join(Assembled(c, Layout(c, total, o).value)) == WalkBytes(c, total, o)
    ensures |WalkBytes(c, total, o)| == total - o
    decreases total - o
  {
    if o >= total {
    } else {
      var next := o + |c[o]|;
      LayoutIsWalk(c, total, next);
      var rest := Layout(c, total, next).value;
      assert Assembled(c, [o] + rest) == [c[o]] + Assembled(c, rest);
    }
  }

  /** Finalize's layout loop succeeds exactly when the meter reads `total`; what it then streams is
      the walk's bytes, all `total` of them. */
  lemma {:induction false} LayoutIffComplete(c: Chunks, total: nat, chunkSize: nat, o: nat)
    requires AllAcceptable(c, total, chunkSize) && o <= total
    ensures Layout(c, total, o).Ok? <==> WalkEnd(c, total, o) == total
    ensures Layout(c, total, o).Ok? ==> AllStored(c, Layout(c, total, o).value)
    ensures Layout(c, total, o).Ok? ==> Join(Assembled(c, Layout(c, total, o).value)) == WalkBytes(c, total, o)
    decreases total - o
  {
    if o < total {
      WalkBounds(c, total, chunkSize, o);
      if o in c {
        assert Acceptable(o, c[o], total, chunkSize);
        LayoutIffComplete(c, total, chunkSize, o + |c[o]|);
      }
    }
    if Layout(c, total, o).Ok? {
      LayoutIsWalk(c, total, o);
    }
  }

  /** The meter, in the terms of finalize: it is the length of the assembled prefix, and it is full
      exactly when finalize would not report a gap. */
  lemma MeterIsWalk(c: Chunks, total: nat, chunkSize: nat)
    requires AllAcceptable(c, total, chunkSize)
    ensures Received(c, total) == |WalkBytes(c, total, 0)| <= total
    ensures Received(c, total) == total <==> Layout(c, total, 0).Ok?
  {
    WalkBounds(c, total, chunkSize, 0);
    LayoutIffComplete(c, total, chunkSize, 0);
  }

  /** Storing a chunk at a free offset only ever extends the walk. */
  lemma {:induction false} PutExtends(c: Chunks, total: nat, o: nat, at: nat, data: Bytes)
    requires at !in c
    ensures WalkEnd(c, total, o) <= WalkEnd(c[at := data], total, o)
    ensures WalkBytes(c, total, o) <= WalkBytes(c[at := data], total, o)
    decreases if o < total then total - o else 0
  {
    if o < total && o in c && c[o] != [] {
      PutExtends(c, total, o + |c[o]|, at, data);
    } else {
      WalkGrows(c[at := data], total, o);
    }
  }

  lemma {:induction false} WalkGrows(c: Chunks, total: nat, o: nat)
    ensures o <= WalkEnd(c, total, o)
    decreases if o < total then total - o else 0
  {
    if o < total && o in c && c[o] != [] {
      WalkGrows(c, total, o + |c[o]|);
    }
  }

  // ---------- Fidelity ----------

  /** Every stored chunk carries the bytes of one string at its own offset. */
  ghost predicate SlicesOf(c: Chunks, d: Bytes) {
    forall o :: o in c ==> o + |c[o]| <= |d| && c[o] == d[o..o + |c[o]|]
  }

  lemma {:induction false} WalkFollows(c: Chunks, d: Bytes, o: nat)
    requires SlicesOf(c, d) && o <= |d|
    ensures o <= WalkEnd(c, |d|, o) <= |d|
    ensures WalkBytes(c, |d|, o) == d[o..WalkEnd(c, |d|, o)]
    decreases |d| - o
  {
    if o < |d| && o in c && c[o] != [] {
      WalkFollows(c, d, o + |c[o]|);
      var e := WalkEnd(c, |d|, o);
      assert d[o..e] == d[o..o + |c[o]|] + d[o + |c[o]|..e];
    }
  }

  /** Whatever order, overlap or alignment the chunks came in, an accepted layout streams D itself. */
  lemma Fidelity(c: Chunks, d: Bytes, chunkSize: nat)
    requires SlicesOf(c, d) && AllAcceptable(c, |d|, chunkSize)
    requires Layout(c, |d|, 0).Ok?
    ensures AllStored(c, Layout(c, |d|, 0).value)
    ensures Join(Assembled(c, Layout(c, |d|, 0).value)) == d
  {
    LayoutIffComplete(c, |d|, chunkSize, 0);
    WalkFollows(c, d, 0);
    assert d[0..|d|] == d;
  }

  // ---------- Completeness ----------

  /** Once every multiple of chunk_size below `total` has a chunk, the walk reaches exactly `total`,
      whatever other chunks are stored. */
  lemma {:induction false} MultiplesSuffice(c: Chunks, total: nat, chunkSize: nat, k: nat)
    requires 0 < chunkSize && AllAcceptable(c, total, chunkSize)
    requires forall m: nat :: chunkSize * m < total ==> chunkSize * m in c
    requires chunkSize * k <= total
    ensures WalkEnd(c, total, chunkSize * k) == total
    decreases total - chunkSize * k
  {
    var o := chunkSize * k;
    if o >= total {
    } else {
      assert Acceptable(o, c[o], total, chunkSize);
      if o + |c[o]| < total {
        assert o + chunkSize == chunkSize * (k + 1);
        MultiplesSuffice(c, total, chunkSize, k + 1);
      } else {
        assert WalkEnd(c, total, total) == total;
      }
    }
  }

  lemma AlignedUploadFinalizes(c: Chunks, total: nat, chunkSize: nat)
    requires 0 < chunkSize && AllAcceptable(c, total, chunkSize)
    requires forall m: nat :: chunkSize * m < total ==> chunkSize * m in c
    ensures Layout(c, total, 0).Ok? && Received(c, total) == total
  {
    assert chunkSize * 0 == 0;
    MultiplesSuffice(c, total, chunkSize, 0);
    LayoutIffComplete(c, total, chunkSize, 0);
  }

  // ---------- The sweep of _cleanup_chunks ----------

  function Span(data: Bytes): nat {
    if data == [] then 1 else |data|
  }

  /** `_advance_probe` on a listable store, for the offsets at or after `o`. */
  predicate IsNext(c: Chunks, o: nat, n: nat) {
    n in c && o <= n && forall m :: m in c && o <= m ==> n <= m
  }

  /** The offsets the sweep deletes when it starts at `o`: greedily, the next chunk at or after the
      end of the last one deleted. */
  ghost function Swept(c: Chunks, total: nat, o: nat): (s: set<nat>)
    ensures forall m :: m in s ==> m in c && o <= m <= total
    decreases if o <= total then total + 1 - o else 0
  {
    if n: nat :| IsNext(c, o, n) && n <= total then {n} + Swept(c, total, n + Span(c[n])) else {}
  }

  lemma SweptStep(c: Chunks, total: nat, o: nat, n: nat)
    requires IsNext(c, o, n)
    ensures Swept(c, total, o) == if n <= total then {n} + Swept(c, total, n + Span(c[n])) else {}
  {
  }

  ghost predicate Inside(c: Chunks, m: nat, n: nat)
    requires n in c
  {
    n < m < n + |c[n]|
  }

  lemma {:induction false} ExistsNext(c: Chunks, o: nat, m: nat) returns (n: nat)
    requires m in c && o <= m
    ensures IsNext(c, o, n)
    decreases m
  {
    n := m;
    if k: nat :| k in c && o <= k < m {
      n := ExistsNext(c, o, k);
    }
  }

  /** A chunk within reach is swept exactly when it does not start inside a swept one. */
  lemma {:induction false} SweptIff(c: Chunks, total: nat, o: nat, m: nat)
    requires m in c && o <= m <= total
    ensures m in Swept(c, total, o) <==> !exists n :: n in Swept(c, total, o) && Inside(c, m, n)
    decreases if o <= total then total + 1 - o else 0
  {
    var n: nat := ExistsNext(c, o, m);
    SweptStep(c, total, o, n);
    var next := n + Span(c[n]);
    var rest := Swept(c, total, next);
    if m < next {
      assert m in Swept(c, total, o) <==> m == n;
      assert m != n ==> Inside(c, m, n);
      assert forall k :: k in Swept(c, total, o) ==> k == n || m < k;
    } else {
      SweptIff(c, total, next, m);
      assert !Inside(c, m, n);
      if m !in rest {
        var k :| k in rest && Inside(c, m, k);
        assert k in Swept(c, total, o) && Inside(c, m, k);
      }
    }
  }

  /** The sweep of a session leaves nothing behind if and only if no chunk starts strictly inside
      another; otherwise every survivor starts strictly inside a deleted chunk. */
  lemma SweepCharacterised(c: Chunks, total: nat, chunkSize: nat)
    requires AllAcceptable(c, total, chunkSize)
    ensures forall m :: m in c && m !in Swept(c, total, 0) ==> exists n :: n in Swept(c, total, 0) && Inside(c, m, n)
    ensures Swept(c, total, 0) == c.Keys <==> forall m, n :: m in c && n in c ==> !Inside(c, m, n)
  {
    forall m | m in c
      ensures m in Swept(c, total, 0) <==> !exists n :: n in Swept(c, total, 0) && Inside(c, m, n)
    {
      assert Acceptable(m, c[m], total, chunkSize);
      SweptIff(c, total, 0, m);
    }
    if m, n :| m in c && n in c && Inside(c, m, n) {
      if n in Swept(c, total, 0) {
        assert m !in Swept(c, total, 0);
      }
    }
  }
}
