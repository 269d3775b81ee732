/** What the upload operations come to, field by field: sessions, the answers to a chunk, and the file a
    finalize publishes. */
module UploadOutcomes {
  import opened Prelude
  import opened Domain
  import opened FileRepository
  import opened FileService
  import opened MemoryStore
  import opened ObjectStore
  import opened UploadLayout
  import opened UploadSteps
  import P = UploadProtocol

  // ---------- Checksums ----------

  /** A capital and its small letter. */
  predicate Cases(a: char, b: char) {
    'A' <= a <= 'Z' && b as int == a as int + 32
  }

  /** The same text but for ASCII case. */
  predicate SameButCase(a: string, b: string) {
    |a| == |b| && forall i :: 0 <= i < |a| ==> a[i] == b[i] || Cases(a[i], b[i]) || Cases(b[i], a[i])
  }

  lemma LowerIff(a: string, b: string)
    ensures Lower(a) == Lower(b) <==> SameButCase(a, b)
  {
    if SameButCase(a, b) {
      assert forall i :: 0 <= i < |a| ==> Lower(a)[i] == Lower(b)[i];
    }
    if Lower(a) == Lower(b) {
      forall i | 0 <= i < |a|
        ensures a[i] == b[i] || Cases(a[i], b[i]) || Cases(b[i], a[i])
      {
        assert Lower(a)[i] == Lower(b)[i];
      }
    }
  }

  /** No checksum declared, or this digest. */
  predicate Declares(checksum: Option<string>, digest: string) {
    checksum.None? || checksum.value == "" || SameButCase(checksum.value, digest)
  }

  /** Main result, one call alone: a complete upload that governance accepts is published if and only if it
      declares no checksum or, but for case, its own digest; else the call is refused as invalid, the
      session is active again and nothing is stored. */
  lemma FinalizeChecksumIff(lim: Limits, hs: Hashes, w: World, book: Book, id: string, fileId: string, now: Time)
    requires Good(hs, w, book) && Fresh(w, fileId)
    requires id in book && book[id].status == Active && now < book[id].info.expiresAt
    requires Ready(lim, w, book[id].info, now)
    ensures var digest := hs.blob(WalkBytes(ChunksOf(w.blobs, id), book[id].info.total, 0));
            var (w', book', r) := FinalizeStep(lim, hs, w, book, id, fileId, now);
            && (r.Ok? <==> Declares(book[id].info.checksum, digest))
            && (!Declares(book[id].info.checksum, digest) ==>
                  r == Err(InvalidRequest) && w' == w && book' == book)
  {
    var i := book[id].info;
    var data := WalkBytes(ChunksOf(w.blobs, id), i.total, 0);
    AttemptOutcome(lim, hs, w, book[id], fileId, now);
    if i.checksum.Some? {
      LowerIff(i.checksum.value, hs.blob(data));
    }
    MeterIsWalk(ChunksOf(w.blobs, id), i.total, i.chunkSize);
    assert book[id := book[id].(status := Active)] == book;
  }

  /** In the protocol the same comparison sends a stored blob on, or back. */
  lemma StoredMoves(u: P.Session, h: P.Hash, s: P.State, p: P.Pid)
    requires p in s.calls && s.calls[p].phase == P.Stored
    ensures P.Do(u, h, s, P.By(p, P.CompareChecksum)).calls[p] ==
              s.calls[p].(phase := if Declares(u.checksum, h(s.calls[p].buffer)) then P.Matched else P.DropBlob)
  {
    if u.checksum.Some? {
      LowerIff(u.checksum.value, h(s.calls[p].buffer));
    }
  }

  // ---------- What finalize publishes ----------

  /** The row of a published file says what its session said. */
  predicate Describes(hs: Hashes, i: Info, data: Bytes, fileId: string, now: Time, row: FileRow) {
    && row.id == row.payload.path == fileId && row.version == 1
    && row.owner == i.owner && row.metadata == i.metadata && row.tags == i.tags
    && row.payload.filename == i.filename && row.payload.mime == i.contentType
    && row.payload.size == i.total && row.payload.sha256 == hs.blob(data)
    && row.etag == FileEtag(hs.text, hs.blob(data), i.total)
    && row.createdAt == row.updatedAt == now
    && row.idem.None? && row.expiresAt.None? && row.deletedAt.None?
  }

  /** A successful finalize stores the assembled bytes under one new row; the session is gone. */
  lemma FinalizePublishes(lim: Limits, hs: Hashes, w: World, book: Book, id: string, fileId: string, now: Time)
    requires Good(hs, w, book) && Fresh(w, fileId)
    requires FinalizeStep(lim, hs, w, book, id, fileId, now).2.Ok?
    ensures var (w', book', r) := FinalizeStep(lim, hs, w, book, id, fileId, now);
            && id in book && book' == book - {id} && w'.files.items == w.files.items[fileId := r.value]
            && var data := WalkBytes(ChunksOf(w.blobs, id), book[id].info.total, 0);
               && |data| == book[id].info.total
               && FileKey(fileId) in w'.blobs && w'.blobs[FileKey(fileId)] == data
               && Describes(hs, book[id].info, data, fileId, now, r.value)
  {
    FinalizeIff(lim, hs, w, book, id, fileId, now);
    var i := book[id].info;
    AttemptOutcome(lim, hs, w, book[id], fileId, now);
    MeterIsWalk(ChunksOf(w.blobs, id), i.total, i.chunkSize);
    NewRowDescribes(hs, i, WalkBytes(ChunksOf(w.blobs, id), i.total, 0), fileId, now);
  }

  lemma NewRowDescribes(hs: Hashes, i: Info, data: Bytes, fileId: string, now: Time)
    requires Normal(i.tags) == i.tags && |data| == i.total
    ensures Describes(hs, i, data, fileId, now, NewRow(hs, SessionPayload(i), data, fileId, now))
  {
  }

  // ---------- Chunks ----------

  /** What a chunk must be: not empty, within the declared size, of chunk_size unless it is the final one,
      at most 64 MiB. */
  predicate Fitting(i: Info, offset: int, data: Bytes) {
    && 0 < |data| <= 64 * 1024 * 1024
    && 0 <= offset && offset + |data| <= i.total
    && (offset + |data| != i.total ==> |data| == i.chunkSize)
  }

  /** Main result: a put is answered Ok only if its bytes are what is stored at its offset afterwards; for
      an open session and a fitting chunk that is exactly when the offset was free or held these bytes,
      and other bytes there are a conflict that changes nothing. */
  lemma PutAnswers(blobs: Blobs, book: Book, id: string, offset: int, data: Bytes, now: Time)
    ensures var (blobs', book', r) := PutStep(blobs, book, id, offset, data, now);
            && (r.Ok? ==> offset >= 0 && ChunkKey(id, offset) in blobs' && blobs'[ChunkKey(id, offset)] == data
                          && id in book' && book'[id] == r.value)
            && (r.Err? ==> blobs' == blobs)
            && (forall k :: k in blobs ==> k in blobs' && blobs'[k] == blobs[k])
            && (forall k :: k in blobs' && k !in blobs ==> offset >= 0 && k == ChunkKey(id, offset))
    ensures var (blobs', book', r) := PutStep(blobs, book, id, offset, data, now);
            if id !in book || book[id].status != Active || book[id].info.expiresAt <= now then r == Err(NotFound)
            else if !Fitting(book[id].info, offset, data) then r == Err(InvalidRequest) && book' == book
            else
              var free := ChunkKey(id, offset) !in blobs;
              && (r.Ok? <==> free || blobs[ChunkKey(id, offset)] == data)
              && (!free ==> blobs' == blobs && book' == book)
              && (r.Err? ==> r == Err(Conflict))
              && (free ==> blobs' == blobs[ChunkKey(id, offset) := data])
  {
  }

  /** So a put can be repeated: the second answers Ok as well and changes nothing. */
  lemma PutTwice(blobs: Blobs, book: Book, id: string, offset: int, data: Bytes, now: Time, later: Time)
    requires PutStep(blobs, book, id, offset, data, now).2.Ok? && id in book && later < book[id].info.expiresAt
    ensures var (blobs', book', r) := PutStep(blobs, book, id, offset, data, now);
            PutStep(blobs', book', id, offset, data, later) == (blobs', book', r)
  {
    PutAnswers(blobs, book, id, offset, data, now);
    PutAnswers(blobs, book, id, offset, data, later);
  }

  // ---------- Sessions ----------

  /** A session is refused for a size out of bounds or tags that are not accepted, and is else what was
      asked for, open for a day. */
  lemma SessionFields(lim: Limits, q: Request, id: string, now: Time)
    ensures var r := NewSession(lim, q, id, now);
            && (q.total < 0 || q.chunkSize < 64 * 1024 || q.chunkSize > 64 * 1024 * 1024 ==> r == Err(InvalidRequest))
            && (q.total >= 0 && 64 * 1024 <= q.chunkSize <= 64 * 1024 * 1024 ==>
                  if lim.maxFile != 0 && q.total > lim.maxFile then r == Err(PayloadTooLarge)
                  else if TagsAccepted(Normal(q.tags)) then r.Ok? else r == Err(InvalidRequest))
    ensures NewSession(lim, q, id, now).Ok? ==>
              var s := NewSession(lim, q, id, now).value;
              && s.info.id == id && s.info.owner == q.owner && s.info.metadata == q.metadata
              && s.info.filename == (if q.filename == "" then "unnamed" else q.filename)
              && s.info.contentType == (if q.contentType == "" then "application/octet-stream" else q.contentType)
              && s.info.total == q.total && s.info.chunkSize == q.chunkSize && s.info.checksum == q.checksum
              && s.info.tags == Normal(q.tags) && s.info.expiresAt == now + 86400
              && s.status == Active && s.received == 0
  {
  }

  /** Reading a session marks an active one past its time as expired, and changes no other. */
  lemma LapsedMarks(book: Book, id: string, now: Time, x: string)
    ensures x in Lapsed(book, id, now) <==> x in book
    ensures x in book ==>
              var s := Lapsed(book, id, now)[x];
              && s.info == book[x].info && s.received == book[x].received
              && s.status == if x == id && Abandoned(book, id, now) then Expired else book[x].status
  {
  }
}
