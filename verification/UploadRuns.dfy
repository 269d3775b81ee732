/** Runs of the upload and file services together, one call at a time. */
module UploadRuns {
  import opened Prelude
  import opened Domain
  import opened FileRepository
  import F = FileService
  import opened MemoryStore
  import opened ObjectStore
  import opened UploadLayout
  import opened UploadSteps

  datatype Op =
    | Begin(q: Request, id: string, now: Time)
    | PutChunk(id: string, offset: int, data: Bytes, now: Time)
    | Finalize(id: string, fileId: string, now: Time)
    | Cancel(id: string)
    | Files(op: F.Op)

  datatype State = State(world: F.World, book: Book)

  predicate FreshSession(s: State, id: string) {
    id !in s.book && ChunksOf(s.world.blobs, id) == map[]
  }

  /** Ids are fresh where the services draw them. Cleanup of expired sessions is a run of cancels. */
  ghost function Apply(lim: Limits, hs: Hashes, s: State, op: Op): State {
    match op
    case Begin(q, id, now) =>
      if FreshSession(s, id) && NewSession(lim, q, id, now).Ok?
      then State(s.world, s.book[id := NewSession(lim, q, id, now).value]) else s
    case PutChunk(id, offset, data, now) =>
      var (blobs, book, _) := PutStep(s.world.blobs, s.book, id, offset, data, now);
      State(F.World(s.world.files, blobs), book)
    case Finalize(id, fileId, now) =>
      if F.Fresh(s.world, fileId) then
        var (w, book, _) := FinalizeStep(lim, hs, s.world, s.book, id, fileId, now);
        State(w, book)
      else s
    case Cancel(id) =>
      var (w, book, _) := CancelStep(s.world, s.book, id);
      State(w, book)
    case Files(op) => State(F.Apply(lim, hs, s.world, op), s.book)
  }

  ghost function Run(lim: Limits, hs: Hashes, ops: seq<Op>): State {
    if ops == [] then State(F.World(Store(map[], map[], map[]), map[]), map[])
    else Apply(lim, hs, Run(lim, hs, ops[..|ops| - 1]), ops[|ops| - 1])
  }

  // ---------- File operations leave chunks alone ----------

  ghost predicate SameChunks(a: Blobs, b: Blobs) {
    forall k: Key :: k.ChunkKey? ==> (k in a <==> k in b) && (k in a ==> a[k] == b[k])
  }

  lemma SameChunksOf(a: Blobs, b: Blobs, session: string)
    requires SameChunks(a, b)
    ensures ChunksOf(a, session) == ChunksOf(b, session)
  {
    assert forall o: nat :: o in ChunksOf(a, session) <==> ChunkKey(session, o) in a;
  }

  lemma FileBlobApart(blobs: Blobs, id: string, data: Bytes)
    ensures SameChunks(blobs, blobs[FileKey(id) := data]) && SameChunks(blobs, blobs - {FileKey(id)})
  {
  }

  lemma PurgeApart(w: F.World, row: FileRow)
    ensures SameChunks(w.blobs, F.Purged(w, row).blobs)
  {
    FileBlobApart(w.blobs, row.payload.path, []);
  }

  lemma CreateApart(lim: Limits, hs: Hashes, w: F.World, p: F.Payload, data: Bytes, id: string, now: Time)
    ensures SameChunks(w.blobs, F.CreateStep(lim, hs, w, p, data, id, now).0.blobs)
  {
    var ready := F.Prepared(w, p, now).0;
    var holder := F.Holder(w.files, p.idem);
    if holder.Some? {
      PurgeApart(w, holder.value);
    }
    FileBlobApart(ready.blobs, id, data);
  }

  lemma FilesApart(lim: Limits, hs: Hashes, w: F.World, op: F.Op)
    ensures SameChunks(w.blobs, F.Apply(lim, hs, w, op).blobs)
  {
    match op
    case Create(p, data, id, now) => CreateApart(lim, hs, w, p, data, id, now);
    case Delete(_, _, _) =>
    case Restore(_, _, _) =>
    case Purge(id, _) =>
      if id in w.files.items {
        PurgeApart(w, w.files.items[id]);
      }
  }

  // ---------- What every run keeps ----------

  lemma ApplyKeeps(lim: Limits, hs: Hashes, s: State, op: Op)
    requires Good(hs, s.world, s.book)
    ensures var s' := Apply(lim, hs, s, op); Good(hs, s'.world, s'.book)
  {
    match op
    case Begin(q, id, now) =>
      if FreshSession(s, id) && NewSession(lim, q, id, now).Ok? {
        assert forall o: nat :: ChunkKey(id, o) !in s.world.blobs by {
          assert forall o: nat :: o !in ChunksOf(s.world.blobs, id);
        }
        BeginTracked(lim, s.world.blobs, s.book, q, id, now);
      }
    case PutChunk(id, offset, data, now) =>
      PutSound(hs, s.world, s.book, id, offset, data, now);
      PutKeeps(s.world.blobs, s.book, id, offset, data, now);
    case Finalize(id, fileId, now) =>
      if F.Fresh(s.world, fileId) {
        FinalizeKeeps(lim, hs, s.world, s.book, id, fileId, now);
      }
    case Cancel(id) => CancelKeeps(hs, s.world, s.book, id);
    case Files(o) =>
      F.ApplySound(lim, hs, s.world, o);
      FilesApart(lim, hs, s.world, o);
      SameTracked(s.book, s.world.blobs, F.Apply(lim, hs, s.world, o).blobs);
  }

  lemma SameTracked(book: Book, a: Blobs, b: Blobs)
    requires SameChunks(a, b) && AllTracked(book, a)
    ensures AllTracked(book, b)
  {
    forall id | id in book
      ensures Tracked(book[id], id, ChunksOf(b, id))
    {
      SameChunksOf(a, b, id);
    }
  }

  lemma {:induction false} RunKeeps(lim: Limits, hs: Hashes, ops: seq<Op>)
    ensures Good(hs, Run(lim, hs, ops).world, Run(lim, hs, ops).book)
  {
    if ops == [] {
    } else {
      RunKeeps(lim, hs, ops[..|ops| - 1]);
      ApplyKeeps(lim, hs, Run(lim, hs, ops[..|ops| - 1]), ops[|ops| - 1]);
    }
  }

  /** Main result: after every run, file rows and file blobs are in bijection with matching size and
      digest, and every session's received_bytes is the length of the prefix finalize would assemble,
      equal to total_size exactly when its layout check would pass. */
  lemma MetersAndFilesHold(lim: Limits, hs: Hashes, ops: seq<Op>)
    ensures var s := Run(lim, hs, ops);
            && RowsMatchBlobs(hs.blob, s.world.files.items, s.world.blobs)
            && forall id :: id in s.book ==>
                 var c, total := ChunksOf(s.world.blobs, id), s.book[id].info.total;
                 && s.book[id].received == |WalkBytes(c, total, 0)| <= total
                 && (s.book[id].received == total <==> Layout(c, total, 0).Ok?)
  {
    RunKeeps(lim, hs, ops);
    var s := Run(lim, hs, ops);
    forall id | id in s.book
      ensures var c, total := ChunksOf(s.world.blobs, id), s.book[id].info.total;
              && s.book[id].received == |WalkBytes(c, total, 0)| <= total
              && (s.book[id].received == total <==> Layout(c, total, 0).Ok?)
    {
      MeterIsWalk(ChunksOf(s.world.blobs, id), s.book[id].info.total, s.book[id].info.chunkSize);
    }
  }

  /** While a session exists no call lowers its meter or changes a byte of its assembled prefix. */
  lemma MeterNeverFalls(lim: Limits, hs: Hashes, s: State, op: Op, id: string)
    requires Good(hs, s.world, s.book) && id in s.book && id in Apply(lim, hs, s, op).book
    ensures var s' := Apply(lim, hs, s, op);
            Grows(s.book[id], ChunksOf(s.world.blobs, id), s'.book[id], ChunksOf(s'.world.blobs, id))
  {
    match op
    case Begin(_, _, _) =>
    case PutChunk(x, offset, data, now) => PutKeeps(s.world.blobs, s.book, x, offset, data, now);
    case Finalize(x, fileId, now) =>
      if F.Fresh(s.world, fileId) {
        FinalizeLeaves(lim, hs, s.world, s.book, x, fileId, now, id);
      }
    case Cancel(x) =>
      if x in s.book {
        DroppedElsewhere(s.world.blobs, x, Swept(ChunksOf(s.world.blobs, x), s.book[x].info.total, 0), id);
      }
    case Files(o) =>
      FilesApart(lim, hs, s.world, o);
      SameChunksOf(s.world.blobs, F.Apply(lim, hs, s.world, o).blobs, id);
  }

  lemma PublishedLeaves(w: F.World, made: Blobs, fileId: string, data: Bytes, i: Info, id: string)
    requires made == w.blobs[FileKey(fileId) := data] && id != i.id
    ensures ChunksOf(Cleaned(made, i.id, i.total), id) == ChunksOf(w.blobs, id)
  {
    FileApart(w.blobs, fileId, data, id);
    DroppedElsewhere(made, i.id, Swept(ChunksOf(made, i.id), i.total, 0), id);
  }

  /** Finalize leaves the chunks and the meter of every session that remains. */
  lemma FinalizeLeaves(lim: Limits, hs: Hashes, w: F.World, book: Book, x: string, fileId: string, now: Time,
      id: string)
    requires Good(hs, w, book) && F.Fresh(w, fileId) && id in book
    requires id in FinalizeStep(lim, hs, w, book, x, fileId, now).1
    ensures var (w', book', _) := FinalizeStep(lim, hs, w, book, x, fileId, now);
            && ChunksOf(w'.blobs, id) == ChunksOf(w.blobs, id)
            && book'[id].info == book[id].info && book'[id].received == book[id].received
  {
    FinalizeIff(lim, hs, w, book, x, fileId, now);
    FinalizeLeavesMeter(lim, hs, w, book, x, fileId, now, id);
    if FinalizeStep(lim, hs, w, book, x, fileId, now).2.Ok? {
      PublishLeaves(lim, hs, w, book, x, fileId, now, id);
    }
  }

  lemma FinalizeLeavesMeter(lim: Limits, hs: Hashes, w: F.World, book: Book, x: string, fileId: string, now: Time,
      id: string)
    requires id in book && id in FinalizeStep(lim, hs, w, book, x, fileId, now).1
    ensures var (_, book', r) := FinalizeStep(lim, hs, w, book, x, fileId, now);
            && book'[id].info == book[id].info && book'[id].received == book[id].received && (r.Ok? ==> id != x)
  {
  }

  lemma PublishLeaves(lim: Limits, hs: Hashes, w: F.World, book: Book, x: string, fileId: string, now: Time, id: string)
    requires Good(hs, w, book) && F.Fresh(w, fileId) && id in book && id != x
    requires FinalizeStep(lim, hs, w, book, x, fileId, now).2.Ok?
    ensures ChunksOf(FinalizeStep(lim, hs, w, book, x, fileId, now).0.blobs, id) == ChunksOf(w.blobs, id)
  {
    var data := WalkBytes(ChunksOf(w.blobs, x), book[x].info.total, 0);
    PublishedBlobs(lim, hs, w, book, x, fileId, now);
    PublishedLeaves(w, w.blobs[FileKey(fileId) := data], fileId, data, book[x].info, id);
  }

  lemma FinalizeAttempts(lim: Limits, hs: Hashes, w: F.World, book: Book, x: string, fileId: string, now: Time)
    requires FinalizeStep(lim, hs, w, book, x, fileId, now).2.Ok?
    ensures x in book
    ensures var (made, r, _) := Attempt(lim, hs, w, book[x].info, fileId, now);
            r.Ok? && FinalizeStep(lim, hs, w, book, x, fileId, now).0 == AfterSweep(made, book[x].info)
  {
  }

  lemma PublishedBlobs(lim: Limits, hs: Hashes, w: F.World, book: Book, x: string, fileId: string, now: Time)
    requires Good(hs, w, book) && F.Fresh(w, fileId) && FinalizeStep(lim, hs, w, book, x, fileId, now).2.Ok?
    ensures x in book && book[x].info.id == x
    ensures FinalizeStep(lim, hs, w, book, x, fileId, now).0.blobs ==
            Cleaned(w.blobs[FileKey(fileId) := WalkBytes(ChunksOf(w.blobs, x), book[x].info.total, 0)], x,
              book[x].info.total)
  {
    FinalizeAttempts(lim, hs, w, book, x, fileId, now);
    AttemptOutcome(lim, hs, w, book[x], fileId, now);
  }

  // ---------- A failed finalize that is not retried ----------

  lemma RunNext(lim: Limits, hs: Hashes, ops: seq<Op>, op: Op)
    ensures Run(lim, hs, ops + [op]) == Apply(lim, hs, Run(lim, hs, ops), op)
  {
    assert (ops + [op])[..|ops|] == ops;
  }

  lemma FinalizingStays(lim: Limits, hs: Hashes, s: State, op: Op, id: string)
    requires id in s.book && s.book[id].status == Finalizing
    ensures id in Apply(lim, hs, s, op).book ==> Apply(lim, hs, s, op).book[id].status == Finalizing
  {
  }

  /** The session a request opens. */
  function Opened(lim: Limits, q: Request, id: string, now: Time): Session
    requires NewSession(lim, q, id, now).Ok?
  {
    NewSession(lim, q, id, now).value
  }

  lemma BeginAlone(lim: Limits, hs: Hashes, q: Request, id: string, now: Time)
    requires NewSession(lim, q, id, now).Ok?
    ensures Run(lim, hs, [Begin(q, id, now)]) ==
            State(F.World(Store(map[], map[], map[]), map[]), map[id := Opened(lim, q, id, now)])
  {
    assert [] + [Begin(q, id, now)] == [Begin(q, id, now)];
    RunNext(lim, hs, [], Begin(q, id, now));
    assert ChunksOf(map[], id) == map[];
  }

  /** Begin an upload of some bytes and finalize it before any chunk arrived: the call fails, and the
      status is left "finalizing". */
  lemma IncompleteFinalize(lim: Limits, hs: Hashes, q: Request, id: string, fileId: string, now: Time)
    requires NewSession(lim, q, id, now).Ok? && 0 < q.total
    ensures var s := Run(lim, hs, [Begin(q, id, now), Finalize(id, fileId, now)]);
            id in s.book && s.book[id].status == Finalizing
  {
    var ops := [Begin(q, id, now)];
    BeginAlone(lim, hs, q, id, now);
    assert ops + [Finalize(id, fileId, now)] == [Begin(q, id, now), Finalize(id, fileId, now)];
    RunNext(lim, hs, ops, Finalize(id, fileId, now));
    assert 0 !in ChunksOf(Run(lim, hs, ops).world.blobs, id);
  }

  /** Whatever is called after that, chunks of the whole upload included, every finalize of the session
      fails: it stays "finalizing" until it is cancelled. */
  lemma {:induction false} NeverRetried(lim: Limits, hs: Hashes, q: Request, id: string, fileId: string, now: Time,
      more: seq<Op>)
    requires NewSession(lim, q, id, now).Ok? && 0 < q.total
    requires forall i :: 0 <= i < |more| && more[i].Begin? ==> more[i].id != id
    ensures var s := Run(lim, hs, [Begin(q, id, now), Finalize(id, fileId, now)] + more);
            && (id in s.book ==> s.book[id].status == Finalizing)
            && forall f, t :: FinalizeStep(lim, hs, s.world, s.book, id, f, t).2.Err?
  {
    var first := [Begin(q, id, now), Finalize(id, fileId, now)];
    if more == [] {
      assert first + more == first;
      IncompleteFinalize(lim, hs, q, id, fileId, now);
    } else {
      var front, last := more[..|more| - 1], more[|more| - 1];
      NeverRetried(lim, hs, q, id, fileId, now, front);
      assert first + more == first + front + [last];
      RunNext(lim, hs, first + front, last);
      var s := Run(lim, hs, first + front);
      if id in s.book {
        FinalizingStays(lim, hs, s, last, id);
      }
    }
  }

  // ---------- A chunk that clean-up leaves ----------

  /** Two acceptable chunks that overlap, the second starting inside the first: cancelling the upload
      deletes only the first. */
  lemma CancelLeavesChunk(lim: Limits, hs: Hashes, q: Request, id: string, a: Bytes, b: Bytes, now: Time)
    requires NewSession(lim, q, id, now).Ok? && q.total == q.chunkSize + 1 && |a| == q.chunkSize == |b|
    ensures var s := Run(lim, hs, [Begin(q, id, now), PutChunk(id, 0, a, now), PutChunk(id, 1, b, now), Cancel(id)]);
            id !in s.book && ChunksOf(s.world.blobs, id) == map[1 := b]
  {
    var ops := [Begin(q, id, now), PutChunk(id, 0, a, now), PutChunk(id, 1, b, now)];
    OverlapStored(lim, hs, q, id, a, b, now);
    assert ops + [Cancel(id)] == [Begin(q, id, now), PutChunk(id, 0, a, now), PutChunk(id, 1, b, now), Cancel(id)];
    RunNext(lim, hs, ops, Cancel(id));
    CancelDrops(lim, hs, Run(lim, hs, ops), id, a, b);
  }

  lemma CancelDrops(lim: Limits, hs: Hashes, s: State, id: string, a: Bytes, b: Bytes)
    requires id in s.book && s.book[id].info.id == id && 1 < |a| <= s.book[id].info.total
    requires ChunksOf(s.world.blobs, id) == map[0 := a, 1 := b]
    ensures id !in Apply(lim, hs, s, Cancel(id)).book
    ensures ChunksOf(Apply(lim, hs, s, Cancel(id)).world.blobs, id) == map[1 := b]
  {
    SweepOfOverlap(s.world.blobs, id, s.book[id].info.total, a, b);
  }

  lemma OverlapStored(lim: Limits, hs: Hashes, q: Request, id: string, a: Bytes, b: Bytes, now: Time)
    requires NewSession(lim, q, id, now).Ok? && q.total == q.chunkSize + 1 && |a| == q.chunkSize == |b|
    ensures var s := Run(lim, hs, [Begin(q, id, now), PutChunk(id, 0, a, now), PutChunk(id, 1, b, now)]);
            && id in s.book && s.book[id].info == Opened(lim, q, id, now).info
            && ChunksOf(s.world.blobs, id) == map[0 := a, 1 := b]
  {
    var one, two := [Begin(q, id, now)], [Begin(q, id, now), PutChunk(id, 0, a, now)];
    BeginAlone(lim, hs, q, id, now);
    assert one + [PutChunk(id, 0, a, now)] == two;
    RunNext(lim, hs, one, PutChunk(id, 0, a, now));
    assert two + [PutChunk(id, 1, b, now)] == [Begin(q, id, now), PutChunk(id, 0, a, now), PutChunk(id, 1, b, now)];
    RunNext(lim, hs, two, PutChunk(id, 1, b, now));
    var s := Opened(lim, q, id, now);
    PutsOpen(map[], map[id := s], s, id, 0, a, now);
    var (blobs, book, r) := PutStep(map[], map[id := s], id, 0, a, now);
    PutsOpen(blobs, book, r.value, id, 1, b, now);
    assert ChunksOf(map[], id) == map[];
  }

  lemma PutsOpen(blobs: Blobs, book: Book, s: Session, id: string, o: nat, data: Bytes, now: Time)
    requires id in book && book[id] == s && s.status == Active && now < s.info.expiresAt
    requires Acceptable(o, data, s.info.total, s.info.chunkSize) && ChunkKey(id, o) !in blobs
    ensures var (blobs', book', r) := PutStep(blobs, book, id, o, data, now);
            && ChunksOf(blobs', id) == ChunksOf(blobs, id)[o := data]
            && r.Ok? && id in book' && book'[id] == r.value && r.value.info == s.info && r.value.status == Active
            && blobs' == blobs[ChunkKey(id, o) := data]
  {
    StoredChunk(blobs, id, o, data);
  }

  lemma SweepOfOverlap(blobs: Blobs, id: string, total: nat, a: Bytes, b: Bytes)
    requires ChunksOf(blobs, id) == map[0 := a, 1 := b] && 1 < |a| <= total
    ensures ChunksOf(Cleaned(blobs, id, total), id) == map[1 := b]
  {
    var c := ChunksOf(blobs, id);
    SweptIff(c, total, 0, 0);
    SweptIff(c, total, 0, 1);
    assert forall n :: n in c ==> !Inside(c, 0, n);
    assert 0 in Swept(c, total, 0);
    assert Inside(c, 1, 0);
  }
}
