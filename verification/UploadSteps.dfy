/** The resumable upload service as steps on values: file rows, blobs and the book of sessions. */
module UploadSteps {
  import opened Prelude
  import opened Domain
  import opened FileRepository
  import opened FileService
  import opened MemoryStore
  import opened ObjectStore
  import opened Pages
  import opened UploadLayout

  const MAX_SESSION_SECONDS := 24 * 3600

  /** What a session fixes when it is created. */
  datatype Info = Info(
    id: string, owner: string, filename: string, contentType: string, total: nat, chunkSize: nat,
    checksum: Option<string>, metadata: Json, tags: seq<string>, expiresAt: Time)

  datatype Session = Session(info: Info, status: Status, received: nat)

  type Book = map<string, Session>

  /** A session's chunks among all blobs. */
  function ChunksOf(blobs: Blobs, session: string): (c: Chunks)
    ensures forall o: nat :: o in c <==> ChunkKey(session, o) in blobs
    ensures forall o: nat :: o in c ==> c[o] == blobs[ChunkKey(session, o)]
  {
    map k | k in blobs && k.ChunkKey? && k.session == session :: k.offset := blobs[k]
  }

  /** The blobs without some of a session's chunks. */
  ghost function Dropped(blobs: Blobs, session: string, offsets: set<nat>): Blobs {
    map k | k in blobs && !(k.ChunkKey? && k.session == session && k.offset in offsets) :: blobs[k]
  }

  /** The blobs after the sweep of one session. */
  ghost function Cleaned(blobs: Blobs, session: string, total: nat): Blobs {
    Dropped(blobs, session, Swept(ChunksOf(blobs, session), total, 0))
  }

  lemma StoredChunk(blobs: Blobs, session: string, o: nat, data: Bytes)
    ensures ChunksOf(blobs[ChunkKey(session, o) := data], session) == ChunksOf(blobs, session)[o := data]
    ensures forall other :: other != session ==>
            ChunksOf(blobs[ChunkKey(session, o) := data], other) == ChunksOf(blobs, other)
  {
    forall other | other != session
      ensures ChunksOf(blobs[ChunkKey(session, o) := data], other) == ChunksOf(blobs, other)
    {
    }
  }

  lemma DroppedElsewhere(blobs: Blobs, session: string, offsets: set<nat>, other: string)
    requires other != session
    ensures ChunksOf(Dropped(blobs, session, offsets), other) == ChunksOf(blobs, other)
  {
  }

  // ---------- Operations as steps ----------

  /** What a client asks for; sizes may be anything. */
  datatype Request = Request(
    owner: string, filename: string, contentType: string, total: int, chunkSize: int,
    checksum: Option<string>, metadata: Json, tags: seq<string>)

  function OrElse(text: string, default: string): string {
    if text == "" then default else text
  }

  /** The session a request is given, unless it is refused. */
  function NewSession(lim: Limits, q: Request, id: string, now: Time): Result<Session> {
    if q.total < 0 || !(MIN_CHUNK <= q.chunkSize <= MAX_CHUNK) then Err(InvalidRequest)
    else if lim.maxFile != 0 && q.total > lim.maxFile then Err(PayloadTooLarge)
    else if !TagsAccepted(Normal(q.tags)) then Err(InvalidRequest)
    else Ok(Session(Info(id, q.owner, OrElse(q.filename, "unnamed"), OrElse(q.contentType, "application/octet-stream"),
                         q.total, q.chunkSize, q.checksum, q.metadata, Normal(q.tags), now + MAX_SESSION_SECONDS),
                    Active, 0))
  }

  predicate Open(book: Book, id: string, now: Time) {
    id in book && book[id].status == Active && now < book[id].info.expiresAt
  }

  /** An active session seen past its time is marked expired. */
  function Lapsed(book: Book, id: string, now: Time): Book {
    if id in book && book[id].status == Active && book[id].info.expiresAt <= now
    then book[id := book[id].(status := Expired)] else book
  }

  function PutStep(blobs: Blobs, book: Book, id: string, offset: int, data: Bytes, now: Time)
    : (Blobs, Book, Result<Session>)
  {
    if !Open(book, id, now) then (blobs, Lapsed(book, id, now), Err(NotFound))
    else
      var s := book[id];
      if offset < 0 || !Acceptable(offset, data, s.info.total, s.info.chunkSize) then (blobs, book, Err(InvalidRequest))
      else if ChunkKey(id, offset) in blobs then
        (blobs, book, if blobs[ChunkKey(id, offset)] == data then Ok(s) else Err(Conflict))
      else
        var blobs' := blobs[ChunkKey(id, offset) := data];
        var s' := s.(received := Received(ChunksOf(blobs', id), s.info.total));
        (blobs', book[id := s'], Ok(s'))
  }

  function SessionPayload(i: Info): Payload {
    Payload(i.filename, i.contentType, i.metadata, i.owner, None, i.tags, None)
  }

  /** What finalize does to an active, unexpired session that it has moved to "finalizing": rows and
      blobs, the answer, and the status it leaves. */
  ghost function Attempt(lim: Limits, hs: Hashes, w: World, i: Info, fileId: string, now: Time)
    : (World, Result<FileRow>, Status)
  {
    var c := ChunksOf(w.blobs, i.id);
    if Layout(c, i.total, 0).Err? then (w, Err(InvalidRequest), Finalizing)
    else
      match Governance(lim, w.files.items, i.owner, i.total, i.metadata, now)
      case Err(e) => (w, Err(e), Finalizing)
      case Ok(_) => Closing(lim, hs, w, i, WalkBytes(c, i.total, 0), fileId, now)
  }

  /** From the blob write on. */
  ghost function Closing(lim: Limits, hs: Hashes, w: World, i: Info, data: Bytes, fileId: string, now: Time)
    : (World, Result<FileRow>, Status)
  {
    if ChecksumRefused(i.checksum, hs.blob(data)) then (w, Err(InvalidRequest), Active)
    else
      var (w', r) := Record(lim, hs, w, SessionPayload(i), data, fileId, now);
      (w', r, if r.Ok? then Finalized else Active)
  }

  /** `finalize` with nothing in between; a finalized session is swept and removed. */
  ghost function FinalizeStep(lim: Limits, hs: Hashes, w: World, book: Book, id: string, fileId: string, now: Time)
    : (World, Book, Result<FileRow>)
  {
    if id !in book then (w, book, Err(NotFound))
    else if book[id].status != Active then (w, book, Err(Conflict))
    else if book[id].info.expiresAt <= now then (w, Lapsed(book, id, now), Err(NotFound))
    else
      var (w', r, status) := Attempt(lim, hs, w, book[id].info, fileId, now);
      if r.Ok? then (AfterSweep(w', book[id].info), book - {id}, r)
      else (w', book[id := book[id].(status := status)], r)
  }

  ghost function AfterSweep(w: World, i: Info): World {
    World(w.files, Cleaned(w.blobs, i.id, i.total))
  }

  ghost function CancelStep(w: World, book: Book, id: string): (World, Book, Result<bool>) {
    if id !in book then (w, book, Err(NotFound)) else (AfterSweep(w, book[id].info), book - {id}, Ok(true))
  }

  /** One session after another swept and removed. */
  ghost function SweepAll(w: World, book: Book, ids: seq<string>): (World, Book) {
    if ids == [] then (w, book)
    else
      var (w', book') := SweepAll(w, book, ids[..|ids| - 1]);
      var (w'', book'', _) := CancelStep(w', book', ids[|ids| - 1]);
      (w'', book'')
  }

  lemma SweepAllStep(w: World, book: Book, ids: seq<string>, i: nat)
    requires i < |ids|
    ensures var (w', book') := SweepAll(w, book, ids[..i]);
            SweepAll(w, book, ids[..i + 1]) == (CancelStep(w', book', ids[i]).0, CancelStep(w', book', ids[i]).1)
  {
    assert ids[..i + 1][..i] == ids[..i];
  }

  /** A session in the shape listings sort. */
  function AsRow(s: Session): Row<Status> {
    Row(s.info.id, s.info.owner, 0, None, "", s.info.metadata, s.info.tags, 0, 0, Some(s.info.expiresAt), None,
        s.status)
  }

  function AsRows(book: Book): map<string, Row<Status>> {
    map id | id in book :: AsRow(book[id])
  }

  /** What `list_expired` selects: expired sessions still marked active. */
  function DueAt(now: Time): Row<Status> -> bool {
    (r: Row<Status>) => r.payload == Active && r.Expired(now)
  }

  // ---------- What a cleanup removes ----------

  /** Sweeping sessions removes them and chunks of theirs, and nothing else. */
  lemma {:induction false} SweepAllRemoves(w: World, book: Book, ids: seq<string>)
    requires forall id :: id in book ==> book[id].info.id == id
    ensures var (w', book') := SweepAll(w, book, ids);
            && w'.files == w.files
            && book' == (map id | id in book && id !in ids :: book[id])
            && (forall k :: k in w.blobs && !(k.ChunkKey? && k.session in ids) ==> k in w'.blobs)
            && (forall k :: k in w'.blobs ==> k in w.blobs && w'.blobs[k] == w.blobs[k])
  {
    if ids == [] {
    } else {
      var n := |ids| - 1;
      assert ids == ids[..n] + [ids[n]];
      SweepAllRemoves(w, book, ids[..n]);
    }
  }

  /** A session that cleanup is for: still active, its time over. */
  predicate Abandoned(book: Book, id: string, now: Time) {
    id in book && book[id].status == Active && book[id].info.expiresAt <= now
  }

  /** What cleanup is for: up to `limit` abandoned sessions go, the earliest first, all of them if there
      are fewer; every other session stays as it is. */
  ghost predicate SessionsRanOut(book: Book, book': Book, now: Time, limit: nat, count: nat) {
    && |book'| + count == |book| && count <= limit
    && (forall id :: id in book' ==> id in book && book'[id] == book[id])
    && (forall id :: id in book && id !in book' ==> Abandoned(book, id, now))
    && (count < limit ==> forall id :: !Abandoned(book', id, now))
    && (forall id, x :: id in book && id !in book' && Abandoned(book', x, now) ==>
          book[id].info.expiresAt <= book'[x].info.expiresAt)
  }

  lemma DueIsAbandoned(book: Book, now: Time, id: string)
    requires id in book
    ensures DueAt(now)(AsRows(book)[id]) <==> Abandoned(book, id, now)
    ensures ExpiryTime(AsRows(book)[id]) == book[id].info.expiresAt
  {
  }

  /** The sessions to sweep are the first abandoned ones. */
  ghost predicate FirstAbandoned(book: Book, ids: seq<string>, now: Time, limit: nat) {
    && |ids| <= limit && Distinct(ids)
    && (forall id :: id in ids ==> Abandoned(book, id, now))
    && (|ids| < limit ==> forall id :: Abandoned(book, id, now) ==> id in ids)
    && (forall id, x :: id in ids && Abandoned(book, id, now) && Abandoned(book, x, now) && x !in ids ==>
          book[id].info.expiresAt <= book[x].info.expiresAt)
  }

  lemma ListedFirst(book: Book, listing: seq<Row<Status>>, now: Time, limit: nat)
    requires forall id :: id in book ==> book[id].info.id == id
    requires IsListing(listing, AsRows(book), DueAt(now), ExpiryTime)
    ensures FirstAbandoned(book, Ids(Slice(listing, limit, 0)), now, limit)
  {
    FirstOfListing(listing, AsRows(book), DueAt(now), ExpiryTime, limit);
    SliceIds(listing, AsRows(book), DueAt(now), ExpiryTime, limit);
    forall id | id in book
      ensures DueAt(now)(AsRows(book)[id]) <==> Abandoned(book, id, now)
      ensures ExpiryTime(AsRows(book)[id]) == book[id].info.expiresAt
    {
      DueIsAbandoned(book, now, id);
    }
  }

  lemma CleanupSessions(w: World, book: Book, ids: seq<string>, now: Time, limit: nat)
    requires forall id :: id in book ==> book[id].info.id == id
    requires FirstAbandoned(book, ids, now, limit)
    ensures SessionsRanOut(book, SweepAll(w, book, ids).1, now, limit, |ids|)
  {
    SweepAllRemoves(w, book, ids);
    LeftRanOut(book, map id | id in book && id !in ids :: book[id], ids, now, limit);
  }

  lemma LeftRanOut(book: Book, left: Book, ids: seq<string>, now: Time, limit: nat)
    requires left == map id | id in book && id !in ids :: book[id]
    requires FirstAbandoned(book, ids, now, limit)
    ensures SessionsRanOut(book, left, now, limit, |ids|)
  {
    LeftCount(book, left, ids);
    forall id | Abandoned(left, id, now)
      ensures Abandoned(book, id, now) && id !in ids
    {
    }
  }

  lemma LeftCount(book: Book, left: Book, ids: seq<string>)
    requires left.Keys == book.Keys - set id | id in ids
    requires Distinct(ids) && forall id :: id in ids ==> id in book
    ensures |left| + |ids| == |book|
  {
    var gone := set id | id in ids;
    DistinctCount(ids);
    assert gone <= book.Keys;
    assert |left| == |left.Keys| && |book| == |book.Keys|;
  }

  // ---------- What every step keeps ----------

  /** A session's meter is the length of its assembled prefix, over acceptable chunks. */
  ghost predicate Tracked(s: Session, id: string, c: Chunks) {
    && s.info.id == id && 0 < s.info.chunkSize && Normal(s.info.tags) == s.info.tags
    && AllAcceptable(c, s.info.total, s.info.chunkSize)
    && s.received == Received(c, s.info.total)
  }

  ghost predicate AllTracked(book: Book, blobs: Blobs) {
    forall id :: id in book ==> Tracked(book[id], id, ChunksOf(blobs, id))
  }

  ghost predicate Good(hs: Hashes, w: World, book: Book) {
    Sound(hs, w) && AllTracked(book, w.blobs)
  }

  lemma BeginTracked(lim: Limits, blobs: Blobs, book: Book, q: Request, id: string, now: Time)
    requires AllTracked(book, blobs) && NewSession(lim, q, id, now).Ok?
    requires forall o: nat :: ChunkKey(id, o) !in blobs
    ensures AllTracked(book[id := NewSession(lim, q, id, now).value], blobs)
  {
    NormalizeIdempotent(q.tags);
    assert ChunksOf(blobs, id) == map[];
  }

  lemma StoredSound(hs: Hashes, w: World, session: string, o: nat, data: Bytes)
    requires Sound(hs, w)
    ensures Sound(hs, World(w.files, w.blobs[ChunkKey(session, o) := data]))
  {
    ChunksApart(hs.blob, w.files.items, w.blobs, w.blobs[ChunkKey(session, o) := data]);
  }

  lemma DroppedSound(hs: Hashes, w: World, session: string, offsets: set<nat>)
    requires Sound(hs, w)
    ensures Sound(hs, World(w.files, Dropped(w.blobs, session, offsets)))
  {
    ChunksApart(hs.blob, w.files.items, w.blobs, Dropped(w.blobs, session, offsets));
  }

  /** What a session gains by a step: its meter never falls, its assembled prefix only grows. */
  ghost predicate Grows(s: Session, c: Chunks, s': Session, c': Chunks) {
    s'.info == s.info && s.received <= s'.received && WalkBytes(c, s.info.total, 0) <= WalkBytes(c', s.info.total, 0)
  }

  lemma StoreGrows(s: Session, id: string, c: Chunks, o: nat, data: Bytes)
    requires Tracked(s, id, c) && o !in c && Acceptable(o, data, s.info.total, s.info.chunkSize)
    ensures var s' := s.(received := Received(c[o := data], s.info.total));
            Tracked(s', id, c[o := data]) && Grows(s, c, s', c[o := data])
  {
    PutExtends(c, s.info.total, 0, o, data);
  }

  /** Every session stays tracked, and none loses anything. */
  ghost predicate AllGrow(book: Book, blobs: Blobs, book': Book, blobs': Blobs) {
    && AllTracked(book', blobs') && book'.Keys == book.Keys
    && forall x :: x in book ==> Grows(book[x], ChunksOf(blobs, x), book'[x], ChunksOf(blobs', x))
  }

  lemma StoreKeeps(blobs: Blobs, book: Book, id: string, o: nat, data: Bytes, blobs': Blobs, s': Session)
    requires AllTracked(book, blobs) && id in book && ChunkKey(id, o) !in blobs
    requires Acceptable(o, data, book[id].info.total, book[id].info.chunkSize)
    requires blobs' == blobs[ChunkKey(id, o) := data]
    requires s' == book[id].(received := Received(ChunksOf(blobs', id), book[id].info.total))
    ensures AllGrow(book, blobs, book[id := s'], blobs')
  {
    StoredChunk(blobs, id, o, data);
    StoreGrows(book[id], id, ChunksOf(blobs, id), o, data);
  }

  lemma StatusKeeps(s: Session, id: string, c: Chunks, status: Status)
    requires Tracked(s, id, c)
    ensures Tracked(s.(status := status), id, c) && Grows(s, c, s.(status := status), c)
  {
  }

  lemma LapseKeeps(blobs: Blobs, book: Book, id: string, now: Time)
    requires AllTracked(book, blobs)
    ensures AllGrow(book, blobs, Lapsed(book, id, now), blobs)
  {
    forall x | x in book
      ensures Tracked(Lapsed(book, id, now)[x], x, ChunksOf(blobs, x))
      ensures Grows(book[x], ChunksOf(blobs, x), Lapsed(book, id, now)[x], ChunksOf(blobs, x))
    {
      StatusKeeps(book[x], x, ChunksOf(blobs, x), Lapsed(book, id, now)[x].status);
    }
  }

  lemma PutKeeps(blobs: Blobs, book: Book, id: string, offset: int, data: Bytes, now: Time)
    requires AllTracked(book, blobs)
    ensures AllGrow(book, blobs, PutStep(blobs, book, id, offset, data, now).1,
            PutStep(blobs, book, id, offset, data, now).0)
  {
    var (blobs', book', r) := PutStep(blobs, book, id, offset, data, now);
    LapseKeeps(blobs, book, id, now);
    if blobs' != blobs {
      StoreKeeps(blobs, book, id, offset, data, blobs', r.value);
    }
  }

  lemma PutSound(hs: Hashes, w: World, book: Book, id: string, offset: int, data: Bytes, now: Time)
    requires Sound(hs, w)
    ensures Sound(hs, World(w.files, PutStep(w.blobs, book, id, offset, data, now).0))
  {
    if offset >= 0 {
      StoredSound(hs, w, id, offset, data);
    }
  }

  lemma SweepKeeps(hs: Hashes, w: World, book: Book, i: Info, book': Book)
    requires Sound(hs, w) && AllTracked(book, w.blobs)
    requires forall x :: x in book' ==> x != i.id && x in book && book'[x] == book[x]
    ensures Good(hs, AfterSweep(w, i), book')
  {
    var offsets := Swept(ChunksOf(w.blobs, i.id), i.total, 0);
    DroppedSound(hs, w, i.id, offsets);
    forall x | x in book'
      ensures Tracked(book'[x], x, ChunksOf(AfterSweep(w, i).blobs, x))
    {
      DroppedElsewhere(w.blobs, i.id, offsets, x);
    }
  }

  lemma CancelKeeps(hs: Hashes, w: World, book: Book, id: string)
    requires Good(hs, w, book)
    ensures Good(hs, CancelStep(w, book, id).0, CancelStep(w, book, id).1)
  {
    if id in book {
      SweepKeeps(hs, w, book, book[id].info, book - {id});
    }
  }

  // ---------- Finalize, one call alone ----------

  lemma ClosingOutcome(lim: Limits, hs: Hashes, w: World, i: Info, data: Bytes, fileId: string, now: Time)
    requires Sound(hs, w) && Fresh(w, fileId) && |data| == i.total
    requires Governance(lim, w.files.items, i.owner, i.total, i.metadata, now).Ok?
    ensures var (w', r, status) := Closing(lim, hs, w, i, data, fileId, now);
            if ChecksumRefused(i.checksum, hs.blob(data)) then (w', r, status) == (w, Err(InvalidRequest), Active)
            else
              && r == Ok(NewRow(hs, SessionPayload(i), data, fileId, now)) && status == Finalized
              && w'.files.items == w.files.items[fileId := r.value]
              && w'.blobs == w.blobs[FileKey(fileId) := data]
              && Sound(hs, w')
  {
    var row := NewRow(hs, SessionPayload(i), data, fileId, now);
    RecountQuietAlone(lim, w.files.items, row, now);
    if Created(w.files, row, None).Ok? {
      CreateKeepsIdem(w.files, row, None);
      AddBoth(hs.blob, w.files.items, w.blobs, row, data);
    }
  }

  /** Ready to be published: complete, and within the owner's limits. */
  ghost predicate Ready(lim: Limits, w: World, i: Info, now: Time) {
    && Received(ChunksOf(w.blobs, i.id), i.total) == i.total
    && Governance(lim, w.files.items, i.owner, i.total, i.metadata, now).Ok?
  }

  ghost predicate Refused(hs: Hashes, w: World, i: Info) {
    ChecksumRefused(i.checksum, hs.blob(WalkBytes(ChunksOf(w.blobs, i.id), i.total, 0)))
  }

  lemma AttemptOutcome(lim: Limits, hs: Hashes, w: World, s: Session, fileId: string, now: Time)
    requires Sound(hs, w) && Fresh(w, fileId) && Tracked(s, s.info.id, ChunksOf(w.blobs, s.info.id))
    ensures var (w', r, status) := Attempt(lim, hs, w, s.info, fileId, now);
            var data := WalkBytes(ChunksOf(w.blobs, s.info.id), s.info.total, 0);
            && (r.Ok? <==> Ready(lim, w, s.info, now) && !Refused(hs, w, s.info))
            && (r.Err? ==>
                  && w' == w && (status == Active <==> Ready(lim, w, s.info, now))
                  && (status != Active ==> status == Finalizing))
            && (r.Ok? ==> status == Finalized && w'.blobs == w.blobs[FileKey(fileId) := data])
            && (r.Ok? ==> r.value == NewRow(hs, SessionPayload(s.info), data, fileId, now)
                          && w'.files.items == w.files.items[fileId := r.value])
            && Sound(hs, w')
  {
    var i := s.info;
    var c := ChunksOf(w.blobs, i.id);
    MeterIsWalk(c, i.total, i.chunkSize);
    if Ready(lim, w, i, now) {
      ClosingOutcome(lim, hs, w, i, WalkBytes(c, i.total, 0), fileId, now);
    }
  }

  /** Main result, one call alone: finalize succeeds exactly when the session is active and unexpired,
      its meter reads total_size, governance agrees and the checksum does not refuse. After a failure
      nothing is stored, and the session is still active exactly when only the checksum refused. */
  lemma FinalizeIff(lim: Limits, hs: Hashes, w: World, book: Book, id: string, fileId: string, now: Time)
    requires Good(hs, w, book) && Fresh(w, fileId)
    ensures var (w', book', r) := FinalizeStep(lim, hs, w, book, id, fileId, now);
            && (r.Ok? <==> Open(book, id, now) && Ready(lim, w, book[id].info, now) && !Refused(hs, w, book[id].info))
            && (r.Err? ==> w' == w)
            && (r.Err? && id in book ==>
                  id in book' &&
                  (book'[id].status == Active <==>
                     Open(book, id, now) && Ready(lim, w, book[id].info, now) && Refused(hs, w, book[id].info)))
  {
    if Open(book, id, now) {
      AttemptOutcome(lim, hs, w, book[id], fileId, now);
    }
  }

  lemma FileApart(blobs: Blobs, fileId: string, data: Bytes, session: string)
    ensures ChunksOf(blobs[FileKey(fileId) := data], session) == ChunksOf(blobs, session)
  {
  }

  lemma FinalizeKeeps(lim: Limits, hs: Hashes, w: World, book: Book, id: string, fileId: string, now: Time)
    requires Good(hs, w, book) && Fresh(w, fileId)
    ensures Good(hs, FinalizeStep(lim, hs, w, book, id, fileId, now).0,
            FinalizeStep(lim, hs, w, book, id, fileId, now).1)
  {
    if Open(book, id, now) {
      AttemptOutcome(lim, hs, w, book[id], fileId, now);
      var (w', r, _) := Attempt(lim, hs, w, book[id].info, fileId, now);
      if r.Ok? {
        forall x | x in book
          ensures Tracked(book[x], x, ChunksOf(w'.blobs, x))
        {
          FileApart(w.blobs, fileId, WalkBytes(ChunksOf(w.blobs, id), book[id].info.total, 0), x);
        }
        SweepKeeps(hs, w', book, book[id].info, book - {id});
      }
    }
  }

  lemma WalkIsD(c: Chunks, d: Bytes, chunkSize: nat)
    requires SlicesOf(c, d) && AllAcceptable(c, |d|, chunkSize) && Layout(c, |d|, 0).Ok?
    ensures WalkBytes(c, |d|, 0) == d
  {
    Fidelity(c, d, chunkSize);
    LayoutIffComplete(c, |d|, chunkSize, 0);
  }

  /** Main result, one call alone: if the chunks are slices of D, in any order and overlap, what a
      successful finalize publishes is D, under a row with the size and digest of D. */
  lemma FinalizePublishesD(lim: Limits, hs: Hashes, w: World, book: Book, id: string, fileId: string, now: Time,
      d: Bytes)
    requires Good(hs, w, book) && Fresh(w, fileId)
    requires id in book && |d| == book[id].info.total && SlicesOf(ChunksOf(w.blobs, id), d)
    ensures var (w', _, r) := FinalizeStep(lim, hs, w, book, id, fileId, now);
            r.Ok? ==>
              && FileKey(fileId) in w'.blobs && w'.blobs[FileKey(fileId)] == d
              && r.value.payload.size == |d| && r.value.payload.sha256 == hs.blob(d)
  {
    var c := ChunksOf(w.blobs, id);
    AttemptOutcome(lim, hs, w, book[id], fileId, now);
    MeterIsWalk(c, |d|, book[id].info.chunkSize);
    if Ready(lim, w, book[id].info, now) {
      WalkIsD(c, d, book[id].info.chunkSize);
    }
  }

  /** A swept session keeps a chunk exactly when the chunk starts inside a deleted one; none is left if
      and only if no chunk starts inside another. */
  lemma CleanedLeaves(blobs: Blobs, session: string, total: nat, chunkSize: nat)
    requires AllAcceptable(ChunksOf(blobs, session), total, chunkSize)
    ensures var c, left := ChunksOf(blobs, session), ChunksOf(Cleaned(blobs, session, total), session);
            && (forall m :: m in left <==> m in c && m !in Swept(c, total, 0))
            && (forall m :: m in left ==> exists n :: n in Swept(c, total, 0) && Inside(c, m, n))
            && (left == map[] <==> forall m, n :: m in c && n in c ==> !Inside(c, m, n))
  {
    var c, left := ChunksOf(blobs, session), ChunksOf(Cleaned(blobs, session, total), session);
    SweepCharacterised(c, total, chunkSize);
    assert forall m :: m in left <==> m in c && m !in Swept(c, total, 0);
    if left == map[] {
      assert forall m :: m in c ==> m in Swept(c, total, 0);
      assert Swept(c, total, 0) == c.Keys;
    }
  }
}
