/** The resumable upload service, one call at a time, over the in-memory stores. */
module Uploads {
  import opened Prelude
  import opened Domain
  import opened FileRepository
  import opened FileService
  import opened MemoryStore
  import opened ObjectStore
  import opened Pages
  import opened UploadLayout
  import opened UploadSteps

  // ---------- The loops over one session's chunks ----------

  /** `_received`. */
  method CountReceived(store: MemoryObjectStore, session: string, total: nat) returns (received: nat)
    ensures received == Received(ChunksOf(store.blobs, session), total)
  {
    ghost var c := ChunksOf(store.blobs, session);
    received := 0;
    var offset := 0;
    while offset < total
      invariant received == offset && WalkEnd(c, total, 0) == WalkEnd(c, total, offset)
      decreases total - offset
    {
      if ChunkKey(session, offset) !in store.blobs {
        break;
      }
      var size := |store.blobs[ChunkKey(session, offset)]|;
      received := received + size;
      if size == 0 {
        break;
      }
      offset := offset + size;
      if offset > total {
        break;
      }
    }
    assert WalkEnd(c, total, 0) == offset;
    received := if received < total then received else total;
  }

  /** The layout finalize validates before it streams anything. */
  method BuildLayout(store: MemoryObjectStore, session: string, total: nat) returns (r: Result<seq<nat>>)
    ensures r == Layout(ChunksOf(store.blobs, session), total, 0) && (r.Err? ==> r.error == InvalidRequest)
  {
    ghost var c := ChunksOf(store.blobs, session);
    var layout: seq<nat> := [];
    var offset := 0;
    assert Prefixed([], Layout(c, total, 0)) == Layout(c, total, 0) by {
      if Layout(c, total, 0).Ok? {
        assert [] + Layout(c, total, 0).value == Layout(c, total, 0).value;
      }
    }
    while offset < total
      invariant offset <= total
      invariant Layout(c, total, 0) == Prefixed(layout, Layout(c, total, offset))
      decreases total - offset
    {
      if ChunkKey(session, offset) !in store.blobs {
        return Err(InvalidRequest);
      }
      var size := |store.blobs[ChunkKey(session, offset)]|;
      if size == 0 || offset + size > total {
        return Err(InvalidRequest);
      }
      PrefixedStep(layout, offset, Layout(c, total, offset + size));
      layout := layout + [offset];
      offset := offset + size;
    }
    assert layout + [] == layout;
    r := Ok(layout);
  }

  function Prefixed(done: seq<nat>, rest: Result<seq<nat>>): Result<seq<nat>> {
    match rest
    case Ok(layout) => Ok(done + layout)
    case Err(e) => Err(e)
  }

  lemma PrefixedStep(done: seq<nat>, o: nat, rest: Result<seq<nat>>)
    ensures Prefixed(done, Prefixed([o], rest)) == Prefixed(done + [o], rest)
  {
    if rest.Ok? {
      assert done + ([o] + rest.value) == done + [o] + rest.value;
    }
  }

  const CHUNK_SIZE := 1048576

  lemma {:induction false} JoinConcat(a: seq<Bytes>, b: seq<Bytes>)
    ensures Join(a + b) == Join(a) + Join(b)
  {
    if a == [] {
      assert a + b == b;
    } else {
      assert (a + b)[1..] == a[1..] + b;
      JoinConcat(a[1..], b);
    }
  }

  lemma AssembledStep(c: Chunks, layout: seq<nat>, i: nat)
    requires i < |layout| && AllStored(c, layout[..i]) && layout[i] in c
    ensures AllStored(c, layout[..i + 1])
    ensures Join(Assembled(c, layout[..i + 1])) == Join(Assembled(c, layout[..i])) + c[layout[i]]
  {
    assert layout[..i + 1] == layout[..i] + [layout[i]];
    assert Assembled(c, layout[..i + 1]) == Assembled(c, layout[..i]) + [c[layout[i]]];
    JoinAppend(Assembled(c, layout[..i]), c[layout[i]]);
  }

  /** `_stream` into `put_stream`: the chunks of the layout, re-cut, digested and written as one blob.
      If a chunk has gone the file key is deleted. */
  method StreamToFile(store: MemoryObjectStore, h: Hash, session: string, layout: seq<nat>, id: string)
    returns (r: Result<string>)
    modifies store
    ensures var c := old(ChunksOf(store.blobs, session));
            if AllStored(c, layout)
            then r == Ok(h(Join(Assembled(c, layout))))
                && store.blobs == old(store.blobs)[FileKey(id) := Join(Assembled(c, layout))]
            else r == Err(Storage) && store.blobs == old(store.blobs) - {FileKey(id)}
  {
    ghost var c := ChunksOf(store.blobs, session);
    var pieces: seq<Bytes> := [];
    for i := 0 to |layout|
      invariant store.blobs == old(store.blobs)
      invariant AllStored(c, layout[..i])
      invariant Join(pieces) == Join(Assembled(c, layout[..i]))
    {
      var slices := store.GetStream(ChunkKey(session, layout[i]), CHUNK_SIZE);
      if slices.Err? {
        store.Delete(FileKey(id));
        return Err(slices.error);
      }
      AssembledStep(c, layout, i);
      JoinConcat(pieces, slices.value);
      pieces := pieces + slices.value;
    }
    assert layout[..|layout|] == layout;
    store.PutStream(FileKey(id), pieces);
    r := Ok(h(Join(pieces)));
  }

  // ---------- The sweep ----------

  /** `_advance_probe` on a listable store: the least stored offset past `offset`. */
  method AdvanceProbe(store: MemoryObjectStore, session: string, offset: nat) returns (next: Option<nat>)
    ensures next.None? ==> forall o: nat :: offset < o ==> ChunkKey(session, o) !in store.blobs
    ensures next.Some? ==> offset < next.value && ChunkKey(session, next.value) in store.blobs
    ensures next.Some? ==> forall o: nat :: offset < o < next.value ==> ChunkKey(session, o) !in store.blobs
  {
    next := None;
    var pending := store.blobs.Keys;
    while pending != {}
      invariant pending <= store.blobs.Keys
      invariant next.None? ==> forall o: nat :: offset < o ==> ChunkKey(session, o) !in store.blobs.Keys - pending
      invariant next.Some? ==> offset < next.value && ChunkKey(session, next.value) in store.blobs
      invariant next.Some? ==> forall o: nat :: offset < o < next.value ==>
               ChunkKey(session, o) !in store.blobs.Keys - pending
      decreases |pending|
    {
      var k :| k in pending;
      pending := pending - {k};
      if k.ChunkKey? && k.session == session && k.offset > offset {
        if next.None? || k.offset < next.value {
          next := Some(k.offset);
        }
      }
    }
  }

  /** Part-way through the sweep of `was`: `done` is deleted, `offset` is next. */
  ghost predicate Sweeping(was: Blobs, session: string, total: nat, done: set<nat>, offset: nat, blobs: Blobs) {
    SweptSoFar(ChunksOf(was, session), total, done, offset) && blobs == Dropped(was, session, done)
  }

  ghost predicate SweptSoFar(c: Chunks, total: nat, done: set<nat>, offset: nat) {
    Swept(c, total, 0) == done + Swept(c, total, offset) && forall o :: o in done ==> o < offset
  }

  lemma DroppedOne(was: Blobs, session: string, done: set<nat>, o: nat)
    ensures Dropped(was, session, done + {o}) == Dropped(was, session, done) - {ChunkKey(session, o)}
  {
  }

  lemma SweptHere(c: Chunks, total: nat, o: nat, done: set<nat>)
    requires SweptSoFar(c, total, done, o) && o in c && o <= total
    ensures SweptSoFar(c, total, done + {o}, o + Span(c[o]))
  {
    SweptStep(c, total, o, o);
    assert done + ({o} + Swept(c, total, o + Span(c[o]))) == done + {o} + Swept(c, total, o + Span(c[o]));
  }

  lemma SweepDeletes(was: Blobs, session: string, total: nat, done: set<nat>, o: nat, blobs: Blobs)
    requires Sweeping(was, session, total, done, o, blobs) && o <= total && ChunkKey(session, o) in blobs
    ensures Sweeping(was, session, total, done + {o}, o + Span(blobs[ChunkKey(session, o)]),
            blobs - {ChunkKey(session, o)})
  {
    SweptHere(ChunksOf(was, session), total, o, done);
    DroppedOne(was, session, done, o);
  }

  lemma SweepProbes(was: Blobs, session: string, total: nat, done: set<nat>, o: nat, n: nat, blobs: Blobs)
    requires Sweeping(was, session, total, done, o, blobs) && o < n
    requires ChunkKey(session, o) !in blobs && ChunkKey(session, n) in blobs
    requires forall m: nat :: o < m < n ==> ChunkKey(session, m) !in blobs
    ensures Sweeping(was, session, total, done, n, blobs)
  {
    var c := ChunksOf(was, session);
    assert IsNext(c, o, n) by {
      forall m: nat | m in c && o <= m
        ensures n <= m
      {
        assert ChunkKey(session, m) in blobs;
      }
    }
    SweptStep(c, total, o, n);
    SweptStep(c, total, n, n);
  }

  lemma SweepEnds(was: Blobs, session: string, total: nat, done: set<nat>, o: nat, blobs: Blobs)
    requires Sweeping(was, session, total, done, o, blobs)
    requires forall m: nat :: o <= m <= total ==> ChunkKey(session, m) !in blobs
    ensures blobs == Cleaned(was, session, total)
  {
    var c := ChunksOf(was, session);
    forall m | m in c && o <= m
      ensures total < m
    {
      assert ChunkKey(session, m) in blobs;
    }
    assert Swept(c, total, o) == {};
    assert done + {} == done;
  }

  /** `_cleanup_chunks`: `seen_empty` never stops it, and it deletes exactly the swept chunks of this
      session. */
  method CleanupChunks(store: MemoryObjectStore, session: string, total: nat)
    modifies store
    ensures store.blobs == Cleaned(old(store.blobs), session, total)
  {
    ghost var was, done: set<nat> := store.blobs, {};
    var offset, seenEmpty := 0, 0;
    assert store.blobs == Dropped(was, session, done);
    while offset <= total && seenEmpty < 3
      invariant seenEmpty <= 1 && (seenEmpty == 1 ==> ChunkKey(session, offset) in store.blobs)
      invariant Sweeping(was, session, total, done, offset, store.blobs)
      decreases total + 1 - offset
    {
      if ChunkKey(session, offset) in store.blobs {
        SweepDeletes(was, session, total, done, offset, store.blobs);
        var size := |store.blobs[ChunkKey(session, offset)]|;
        store.Delete(ChunkKey(session, offset));
        done := done + {offset};
        offset := offset + if size < 1 then 1 else size;
        seenEmpty := 0;
      } else {
        var advanced := AdvanceProbe(store, session, offset);
        if advanced.None? {
          break;
        }
        SweepProbes(was, session, total, done, offset, advanced.value, store.blobs);
        offset := advanced.value;
        seenEmpty := seenEmpty + 1;
      }
    }
    SweepEnds(was, session, total, done, offset, store.blobs);
  }

  // ---------- Sessions ----------

  class UploadSession {
    const info: Info
    var status: Status
    var received: nat

    constructor (s: Session)
      ensures Value() == s
    {
      info, status, received := s.info, s.status, s.received;
    }

    function Value(): Session
      reads this
    {
      Session(info, status, received)
    }
  }

  /** `InMemoryUploadSessionRepository`: one shared object per session. */
  class UploadSessions {
    var sessions: map<string, UploadSession>

    constructor ()
      ensures sessions == map[]
    {
      sessions := map[];
    }

    /** The sessions by id, as values. */
    ghost function Book(): Book
      reads this, sessions.Values
    {
      map id | id in sessions :: sessions[id].Value()
    }

    ghost predicate OneEach()
      reads this
    {
      forall id :: id in sessions ==> sessions[id].info.id == id
    }

    method Create(s: Session) returns (r: Result<UploadSession>)
      requires OneEach()
      modifies this
      ensures OneEach()
      ensures Book() == if s.info.id in old(Book()) then old(Book()) else old(Book())[s.info.id := s]
      ensures if s.info.id in old(Book()) then r == Err(Conflict) else r.Ok? && fresh(r.value) && r.value.Value() == s
    {
      if s.info.id in sessions {
        return Err(Conflict);
      }
      var session := new UploadSession(s);
      sessions := sessions[s.info.id := session];
      r := Ok(session);
    }

    method Get(id: string) returns (r: Result<UploadSession>)
      ensures r == if id in sessions then Ok(sessions[id]) else Err(NotFound)
    {
      r := if id in sessions then Ok(sessions[id]) else Err(NotFound);
    }

    /** Writes to the shared object, which the repository's `update` then finds already in place. */
    method Write(s: UploadSession, status: Status, received: nat)
      requires OneEach() && s.info.id in sessions && sessions[s.info.id] == s
      modifies s
      ensures s.Value() == Session(s.info, status, received)
      ensures Book() == old(Book())[s.info.id := s.Value()]
    {
      s.status, s.received := status, received;
    }

    method CompareAndSetStatus(id: string, expected: Status, next: Status) returns (r: Result<bool>)
      requires OneEach()
      modifies if id in sessions then {sessions[id]} else {}
      ensures r == if id in sessions then Ok(old(sessions[id].status) == expected) else Err(NotFound)
      ensures Book() == if r == Ok(true) then old(Book())[id := old(Book())[id].(status := next)] else old(Book())
    {
      if id !in sessions {
        return Err(NotFound);
      }
      if sessions[id].status != expected {
        return Ok(false);
      }
      Write(sessions[id], next, sessions[id].received);
      r := Ok(true);
    }

    method Delete(id: string) returns (r: Result<bool>)
      requires OneEach()
      modifies this
      ensures OneEach() && r == if id in old(sessions) then Ok(true) else Err(NotFound)
      ensures sessions == old(sessions) - {id} && Book() == old(Book()) - {id}
    {
      if id !in sessions {
        return Err(NotFound);
      }
      sessions := sessions - {id};
      r := Ok(true);
    }
  }

  // ---------- The service ----------

  class UploadService {
    const fs: FileService
    const repo: UploadSessions

    constructor (fs: FileService, repo: UploadSessions)
      ensures this.fs == fs && this.repo == repo
    {
      this.fs, this.repo := fs, repo;
    }

    /** `get`: an active, unexpired session; an active one found expired is marked so. */
    method Get(id: string, now: Time) returns (r: Result<UploadSession>)
      requires repo.OneEach()
      modifies if id in repo.sessions then {repo.sessions[id]} else {}
      ensures r == if Open(old(repo.Book()), id, now) then Ok(repo.sessions[id]) else Err(NotFound)
      ensures repo.Book() == Lapsed(old(repo.Book()), id, now)
    {
      var got := repo.Get(id);
      if got.Err? {
        return Err(got.error);
      }
      var s := got.value;
      if s.status != Active || s.info.expiresAt <= now {
        if s.status == Active && s.info.expiresAt <= now {
          repo.Write(s, Expired, s.received);
        }
        return Err(NotFound);
      }
      r := Ok(s);
    }

    method PutChunk(id: string, offset: int, data: Bytes, now: Time) returns (r: Result<Session>)
      requires repo.OneEach()
      modifies fs.store, if id in repo.sessions then {repo.sessions[id]} else {}
      ensures (fs.store.blobs, repo.Book(), r) == PutStep(old(fs.store.blobs), old(repo.Book()), id, offset, data, now)
    {
      var got := Get(id, now);
      if got.Err? {
        return Err(got.error);
      }
      var s := got.value;
      if data == [] {
        return Err(InvalidRequest);
      }
      if offset < 0 || offset + |data| > s.info.total {
        return Err(InvalidRequest);
      }
      var isFinal := offset + |data| == s.info.total;
      if !isFinal && |data| != s.info.chunkSize {
        return Err(InvalidRequest);
      }
      if |data| > MAX_CHUNK {
        return Err(InvalidRequest);
      }
      var key := ChunkKey(id, offset);
      if key in fs.store.blobs {
        if fs.store.blobs[key] == data {
          return Ok(s.Value());
        }
        return Err(Conflict);
      }
      r := StoreChunk(s, offset, data);
    }

    method StoreChunk(s: UploadSession, offset: nat, data: Bytes) returns (r: Result<Session>)
      requires repo.OneEach() && s.info.id in repo.sessions && repo.sessions[s.info.id] == s
      modifies fs.store, s
      ensures fs.store.blobs == old(fs.store.blobs)[ChunkKey(s.info.id, offset) := data]
      ensures var v := old(s.Value()).(received := Received(ChunksOf(fs.store.blobs, s.info.id), s.info.total));
              repo.Book() == old(repo.Book())[s.info.id := v] && r == Ok(v)
    {
      fs.store.Put(ChunkKey(s.info.id, offset), data);
      var received := CountReceived(fs.store, s.info.id, s.info.total);
      repo.Write(s, s.status, received);
      r := Ok(s.Value());
    }

    /** `create`, with the id `uuid4` gives. */
    method Create(q: Request, id: string, now: Time) returns (r: Result<UploadSession>)
      requires repo.OneEach() && id !in repo.sessions
      modifies repo
      ensures repo.OneEach()
      ensures match NewSession(fs.lim, q, id, now)
              case Ok(s) => r.Ok? && r.value.Value() == s && repo.Book() == old(repo.Book())[id := s]
              case Err(e) => r == Err(e) && repo.Book() == old(repo.Book())
    {
      if q.total < 0 {
        return Err(InvalidRequest);
      }
      if !(MIN_CHUNK <= q.chunkSize <= MAX_CHUNK) {
        return Err(InvalidRequest);
      }
      if fs.lim.maxFile != 0 && q.total > fs.lim.maxFile {
        return Err(PayloadTooLarge);
      }
      var tags := NormalizeTags(q.tags);
      if !TagsAccepted(tags) {
        return Err(InvalidRequest);
      }
      var info := Info(id, q.owner, OrElse(q.filename, "unnamed"), OrElse(q.contentType, "application/octet-stream"),
                       q.total, q.chunkSize, q.checksum, q.metadata, tags, now + MAX_SESSION_SECONDS);
      r := repo.Create(Session(info, Active, 0));
    }

    /** Finalize up to the point where it has moved the status to "finalizing". */
    method Claim(id: string, now: Time) returns (r: Result<UploadSession>)
      requires repo.OneEach()
      modifies if id in repo.sessions then {repo.sessions[id]} else {}
      ensures var book := old(repo.Book());
              if Open(book, id, now)
              then r == Ok(repo.sessions[id]) && repo.Book() == book[id := book[id].(status := Finalizing)]
              else repo.Book() == Lapsed(book, id, now)
                   && r == Err(if id in book && book[id].status != Active then Conflict else NotFound)
    {
      var got := repo.Get(id);
      if got.Err? {
        return Err(got.error);
      }
      var s := got.value;
      if s.status != Active {
        return Err(Conflict);
      }
      if s.info.expiresAt <= now {
        repo.Write(s, Expired, s.received);
        return Err(NotFound);
      }
      var won := repo.CompareAndSetStatus(id, Active, Finalizing);
      assert won == Ok(true); // alone; UploadProtocol has the losers
      r := repo.Get(id);
    }

    /** The checks between the compare-and-set and the blob write; they write nothing. */
    method Checked(i: Info, now: Time) returns (r: Result<seq<nat>>)
      ensures match Layout(ChunksOf(fs.store.blobs, i.id), i.total, 0)
              case Err(_) => r == Err(InvalidRequest)
              case Ok(layout) =>
                var g := Governance(fs.lim, fs.files.items, i.owner, i.total, i.metadata, now);
                r == if g.Ok? then Ok(layout) else Err(g.error)
    {
      r := BuildLayout(fs.store, i.id, i.total);
      if r.Ok? {
        var g := CheckGovernance(fs.lim, fs.files.items, i.owner, i.total, i.metadata, now);
        if g.Err? {
          r := Err(g.error);
        }
      }
    }

    /** From the layout to the post-write check, and the status to leave. */
    method Attempted(i: Info, fileId: string, now: Time) returns (r: Result<FileRow>, status: Status)
      requires fs.Valid() && Fresh(fs.State(), fileId) && Normal(i.tags) == i.tags
      modifies fs.files, fs.store
      ensures (fs.State(), r, status) == Attempt(fs.lim, fs.hs, old(fs.State()), i, fileId, now)
      ensures repo.Book() == old(repo.Book())
    {
      var layout := Checked(i, now);
      if layout.Err? {
        return Err(layout.error), Finalizing;
      }
      r, status := Streamed(i, layout.value, fileId, now);
    }

    method Streamed(i: Info, layout: seq<nat>, fileId: string, now: Time) returns (r: Result<FileRow>, status: Status)
      requires fs.Valid() && Fresh(fs.State(), fileId) && Normal(i.tags) == i.tags
      requires Layout(ChunksOf(fs.store.blobs, i.id), i.total, 0) == Ok(layout)
      modifies fs.files, fs.store
      ensures var data := WalkBytes(ChunksOf(old(fs.store.blobs), i.id), i.total, 0);
              (fs.State(), r, status) == Closing(fs.lim, fs.hs, old(fs.State()), i, data, fileId, now)
    {
      ghost var w := fs.State();
      LayoutIsWalk(ChunksOf(w.blobs, i.id), i.total, 0);
      ghost var data := WalkBytes(ChunksOf(w.blobs, i.id), i.total, 0);
      var digest := StreamToFile(fs.store, fs.hs.blob, i.id, layout, fileId);
      r, status := Closed(i, digest.value, fileId, now, w, data);
    }

    method Closed(i: Info, digest: string, fileId: string, now: Time, ghost w: World, ghost data: Bytes)
      returns (r: Result<FileRow>, status: Status)
      requires Sound(fs.hs, w) && Fresh(w, fileId) && Normal(i.tags) == i.tags
      requires fs.State() == World(w.files, w.blobs[FileKey(fileId) := data])
      requires |data| == i.total && digest == fs.hs.blob(data)
      modifies fs.files, fs.store
      ensures (fs.State(), r, status) == Closing(fs.lim, fs.hs, w, i, data, fileId, now)
    {
      assert fs.store.blobs - {FileKey(fileId)} == w.blobs;
      if ChecksumRefused(i.checksum, digest) {
        fs.store.Delete(FileKey(fileId));
        return Err(InvalidRequest), Active;
      }
      r := fs.Publish(SessionPayload(i), i.tags, i.total, digest, fileId, now, data);
      status := if r.Ok? then Finalized else Active;
    }

    method Finalize(id: string, fileId: string, now: Time) returns (r: Result<FileRow>)
      requires repo.OneEach() && fs.Valid() && Fresh(fs.State(), fileId)
      requires id in repo.sessions ==> Normal(repo.sessions[id].info.tags) == repo.sessions[id].info.tags
      modifies fs.files, fs.store, repo, if id in repo.sessions then {repo.sessions[id]} else {}
      ensures repo.OneEach()
      ensures (fs.State(), repo.Book(), r) ==
              FinalizeStep(fs.lim, fs.hs, old(fs.State()), old(repo.Book()), id, fileId, now)
    {
      ghost var book := repo.Book();
      var claimed := Claim(id, now);
      if claimed.Err? {
        return Err(claimed.error);
      }
      ghost var claim, w := book[id := book[id].(status := Finalizing)], fs.State();
      r := Finish(claimed.value, fileId, now);
      LastWriteStays(book, id, claim[id],
          claim[id].(status := Attempt(fs.lim, fs.hs, w, book[id].info, fileId, now).2));
    }

    /** After the compare-and-set: the attempt, the status it leaves, and the clean-up of a success. */
    method Finish(s: UploadSession, fileId: string, now: Time) returns (r: Result<FileRow>)
      requires repo.OneEach() && s.info.id in repo.sessions && repo.sessions[s.info.id] == s
      requires fs.Valid() && Fresh(fs.State(), fileId) && Normal(s.info.tags) == s.info.tags
      modifies fs.files, fs.store, repo, s
      ensures repo.OneEach()
      ensures var (w, answer, status) := Attempt(fs.lim, fs.hs, old(fs.State()), s.info, fileId, now);
              && r == answer
              && fs.State() == (if r.Ok? then AfterSweep(w, s.info) else w)
              && repo.Book() == if r.Ok? then old(repo.Book()) - {s.info.id}
                                else old(repo.Book())[s.info.id := old(s.Value()).(status := status)]
    {
      var status;
      r, status := Attempted(s.info, fileId, now);
      if r.Err? {
        SetStatus(s, status, s.received);
        return;
      }
      LastWriteStays(repo.Book(), s.info.id, Session(s.info, status, s.info.total), s.Value());
      SetStatus(s, status, s.info.total);
      Remove(s.info);
    }

    method SetStatus(s: UploadSession, status: Status, received: nat)
      requires repo.OneEach() && s.info.id in repo.sessions && repo.sessions[s.info.id] == s
      modifies s
      ensures fs.State() == old(fs.State())
      ensures repo.Book() == old(repo.Book())[s.info.id := Session(s.info, status, received)]
    {
      repo.Write(s, status, received);
    }

    lemma LastWriteStays(book: Book, id: string, a: Session, b: Session)
      ensures book[id := a][id := b] == book[id := b] && book[id := a] - {id} == book - {id}
    {
    }

    /** The sweep and the removal of one session. */
    method Remove(i: Info)
      requires repo.OneEach()
      modifies fs.store, repo
      ensures repo.OneEach()
      ensures repo.Book() == old(repo.Book()) - {i.id} && repo.sessions == old(repo.sessions) - {i.id}
      ensures fs.State() == AfterSweep(old(fs.State()), i)
    {
      CleanupChunks(fs.store, i.id, i.total);
      var _ := repo.Delete(i.id);
    }

    method Cancel(id: string) returns (r: Result<bool>)
      requires repo.OneEach()
      modifies fs.store, repo
      ensures repo.OneEach()
      ensures (fs.State(), repo.Book(), r) == CancelStep(old(fs.State()), old(repo.Book()), id)
      ensures repo.sessions == old(repo.sessions) - {id}
    {
      var got := repo.Get(id);
      if got.Err? {
        return Err(got.error);
      }
      Remove(got.value.info);
      r := Ok(true);
    }

    /** Sweeps and removes the first `limit` expired sessions still active, oldest expiry first. */
    method CleanupExpired(now: Time, limit: nat) returns (count: nat, ghost listing: seq<Row<Status>>)
      requires repo.OneEach()
      modifies fs.store, repo
      ensures repo.OneEach()
      ensures IsListing(listing, AsRows(old(repo.Book())), DueAt(now), ExpiryTime)
      ensures var ids := Ids(Slice(listing, limit, 0));
              && count == |ids|
              && (fs.State(), repo.Book()) == SweepAll(old(fs.State()), old(repo.Book()), ids)
      ensures SessionsRanOut(old(repo.Book()), repo.Book(), now, limit, count)
      ensures forall k :: k in old(fs.store.blobs) && k !in fs.store.blobs ==>
                k.ChunkKey? && k.session in old(repo.Book()) && k.session !in repo.Book()
      ensures forall k :: k in fs.store.blobs ==>
                k in old(fs.store.blobs) && fs.store.blobs[k] == old(fs.store.blobs)[k]
    {
      var due;
      due, listing := ListExpired(now, limit);
      CleanupSessions(fs.State(), repo.Book(), Ids(due), now, limit);
      SweepAllRemoves(fs.State(), repo.Book(), Ids(due));
      count := SweepEach(Ids(due));
    }

    /** `list_expired`. */
    method ListExpired(now: Time, limit: nat) returns (due: seq<Row<Status>>, ghost listing: seq<Row<Status>>)
      requires repo.OneEach()
      ensures IsListing(listing, AsRows(repo.Book()), DueAt(now), ExpiryTime) && due == Slice(listing, limit, 0)
      ensures Distinct(Ids(due)) && forall i :: 0 <= i < |Ids(due)| ==> Ids(due)[i] in repo.sessions
      ensures FirstAbandoned(repo.Book(), Ids(due), now, limit)
    {
      var rows := map id | id in repo.sessions :: AsRow(repo.sessions[id].Value());
      assert rows == AsRows(repo.Book());
      var total;
      due, total, listing := Page(rows, DueAt(now), ExpiryTime, limit, 0);
      SliceIds(listing, rows, DueAt(now), ExpiryTime, limit);
      ListedFirst(repo.Book(), listing, now, limit);
    }

    /** The loop of cleanup_expired; a session already gone would be skipped and not counted. */
    method SweepEach(ids: seq<string>) returns (count: nat)
      requires repo.OneEach() && Distinct(ids) && forall i :: 0 <= i < |ids| ==> ids[i] in repo.sessions
      modifies fs.store, repo
      ensures repo.OneEach() && count == |ids|
      ensures (fs.State(), repo.Book()) == SweepAll(old(fs.State()), old(repo.Book()), ids)
    {
      ghost var w, book := fs.State(), repo.Book();
      count := 0;
      for i := 0 to |ids|
        invariant repo.OneEach() && count == i
        invariant forall j :: i <= j < |ids| ==> ids[j] in repo.sessions
        invariant (fs.State(), repo.Book()) == SweepAll(w, book, ids[..i])
      {
        SweepAllStep(w, book, ids, i);
        var c := Cancel(ids[i]);
        if c.Ok? {
          count := count + 1;
        }
      }
      assert ids[..|ids|] == ids;
    }
  }
}
