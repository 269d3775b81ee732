/** The file service over the in-memory repository and object store: each operation as a step on rows
    and blobs, and the methods that perform it. */
module FileService {
  import opened Prelude
  import opened Domain
  import opened FileRepository
  import opened MemoryStore
  import opened ObjectStore
  import opened Pages

  datatype Payload = Payload(
    filename: string, mime: string, metadata: Json, owner: string, idem: Option<string>,
    tags: seq<string>, expiresAt: Option<Time>)

  datatype World = World(files: Files, blobs: Blobs)

  // ---------- Operations as steps ----------

  function Validated(tags: seq<string>, expiresAt: Option<Time>, now: Time): Result<bool> {
    if !TagsAccepted(tags) then Err(InvalidRequest)
    else if expiresAt.Some? && expiresAt.value <= now then Err(InvalidRequest)
    else Ok(true)
  }

  predicate EtagRefused(row: FileRow, expected: Option<string>) {
    expected.Some? && row.etag != expected.value
  }

  function NewRow(hs: Hashes, p: Payload, data: Bytes, id: string, now: Time): FileRow {
    Row(id, p.owner, 1, p.idem, FileEtag(hs.text, hs.blob(data), |data|), p.metadata, Normal(p.tags), now, now,
        p.expiresAt, None, FilePayload(p.filename, p.mime, |data|, id, hs.blob(data)))
  }

  /** `_purge_row`. */
  function Purged(w: World, row: FileRow): World {
    match Deleted(w.files, row.id)
    case Ok(files) => World(files, w.blobs - {FileKey(row.payload.path)})
    case Err(_) => w
  }

  /** Insert the row for a stored blob, recount, and roll both back if the owner is over. */
  ghost function Record(lim: Limits, hs: Hashes, w: World, p: Payload, data: Bytes, id: string, now: Time)
    : (World, Result<FileRow>)
  {
    var row := NewRow(hs, p, data, id, now);
    match Created(w.files, row, None)
    case Err(e) => (w, Err(e))
    case Ok(files) =>
      if Over(lim, files.items, p.owner, now) then (w, Err(QuotaExceeded))
      else (World(files, w.blobs[FileKey(id) := data]), Ok(row))
  }

  /** What create does once the idempotency key is known to be free; `create_stream` must come to the
      same. */
  ghost function Insert(lim: Limits, hs: Hashes, w: World, p: Payload, data: Bytes, id: string, now: Time)
    : (World, Result<FileRow>)
  {
    match Governance(lim, w.files.items, p.owner, |data|, p.metadata, now)
    case Err(e) => (w, Err(e))
    case Ok(_) => Record(lim, hs, w, p, data, id, now)
  }

  function Holder(files: Files, idem: Option<string>): Option<FileRow> {
    if idem.Some? && idem.value in files.idem && files.idem[idem.value] in files.items
    then Some(files.items[files.idem[idem.value]]) else None
  }

  /** Validation and the idempotency key, before anything is written: an answer for the caller, or a
      state in which to insert. */
  function Prepared(w: World, p: Payload, now: Time): (World, Option<Result<FileRow>>) {
    var v := Validated(Normal(p.tags), p.expiresAt, now);
    var holder := Holder(w.files, p.idem);
    if v.Err? then (w, Some(Err(v.error)))
    else if holder.None? then (w, None)
    else if holder.value.deletedAt.Some? then (w, Some(Err(Conflict)))
    else if holder.value.Expired(now) then (Purged(w, holder.value), None)
    else (w, Some(Ok(holder.value)))
  }

  ghost function CreateStep(lim: Limits, hs: Hashes, w: World, p: Payload, data: Bytes, id: string, now: Time)
    : (World, Result<FileRow>)
  {
    var (w', answer) := Prepared(w, p, now);
    if answer.Some? then (w', answer.value) else Insert(lim, hs, w', p, data, id, now)
  }

  function Rewritten(w: World, row: FileRow): (World, Result<FileRow>) {
    var (files, r) := Updated(w.files, row, None);
    (World(files, w.blobs), r)
  }

  function Tombstone(row: FileRow, now: Time): FileRow {
    row.(version := row.version + 1, updatedAt := now, deletedAt := Some(now))
  }

  function Revived(row: FileRow, now: Time): FileRow {
    row.(version := row.version + 1, updatedAt := now, deletedAt := None)
  }

  function DeleteStep(w: World, id: string, expected: Option<string>, now: Time): (World, Result<FileRow>) {
    if id !in w.files.items || !w.files.items[id].Live(now) then (w, Err(NotFound))
    else if EtagRefused(w.files.items[id], expected) then (w, Err(PreconditionFailed))
    else
      var row := w.files.items[id];
      Rewritten(w, Tombstone(row, now))
  }

  function RestoreStep(w: World, id: string, expected: Option<string>, now: Time): (World, Result<FileRow>) {
    if id !in w.files.items then (w, Err(NotFound))
    else if w.files.items[id].deletedAt.None? then (w, Err(InvalidRequest))
    else if EtagRefused(w.files.items[id], expected) then (w, Err(PreconditionFailed))
    else if FileKey(w.files.items[id].payload.path) !in w.blobs then (w, Err(Storage))
    else
      var row := w.files.items[id];
      Rewritten(w, Revived(row, now))
  }

  function PurgeStep(w: World, id: string, expected: Option<string>): (World, Result<FileRow>) {
    if id !in w.files.items then (w, Err(NotFound))
    else if EtagRefused(w.files.items[id], expected) then (w, Err(PreconditionFailed))
    else (Purged(w, w.files.items[id]), Ok(w.files.items[id]))
  }

  /** Rows and blobs agree, and so do the two ways to find a row. */
  ghost predicate Sound(hs: Hashes, w: World) {
    && RowsMatchBlobs(hs.blob, w.files.items, w.blobs)
    && IdsAgree(w.files) && IdemAgrees(w.files) && w.files.natural == map[]
  }

  /** What `uuid4` gives: an id nothing stored has. */
  predicate Fresh(w: World, id: string) {
    id !in w.files.items && FileKey(id) !in w.blobs
  }

  // ---------- Every step keeps rows and blobs in agreement ----------

  lemma PurgedSound(hs: Hashes, w: World, row: FileRow)
    requires Sound(hs, w) && row.id in w.files.items && w.files.items[row.id] == row
    ensures Sound(hs, Purged(w, row))
    ensures Purged(w, row).files.items == w.files.items - {row.id}
    ensures forall k :: Truthy(k) && row.idem == k ==> k.value !in Purged(w, row).files.idem
  {
    DeleteKeepsIdem(w.files, row.id);
    RemoveBoth(hs.blob, w.files.items, w.blobs, row.id);
    forall k | Truthy(k) && row.idem == k
      ensures k.value !in Purged(w, row).files.idem
    {
      assert Holds(w.files, row.id, k.value);
    }
  }

  lemma InsertSound(lim: Limits, hs: Hashes, w: World, p: Payload, data: Bytes, id: string, now: Time)
    requires Sound(hs, w) && Fresh(w, id)
    ensures Sound(hs, Insert(lim, hs, w, p, data, id, now).0)
  {
    var row := NewRow(hs, p, data, id, now);
    if Created(w.files, row, None).Ok? {
      CreateKeepsIdem(w.files, row, None);
      AddBoth(hs.blob, w.files.items, w.blobs, row, data);
    }
  }

  lemma PreparedSound(hs: Hashes, w: World, p: Payload, now: Time)
    requires Sound(hs, w)
    ensures Sound(hs, Prepared(w, p, now).0)
    ensures forall id :: Fresh(w, id) ==> Fresh(Prepared(w, p, now).0, id)
    ensures Prepared(w, p, now).1.None? && Truthy(p.idem) ==> p.idem.value !in Prepared(w, p, now).0.files.idem
  {
    var holder := Holder(w.files, p.idem);
    if holder.Some? {
      assert Truthy(p.idem) ==> Holds(w.files, holder.value.id, p.idem.value);
      PurgedSound(hs, w, holder.value);
    } else if p.idem.Some? {
      assert p.idem.value in w.files.idem ==> Holds(w.files, w.files.idem[p.idem.value], p.idem.value);
    }
  }

  lemma CreateSound(lim: Limits, hs: Hashes, w: World, p: Payload, data: Bytes, id: string, now: Time)
    requires Sound(hs, w) && Fresh(w, id)
    ensures Sound(hs, CreateStep(lim, hs, w, p, data, id, now).0)
  {
    PreparedSound(hs, w, p, now);
    if Prepared(w, p, now).1.None? {
      InsertSound(lim, hs, Prepared(w, p, now).0, p, data, id, now);
    }
  }

  function WithRow(w: World, row: FileRow): World {
    World(w.files.(items := w.files.items[row.id := row]), w.blobs)
  }

  /** A new version of a row about the same blob; a row never finds its own key taken. */
  lemma RewrittenSound(hs: Hashes, w: World, row: FileRow)
    requires Sound(hs, w) && row.id in w.files.items
    requires row.payload == w.files.items[row.id].payload && row.idem == w.files.items[row.id].idem
    ensures Rewritten(w, row) == (WithRow(w, row), Ok(row)) && Sound(hs, WithRow(w, row))
  {
    UpdateKeepsIdemIff(w.files, row, None);
    if Truthy(row.idem) {
      assert Holds(w.files, row.id, row.idem.value);
      assert w.files.idem[row.idem.value := row.id] == w.files.idem;
    }
  }

  lemma DeleteSound(hs: Hashes, w: World, id: string, expected: Option<string>, now: Time)
    requires Sound(hs, w)
    ensures Sound(hs, DeleteStep(w, id, expected, now).0)
  {
    if id in w.files.items {
      var row := w.files.items[id];
      RewrittenSound(hs, w, Tombstone(row, now));
    }
  }

  lemma RestoreSound(hs: Hashes, w: World, id: string, expected: Option<string>, now: Time)
    requires Sound(hs, w)
    ensures Sound(hs, RestoreStep(w, id, expected, now).0)
    ensures RestoreStep(w, id, expected, now).1 != Err(Storage)
  {
    if id in w.files.items {
      var row := w.files.items[id];
      RewrittenSound(hs, w, Revived(row, now));
    }
  }

  /** A restore checks no quota: it keeps its owner within the limits if and only if the file has expired
      or there was room for it. */
  lemma RestoreQuotaIff(lim: Limits, hs: Hashes, w: World, id: string, now: Time)
    requires Sound(hs, w) && id in w.files.items && w.files.items[id].deletedAt.Some?
    requires !Over(lim, w.files.items, w.files.items[id].owner, now)
    ensures var row := w.files.items[id];
            !Over(lim, RestoreStep(w, id, None, now).0.files.items, row.owner, now) <==>
              || row.Expired(now)
              || (!NoRoom(lim, w.files.items, row.owner, now)
                  && !NoBytes(lim, w.files.items, row.owner, row.payload.size, now))
  {
    var row, rows := w.files.items[id], w.files.items;
    RewrittenSound(hs, w, Revived(row, now));
    if row.Expired(now) {
      assert LiveSizes(rows[id := Revived(row, now)], row.owner, now) == LiveSizes(rows, row.owner, now);
    } else {
      EntersIff(lim, rows, id, Revived(row, now), now);
    }
  }

  /** The roll-back undoes the insert, in the index as well. */
  lemma RollBackUndoes(hs: Hashes, w: World, row: FileRow)
    requires Sound(hs, w) && Created(w.files, row, None).Ok?
    ensures Deleted(Created(w.files, row, None).value, row.id) == Ok(w.files)
  {
    var created := Created(w.files, row, None).value;
    assert created.items - {row.id} == w.files.items;
    forall k | k in w.files.idem
      ensures w.files.idem[k] != row.id
    {
      assert Holds(w.files, w.files.idem[k], k);
    }
    assert (map k | k in created.idem && created.idem[k] != row.id :: created.idem[k]) == w.files.idem;
  }

  // ---------- What the steps come to ----------

  /** A download, verified against the row. */
  function Downloaded(hs: Hashes, w: World, id: string, now: Time): Result<(FileRow, Bytes)> {
    if id !in w.files.items || !w.files.items[id].Live(now) then Err(NotFound)
    else
      var row := w.files.items[id];
      if FileKey(row.payload.path) !in w.blobs || hs.blob(w.blobs[FileKey(row.payload.path)]) != row.payload.sha256
      then Err(Storage) else Ok((row, w.blobs[FileKey(row.payload.path)]))
  }

  /** Where rows and blobs agree, a download of a live file never fails its check. */
  lemma SoundDownload(hs: Hashes, w: World, id: string, now: Time)
    requires Sound(hs, w) && id in w.files.items && w.files.items[id].Live(now)
    ensures Downloaded(hs, w, id, now) == Ok((w.files.items[id], w.blobs[FileKey(id)]))
    ensures |w.blobs[FileKey(id)]| == w.files.items[id].payload.size
  {
  }

  /** Creating a file comes to one of these: an answer without any insert, a refusal by governance, or
      a new row with exactly the bytes sent stored under its id. The recount takes nothing back, and a
      conflict is only ever with a tombstone's key. */
  lemma CreateOutcome(lim: Limits, hs: Hashes, w: World, p: Payload, data: Bytes, id: string, now: Time)
    requires Sound(hs, w) && Fresh(w, id)
    ensures var (w', r) := CreateStep(lim, hs, w, p, data, id, now);
            var (ready, answer) := Prepared(w, p, now);
            var g := Governance(lim, ready.files.items, p.owner, |data|, p.metadata, now);
            answer.None? ==>
              if g.Err? then (w', r) == (ready, Err(g.error))
              else
                && r == Ok(NewRow(hs, p, data, id, now))
                && w'.files.items == ready.files.items[id := r.value]
                && w'.blobs == ready.blobs[FileKey(id) := data]
  {
    PreparedSound(hs, w, p, now);
    var ready := Prepared(w, p, now).0;
    if Governance(lim, ready.files.items, p.owner, |data|, p.metadata, now).Ok? {
      RecountQuietAlone(lim, ready.files.items, NewRow(hs, p, data, id, now), now);
    }
  }

  /** A validated replay of an idempotency key whose file is live returns that file and changes
      nothing; a tombstone that holds the key is the one reason for a conflict. */
  lemma ReplayReturnsHolder(w: World, hs: Hashes, p: Payload, now: Time, holder: string)
    requires Sound(hs, w) && Truthy(p.idem) && Validated(Normal(p.tags), p.expiresAt, now).Ok?
    ensures Holds(w.files, holder, p.idem.value) && w.files.items[holder].Live(now) ==>
              Prepared(w, p, now) == (w, Some(Ok(w.files.items[holder])))
    ensures Prepared(w, p, now).1 == Some(Err(Conflict)) <==>
              exists x :: Holds(w.files, x, p.idem.value) && w.files.items[x].deletedAt.Some?
  {
    var key := p.idem.value;
    assert forall x :: (key in w.files.idem && w.files.idem[key] == x) <==> Holds(w.files, x, key);
    if key in w.files.idem {
      assert Holds(w.files, w.files.idem[key], key);
    }
  }

  /** Deleting a file keeps its blob, and restoring it brings back the same file, two versions on. */
  lemma DeleteThenRestore(hs: Hashes, w: World, id: string, now: Time, later: Time)
    requires Sound(hs, w) && id in w.files.items && w.files.items[id].Live(now)
    ensures var row := w.files.items[id];
            var back := row.(version := row.version + 2, updatedAt := later);
            && DeleteStep(w, id, None, now) == (WithRow(w, Tombstone(row, now)), Ok(Tombstone(row, now)))
            && RestoreStep(WithRow(w, Tombstone(row, now)), id, None, later) == (WithRow(w, back), Ok(back))
  {
    var row := w.files.items[id];
    var back := row.(version := row.version + 2, updatedAt := later);
    RewrittenSound(hs, w, Tombstone(row, now));
    var deleted := WithRow(w, Tombstone(row, now));
    assert Revived(deleted.files.items[id], later) == back;
    RewrittenSound(hs, deleted, back);
    assert WithRow(deleted, back) == WithRow(w, back);
  }

  // ---------- The service ----------

  class FileService {
    const lim: Limits
    const hs: Hashes
    const files: InMemoryStore<FilePayload>
    const store: MemoryObjectStore

    constructor (lim: Limits, hs: Hashes, files: InMemoryStore<FilePayload>, store: MemoryObjectStore)
      ensures this.lim == lim && this.hs == hs && this.files == files && this.store == store
    {
      this.lim, this.hs, this.files, this.store := lim, hs, files, store;
    }

    ghost function State(): World
      reads files, store
    {
      World(files.State(), store.blobs)
    }

    ghost predicate Valid()
      reads files, store
    {
      Sound(hs, State())
    }

    method PurgeRow(row: FileRow)
      requires row.id in files.items
      modifies files, store
      ensures State() == Purged(old(State()), row)
    {
      var _ := files.Delete(row.id);
      store.Delete(FileKey(row.payload.path));
    }

    method Prepare(p: Payload, now: Time) returns (tags: seq<string>, answer: Option<Result<FileRow>>)
      requires Valid()
      modifies files, store
      ensures Valid() && tags == Normal(p.tags) && (State(), answer) == Prepared(old(State()), p, now)
      ensures forall id :: Fresh(old(State()), id) ==> Fresh(State(), id)
    {
      PreparedSound(hs, State(), p, now);
      tags := NormalizeTags(p.tags);
      if !TagsAccepted(tags) || (p.expiresAt.Some? && p.expiresAt.value <= now) {
        return tags, Some(Err(InvalidRequest));
      }
      answer := None;
      if p.idem.Some? && p.idem.value in files.idem {
        assert Holds(files.State(), files.idem[p.idem.value], p.idem.value);
        var existing := files.items[files.idem[p.idem.value]];
        if existing.deletedAt.Some? {
          return tags, Some(Err(Conflict));
        }
        if !existing.Expired(now) {
          return tags, Some(Ok(existing));
        }
        PurgeRow(existing);
      }
    }

    /** `_enforce_post_write_quota`. */
    method EnforcePostWriteQuota(owner: string, id: string, now: Time) returns (r: Result<bool>)
      modifies files, store
      ensures var over := Over(lim, old(files.items), owner, now);
              && r == (if over then Err(QuotaExceeded) else Ok(true))
              && store.blobs == (if over then old(store.blobs) - {FileKey(id)} else old(store.blobs))
              && (!over || Deleted(old(files.State()), id).Err? ==> files.State() == old(files.State()))
              && (over && Deleted(old(files.State()), id).Ok? ==>
                  files.State() == Deleted(old(files.State()), id).value)
    {
      var over := Recount(lim, files.items, owner, now);
      if !over {
        return Ok(true);
      }
      var _ := files.Delete(id);
      store.Delete(FileKey(id));
      r := Err(QuotaExceeded);
    }

    /** The common end of create and create_stream: the blob is stored, its row is not. */
    method Publish(p: Payload, tags: seq<string>, size: nat, digest: string, id: string, now: Time, ghost data: Bytes)
      returns (r: Result<FileRow>)
      requires Pending(id) && FileKey(id) in store.blobs && store.blobs[FileKey(id)] == data
      requires tags == Normal(p.tags) && size == |data| && digest == hs.blob(data)
      modifies files, store
      ensures (State(), r) ==
              Record(lim, hs, World(old(files.State()), old(store.blobs) - {FileKey(id)}), p, data, id, now)
    {
      ghost var w := World(files.State(), store.blobs - {FileKey(id)});
      var row := Row(id, p.owner, 1, p.idem, FileEtag(hs.text, digest, size), p.metadata, tags, now, now,
                     p.expiresAt, None, FilePayload(p.filename, p.mime, size, id, digest));
      assert row == NewRow(hs, p, data, id, now);
      r := files.Create(row, None);
      if r.Err? {
        store.Delete(FileKey(id));
        return;
      }
      RollBackUndoes(hs, w, row);
      assert w.blobs[FileKey(id) := data] == store.blobs;
      var quota := EnforcePostWriteQuota(p.owner, id, now);
      if quota.Err? {
        r := Err(quota.error);
      }
    }

    /** Valid but for a blob stored under a fresh id, whose row is still to come. */
    ghost predicate Pending(id: string)
      reads files, store
    {
      Sound(hs, World(files.State(), store.blobs - {FileKey(id)})) && id !in files.items
    }

    method Create(p: Payload, data: Bytes, id: string, now: Time) returns (r: Result<FileRow>)
      requires Valid() && Fresh(State(), id)
      modifies files, store
      ensures Valid() && (State(), r) == CreateStep(lim, hs, old(State()), p, data, id, now)
    {
      CreateSound(lim, hs, State(), p, data, id, now);
      var tags, answer := Prepare(p, now);
      if answer.Some? {
        return answer.value;
      }
      r := InsertNew(p, tags, data, id, now);
    }

    method InsertNew(p: Payload, tags: seq<string>, data: Bytes, id: string, now: Time) returns (r: Result<FileRow>)
      requires Valid() && Fresh(State(), id) && tags == Normal(p.tags)
      modifies files, store
      ensures (State(), r) == Insert(lim, hs, old(State()), p, data, id, now)
    {
      var g := CheckGovernance(lim, files.items, p.owner, |data|, p.metadata, now);
      if g.Err? {
        return Err(g.error);
      }
      var digest := hs.blob(data);
      ghost var w := State();
      store.Put(FileKey(id), data);
      assert store.blobs - {FileKey(id)} == w.blobs;
      r := Publish(p, tags, |data|, digest, id, now, data);
    }

    /** `_bounded`: drops empty pieces, keeps the running size and stops past the limit. */
    method Bounded(pieces: seq<Bytes>) returns (r: Result<(seq<Bytes>, nat)>, ghost digested: Bytes)
      ensures r.Ok? <==> lim.maxFile == 0 || |Join(pieces)| <= lim.maxFile
      ensures r.Ok? ==> Join(r.value.0) == Join(pieces) == digested && r.value.1 == |digested|
      ensures r.Err? ==> r.error == PayloadTooLarge
    {
      var kept, size := [], 0;
      digested := [];
      for i := 0 to |pieces|
        invariant Join(kept) == Join(pieces[..i]) == digested && size == |digested|
        invariant lim.maxFile != 0 ==> size <= lim.maxFile
      {
        assert pieces[..i + 1] == pieces[..i] + [pieces[i]];
        JoinAppend(pieces[..i], pieces[i]);
        if pieces[i] != [] {
          size := size + |pieces[i]|;
          if lim.maxFile != 0 && size > lim.maxFile {
            PrefixIsShorter(pieces, i + 1);
            return Err(PayloadTooLarge), digested;
          }
          JoinAppend(kept, pieces[i]);
          kept := kept + [pieces[i]];
          digested := digested + pieces[i];
        }
      }
      assert pieces[..|pieces|] == pieces;
      r := Ok((kept, size));
    }

    /** Streaming comes to exactly what `create` does with the whole content, its limits included. */
    method CreateStream(p: Payload, pieces: seq<Bytes>, id: string, now: Time) returns (r: Result<FileRow>)
      requires Valid() && Fresh(State(), id)
      modifies files, store
      ensures Valid() && (State(), r) == CreateStep(lim, hs, old(State()), p, Join(pieces), id, now)
    {
      CreateSound(lim, hs, State(), p, Join(pieces), id, now);
      var tags, answer := Prepare(p, now);
      if answer.Some? {
        return answer.value;
      }
      r := StreamNew(p, tags, pieces, id, now);
    }

    /** Stores the bounded stream, and hands back its size and digest. */
    method StoreStream(pieces: seq<Bytes>, id: string) returns (r: Result<(nat, string)>)
      modifies store
      ensures r == if lim.maxFile == 0 || |Join(pieces)| <= lim.maxFile then Ok((|Join(pieces)|, hs.blob(Join(pieces))))
                   else Err(PayloadTooLarge)
      ensures store.blobs == if r.Ok? then old(store.blobs)[FileKey(id) := Join(pieces)]
              else old(store.blobs) - {FileKey(id)}
    {
      var bounded, _ := Bounded(pieces);
      if bounded.Err? {
        store.Delete(FileKey(id));
        return Err(bounded.error);
      }
      var (kept, size) := bounded.value;
      store.PutStream(FileKey(id), kept);
      r := Ok((size, hs.blob(Join(kept))));
    }

    method StreamNew(p: Payload, tags: seq<string>, pieces: seq<Bytes>, id: string, now: Time)
        returns (r: Result<FileRow>)
      requires Valid() && Fresh(State(), id) && tags == Normal(p.tags)
      modifies files, store
      ensures (State(), r) == Insert(lim, hs, old(State()), p, Join(pieces), id, now)
    {
      ghost var w, data := State(), Join(pieces);
      var stored := StoreStream(pieces, id);
      assert store.blobs - {FileKey(id)} == w.blobs;
      if stored.Err? {
        assert store.blobs == w.blobs;
        return Err(stored.error);
      }
      var (size, digest) := stored.value;
      r := Govern(p, tags, size, digest, id, now, data);
    }

    /** The second half of create_stream: governance comes after the blob, so a refusal deletes it. */
    method Govern(p: Payload, tags: seq<string>, size: nat, digest: string, id: string, now: Time, ghost data: Bytes)
      returns (r: Result<FileRow>)
      requires Pending(id) && FileKey(id) in store.blobs && store.blobs[FileKey(id)] == data
      requires tags == Normal(p.tags) && size == |data| && digest == hs.blob(data)
      modifies files, store
      ensures (State(), r) ==
              Insert(lim, hs, World(old(files.State()), old(store.blobs) - {FileKey(id)}), p, data, id, now)
    {
      var g := CheckGovernance(lim, files.items, p.owner, size, p.metadata, now);
      if g.Err? {
        store.Delete(FileKey(id));
        return Err(g.error);
      }
      r := Publish(p, tags, size, digest, id, now, data);
      if r.Err? {
        ghost var blobs := store.blobs;
        store.Delete(FileKey(id));
        assert store.blobs == blobs;
      }
    }

    /** `download`, with its integrity check. */
    method Download(id: string, now: Time) returns (r: Result<(FileRow, Bytes)>)
      ensures r == Downloaded(hs, State(), id, now)
    {
      if id !in files.items || !files.items[id].Live(now) {
        return Err(NotFound);
      }
      var row := files.items[id];
      var data := store.Get(FileKey(row.payload.path));
      if data.Err? {
        return Err(data.error);
      }
      if hs.blob(data.value) != row.payload.sha256 {
        return Err(Storage);
      }
      r := Ok((row, data.value));
    }

    /** `download_stream`, read to its end: the digest of the pieces decides. */
    method DownloadStream(id: string, chunkSize: nat, now: Time) returns (r: Result<(FileRow, seq<Bytes>)>)
      requires 0 < chunkSize
      ensures match Downloaded(hs, State(), id, now)
              case Ok((row, data)) => r.Ok? && r.value.0 == row && Join(r.value.1) == data
                  && Slices(r.value.1, chunkSize)
              case Err(e) => r == Err(e)
    {
      if id !in files.items || !files.items[id].Live(now) {
        return Err(NotFound);
      }
      var row := files.items[id];
      var pieces := store.GetStream(FileKey(row.payload.path), chunkSize);
      if pieces.Err? {
        return Err(pieces.error);
      }
      var digested: Bytes := [];
      for i := 0 to |pieces.value|
        invariant digested == Join(pieces.value[..i])
      {
        assert pieces.value[..i + 1] == pieces.value[..i] + [pieces.value[i]];
        JoinAppend(pieces.value[..i], pieces.value[i]);
        digested := digested + pieces.value[i];
      }
      assert pieces.value[..|pieces.value|] == pieces.value;
      if hs.blob(digested) != row.payload.sha256 {
        return Err(Storage);
      }
      r := Ok((row, pieces.value));
    }

    method Write(row: FileRow) returns (r: Result<FileRow>)
      requires Valid() && row.id in files.items
      modifies files
      ensures (State(), r) == Rewritten(old(State()), row)
    {
      r := files.Update(row, None);
    }

    method Delete(id: string, expected: Option<string>, now: Time) returns (r: Result<FileRow>)
      requires Valid()
      modifies files
      ensures Valid() && (State(), r) == DeleteStep(old(State()), id, expected, now)
    {
      DeleteSound(hs, State(), id, expected, now);
      if id !in files.items || !files.items[id].Live(now) {
        return Err(NotFound);
      }
      if EtagRefused(files.items[id], expected) {
        return Err(PreconditionFailed);
      }
      r := Write(Tombstone(files.items[id], now));
    }

    method Restore(id: string, expected: Option<string>, now: Time) returns (r: Result<FileRow>)
      requires Valid()
      modifies files
      ensures Valid() && (State(), r) == RestoreStep(old(State()), id, expected, now)
    {
      RestoreSound(hs, State(), id, expected, now);
      if id !in files.items {
        return Err(NotFound);
      }
      var existing := files.items[id];
      if existing.deletedAt.None? {
        return Err(InvalidRequest);
      }
      if EtagRefused(existing, expected) {
        return Err(PreconditionFailed);
      }
      if FileKey(existing.payload.path) !in store.blobs {
        return Err(Storage);
      }
      r := Write(Revived(existing, now));
    }

    method Purge(id: string, expected: Option<string>) returns (r: Result<FileRow>)
      requires Valid()
      modifies files, store
      ensures Valid() && (State(), r) == PurgeStep(old(State()), id, expected)
    {
      if id !in files.items {
        return Err(NotFound);
      }
      var existing := files.items[id];
      if EtagRefused(existing, expected) {
        return Err(PreconditionFailed);
      }
      PurgedSound(hs, State(), existing);
      PurgeRow(existing);
      r := Ok(existing);
    }

    /** Purges the first `limit` expired files, oldest expiry first, live or tombstoned. */
    method CleanupExpired(now: Time, limit: nat) returns (purged: nat, ghost listing: seq<FileRow>)
      requires Valid()
      modifies files, store
      ensures Valid() && IsListing(listing, old(files.items), ExpiredAt(now), ExpiryTime)
      ensures var ids := Ids(Slice(listing, limit, 0));
              && purged == |ids|
              && files.items == Without(old(files.items), ids)
              && store.blobs == WithoutFiles(old(store.blobs), ids)
      ensures RanOut(old(files.items), files.items, now, limit, purged)
      ensures forall k :: k in old(store.blobs) ==>
                (k in store.blobs <==> !(k.FileKey? && k.id in old(files.items) && k.id !in files.items))
      ensures forall k :: k in store.blobs ==> k in old(store.blobs) && store.blobs[k] == old(store.blobs)[k]
    {
      var expired, _, l := Page(files.items, ExpiredAt(now), ExpiryTime, limit, 0);
      listing := l;
      SliceIds(l, files.items, ExpiredAt(now), ExpiryTime, limit);
      CleanupRunsOut(l, files.items, now, limit);
      purged := PurgeEach(Ids(expired));
    }

    /** The purging loop; a row already gone would be skipped and not counted. */
    method PurgeEach(ids: seq<string>) returns (purged: nat)
      requires Valid() && Distinct(ids) && forall i :: 0 <= i < |ids| ==> ids[i] in files.items
      modifies files, store
      ensures Valid() && purged == |ids|
      ensures files.items == Without(old(files.items), ids)
      ensures store.blobs == WithoutFiles(old(store.blobs), ids)
    {
      purged := 0;
      for i := 0 to |ids|
        invariant Valid() && purged == i
        invariant files.items == Without(old(files.items), ids[..i])
        invariant store.blobs == WithoutFiles(old(store.blobs), ids[..i])
      {
        WithoutOneMore(old(State()), ids, i);
        PurgedSound(hs, State(), files.items[ids[i]]);
        if ids[i] in files.items {
          PurgeRow(files.items[ids[i]]);
          purged := purged + 1;
        }
      }
      assert ids[..|ids|] == ids;
    }
  }

  lemma WithoutOneMore(w: World, ids: seq<string>, i: nat)
    requires i < |ids| && Distinct(ids)
    ensures ids[i] in w.files.items ==> ids[i] in Without(w.files.items, ids[..i])
    ensures Without(w.files.items, ids[..i + 1]) == Without(w.files.items, ids[..i]) - {ids[i]}
    ensures WithoutFiles(w.blobs, ids[..i + 1]) == WithoutFiles(w.blobs, ids[..i]) - {FileKey(ids[i])}
  {
    assert ids[..i + 1] == ids[..i] + [ids[i]];
  }

  function WithoutFiles(blobs: Blobs, ids: seq<string>): Blobs {
    map k | k in blobs && !(k.FileKey? && k.id in ids) :: blobs[k]
  }

  lemma PrefixIsShorter(pieces: seq<Bytes>, n: nat)
    requires n <= |pieces|
    ensures |Join(pieces[..n])| <= |Join(pieces)|
    decreases |pieces| - n
  {
    if n < |pieces| {
      PrefixIsShorter(pieces, n + 1);
      assert pieces[..n + 1] == pieces[..n] + [pieces[n]];
      JoinAppend(pieces[..n], pieces[n]);
    } else {
      assert pieces[..n] == pieces;
    }
  }

  // ---------- Runs ----------

  datatype Op =
    | Create(p: Payload, data: Bytes, id: string, now: Time)
    | Delete(id: string, expected: Option<string>, now: Time)
    | Restore(id: string, expected: Option<string>, now: Time)
    | Purge(id: string, expected: Option<string>)

  /** A create under an id in use is not a call the service makes. */
  ghost function Apply(lim: Limits, hs: Hashes, w: World, op: Op): World {
    match op
    case Create(p, data, id, now) => if Fresh(w, id) then CreateStep(lim, hs, w, p, data, id, now).0 else w
    case Delete(id, expected, now) => DeleteStep(w, id, expected, now).0
    case Restore(id, expected, now) => RestoreStep(w, id, expected, now).0
    case Purge(id, expected) => PurgeStep(w, id, expected).0
  }

  ghost function Run(lim: Limits, hs: Hashes, ops: seq<Op>): World {
    if ops == [] then World(Store(map[], map[], map[]), map[])
    else Apply(lim, hs, Run(lim, hs, ops[..|ops| - 1]), ops[|ops| - 1])
  }

  lemma ApplySound(lim: Limits, hs: Hashes, w: World, op: Op)
    requires Sound(hs, w)
    ensures Sound(hs, Apply(lim, hs, w, op))
  {
    match op
    case Create(p, data, id, now) =>
      if Fresh(w, id) {
        CreateSound(lim, hs, w, p, data, id, now);
      }
    case Delete(id, expected, now) => DeleteSound(hs, w, id, expected, now);
    case Restore(id, expected, now) => RestoreSound(hs, w, id, expected, now);
    case Purge(id, expected) =>
      if id in w.files.items {
        PurgedSound(hs, w, w.files.items[id]);
      }
  }

  /** After every run of operations, successful or refused, rows and blobs are in bijection, at most one
      row holds an idempotency key, and a download of a live file never fails its check: it returns the
      stored bytes, as many as the row says. */
  lemma {:induction false} RunSound(lim: Limits, hs: Hashes, ops: seq<Op>)
    ensures Sound(hs, Run(lim, hs, ops))
    ensures forall id, now :: var w := Run(lim, hs, ops);
              id in w.files.items && w.files.items[id].Live(now) ==>
                && FileKey(id) in w.blobs && |w.blobs[FileKey(id)]| == w.files.items[id].payload.size
                && Downloaded(hs, w, id, now) == Ok((w.files.items[id], w.blobs[FileKey(id)]))
  {
    if ops != [] {
      RunSound(lim, hs, ops[..|ops| - 1]);
      ApplySound(lim, hs, Run(lim, hs, ops[..|ops| - 1]), ops[|ops| - 1]);
    }
    var w := Run(lim, hs, ops);
    forall id, now | id in w.files.items && w.files.items[id].Live(now)
      ensures FileKey(id) in w.blobs && |w.blobs[FileKey(id)]| == w.files.items[id].payload.size
      ensures Downloaded(hs, w, id, now) == Ok((w.files.items[id], w.blobs[FileKey(id)]))
    {
      SoundDownload(hs, w, id, now);
    }
  }
}
