/** What the file operations come to, field by field: who is refused and why, the row that is stored and
    returned, and the bytes. */
module FileOutcomes {
  import opened Prelude
  import opened Domain
  import opened FileRepository
  import opened FileService
  import opened MemoryStore
  import opened ObjectStore
  import opened Totals

  /** If-Match names this row, or nothing. */
  predicate Matches(expected: Option<string>, row: FileRow) {
    expected.None? || expected == Some(row.etag)
  }

  // ---------- Limits ----------

  /** The limits bear on what the owner can read now, and only on that. */
  lemma LimitsCount(rows: Rows, owner: string, at: Time, id: string)
    ensures id in LiveSizes(rows, owner, at) <==>
              && id in rows && rows[id].owner == owner && rows[id].deletedAt.None?
              && (rows[id].expiresAt.None? || at < rows[id].expiresAt.value)
    ensures id in LiveSizes(rows, owner, at) ==> LiveSizes(rows, owner, at)[id] == rows[id].payload.size
  {
  }

  /** A file is too large for its bytes or its metadata first; then it must leave the owner's count and
      bytes, itself included, within their limits. */
  lemma GovernanceIff(lim: Limits, rows: Rows, owner: string, size: nat, metadata: Json, at: Time)
    ensures var g, live := Governance(lim, rows, owner, size, metadata, at), LiveSizes(rows, owner, at);
            && (g == Err(PayloadTooLarge) <==> 0 < lim.maxFile < size || 0 < lim.maxMetadata < |metadata|)
            && (g.Ok? ==> lim.maxFiles == 0 || |live| + 1 <= lim.maxFiles)
            && (g.Ok? ==> lim.maxBytes == 0 || Sum(live) + size <= lim.maxBytes)
            && (g.Err? && g != Err(PayloadTooLarge) ==>
                  && g == Err(QuotaExceeded)
                  && (0 < lim.maxFiles < |live| + 1 || 0 < lim.maxBytes < Sum(live) + size))
  {
  }

  // ---------- Create ----------

  /** The row of a file created for this payload and these bytes. */
  predicate Describes(hs: Hashes, p: Payload, data: Bytes, id: string, now: Time, row: FileRow) {
    && row.id == row.payload.path == id && row.version == 1
    && row.owner == p.owner && row.metadata == p.metadata && row.tags == Normal(p.tags) && row.idem == p.idem
    && row.payload.filename == p.filename && row.payload.mime == p.mime
    && row.payload.size == |data| && row.payload.sha256 == hs.blob(data)
    && row.etag == FileEtag(hs.text, hs.blob(data), |data|)
    && row.createdAt == row.updatedAt == now && row.expiresAt == p.expiresAt && row.deletedAt.None?
  }

  predicate Valid(p: Payload, now: Time) {
    TagsAccepted(Normal(p.tags)) && (p.expiresAt.None? || now < p.expiresAt.value)
  }

  /** An expired file, not deleted, that holds the payload's key: a create purges it. */
  predicate InTheWay(p: Payload, row: FileRow, now: Time) {
    row.deletedAt.None? && row.Expired(now) && p.idem.Some? && row.idem == p.idem
  }

  /** The other files stay, row and bytes, but for one in the way. */
  ghost predicate KeepsOthers(w: World, w': World, p: Payload, id: string, now: Time) {
    forall x :: x != id ==>
      && (x in w'.files.items ==> x in w.files.items && w'.files.items[x] == w.files.items[x]
                                  && FileKey(x) in w.blobs && FileKey(x) in w'.blobs
                                  && w'.blobs[FileKey(x)] == w.blobs[FileKey(x)])
      && (x in w.files.items && x !in w'.files.items ==>
            InTheWay(p, w.files.items[x], now) && FileKey(x) !in w'.blobs)
  }

  lemma PreparedAnswers(hs: Hashes, w: World, p: Payload, now: Time)
    requires Sound(hs, w)
    ensures var (ready, answer) := Prepared(w, p, now);
            if !Valid(p, now) then ready == w && answer == Some(Err(InvalidRequest))
            else match answer
                 case None => forall x :: x in w.files.items && w.files.items[x].idem == p.idem && Truthy(p.idem) ==>
                                InTheWay(p, w.files.items[x], now)
                 case Some(Err(e)) => ready == w && e == Conflict
                 case Some(Ok(row)) => ready == w && row.id in w.files.items && w.files.items[row.id] == row
                                       && row.Live(now) && p.idem.Some? && row.idem == p.idem
  {
    var holder := Holder(w.files, p.idem);
    if holder.Some? {
      assert Holds(w.files, holder.value.id, p.idem.value);
    }
    forall x | x in w.files.items && w.files.items[x].idem == p.idem && Truthy(p.idem)
      ensures holder == Some(w.files.items[x])
    {
      assert Holds(w.files, x, p.idem.value);
    }
  }

  lemma PreparedKeeps(hs: Hashes, w: World, p: Payload, id: string, now: Time)
    requires Sound(hs, w) && Fresh(w, id)
    ensures KeepsOthers(w, Prepared(w, p, now).0, p, id, now) && Fresh(Prepared(w, p, now).0, id)
  {
    PreparedSound(hs, w, p, now);
    var holder := Holder(w.files, p.idem);
    if holder.Some? {
      assert Holds(w.files, holder.value.id, p.idem.value);
      if Prepared(w, p, now).0 != w {
        PurgeKeeps(hs, w, p, holder.value, id, now);
      }
    }
  }

  lemma PurgeKeeps(hs: Hashes, w: World, p: Payload, row: FileRow, id: string, now: Time)
    requires Sound(hs, w) && row.id in w.files.items && w.files.items[row.id] == row && InTheWay(p, row, now)
    ensures KeepsOthers(w, Purged(w, row), p, id, now)
  {
    PurgedSound(hs, w, row);
  }

  /** Main result: a valid create either replays, returning the live file that holds its key and changing
      nothing; or conflicts with a tombstone's key; or is refused by the limits; or stores exactly these
      bytes under one new row that says so. Of the other files it removes at most an expired one that
      held its key. */
  lemma CreateStores(lim: Limits, hs: Hashes, w: World, p: Payload, data: Bytes, id: string, now: Time)
    requires Sound(hs, w) && Fresh(w, id)
    ensures var (w', r) := CreateStep(lim, hs, w, p, data, id, now);
            && KeepsOthers(w, w', p, id, now)
            && if !Valid(p, now) then r == Err(InvalidRequest) && w' == w
               else if r.Ok? && r.value.id != id
               then w' == w && r.value.id in w.files.items && w.files.items[r.value.id] == r.value
                    && r.value.Live(now) && p.idem.Some? && r.value.idem == p.idem
               else if r.Ok?
               then && id in w'.files.items && w'.files.items[id] == r.value && Describes(hs, p, data, id, now, r.value)
                    && FileKey(id) in w'.blobs && w'.blobs[FileKey(id)] == data
               else && id !in w'.files.items && FileKey(id) !in w'.blobs
                    && (r == Err(Conflict) || r == Err(PayloadTooLarge) || r == Err(QuotaExceeded))
  {
    var (ready, answer) := Prepared(w, p, now);
    PreparedAnswers(hs, w, p, now);
    PreparedKeeps(hs, w, p, id, now);
    if answer.None? {
      CreateOutcome(lim, hs, w, p, data, id, now);
      var (w', r) := CreateStep(lim, hs, w, p, data, id, now);
      if r.Ok? {
        InsertKeeps(w, ready, w', p, r.value, data, id, now);
      }
    }
  }

  lemma InsertKeeps(w: World, ready: World, w': World, p: Payload, row: FileRow, data: Bytes, id: string, now: Time)
    requires KeepsOthers(w, ready, p, id, now)
    requires w'.files.items == ready.files.items[id := row] && w'.blobs == ready.blobs[FileKey(id) := data]
    ensures KeepsOthers(w, w', p, id, now)
  {
  }

  // ---------- Read, delete, restore, purge ----------

  /** A download gives a live file's row and bytes, if the bytes are there and have its digest. */
  lemma DownloadIff(hs: Hashes, w: World, id: string, now: Time)
    requires forall x :: x in w.files.items ==> w.files.items[x].payload.path == x
    ensures var r := Downloaded(hs, w, id, now);
            if id !in w.files.items || !w.files.items[id].Live(now) then r == Err(NotFound)
            else if FileKey(id) in w.blobs && hs.blob(w.blobs[FileKey(id)]) == w.files.items[id].payload.sha256
            then r == Ok((w.files.items[id], w.blobs[FileKey(id)]))
            else r == Err(Storage)
  {
  }

  /** Only the version and these times change. */
  predicate Restamps(was: FileRow, row: FileRow, now: Time, deletedAt: Option<Time>) {
    && row.version == was.version + 1 && row.updatedAt == now && row.deletedAt == deletedAt
    && row.id == was.id && row.owner == was.owner && row.idem == was.idem && row.etag == was.etag
    && row.metadata == was.metadata && row.tags == was.tags && row.createdAt == was.createdAt
    && row.expiresAt == was.expiresAt && row.payload == was.payload
  }

  /** A delete leaves a tombstone and every blob. */
  lemma DeleteStores(hs: Hashes, w: World, id: string, expected: Option<string>, now: Time)
    requires Sound(hs, w)
    ensures var (w', r) := DeleteStep(w, id, expected, now);
            if id !in w.files.items || !w.files.items[id].Live(now) then r == Err(NotFound) && w' == w
            else if !Matches(expected, w.files.items[id]) then r == Err(PreconditionFailed) && w' == w
            else
              && r.Ok? && w'.files.items == w.files.items[id := r.value] && w'.blobs == w.blobs
              && Restamps(w.files.items[id], r.value, now, Some(now))
  {
    if id in w.files.items {
      RewrittenSound(hs, w, Tombstone(w.files.items[id], now));
    }
  }

  /** A restore brings a tombstone back; its bytes are always there. */
  lemma RestoreStores(hs: Hashes, w: World, id: string, expected: Option<string>, now: Time)
    requires Sound(hs, w)
    ensures var (w', r) := RestoreStep(w, id, expected, now);
            if id !in w.files.items then r == Err(NotFound) && w' == w
            else if w.files.items[id].deletedAt.None? then r == Err(InvalidRequest) && w' == w
            else if !Matches(expected, w.files.items[id]) then r == Err(PreconditionFailed) && w' == w
            else
              && r.Ok? && w'.files.items == w.files.items[id := r.value] && w'.blobs == w.blobs
              && Restamps(w.files.items[id], r.value, now, None)
  {
    if id in w.files.items {
      RewrittenSound(hs, w, Revived(w.files.items[id], now));
    }
  }

  /** A purge removes row and bytes, live or not. */
  lemma PurgeRemoves(hs: Hashes, w: World, id: string, expected: Option<string>)
    requires Sound(hs, w)
    ensures var (w', r) := PurgeStep(w, id, expected);
            if id !in w.files.items then r == Err(NotFound) && w' == w
            else if !Matches(expected, w.files.items[id]) then r == Err(PreconditionFailed) && w' == w
            else
              && r == Ok(w.files.items[id])
              && w'.files.items == w.files.items - {id} && w'.blobs == w.blobs - {FileKey(id)}
  {
    if id in w.files.items {
      PurgedSound(hs, w, w.files.items[id]);
    }
  }
}
