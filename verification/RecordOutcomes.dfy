/** What the record operations come to, field by field: who is refused and why, and the row that is
    stored and returned. */
module RecordOutcomes {
  import opened Prelude
  import opened Domain
  import opened MemoryStore
  import opened RecordService
  import opened RecordRuns

  // ---------- Refusals that every write shares ----------

  /** If-Match names this row, or nothing. */
  predicate Matches(expected: Option<string>, row: RecordRow) {
    expected.None? || expected == Some(row.etag)
  }

  /** What validation says: the tags first, then the size of the metadata, then an expiry that must lie
      ahead. */
  predicate Refuses(cfg: Config, tags: seq<string>, metadata: Json, expiresAt: Option<Time>, now: Time, e: Error) {
    if !TagsAccepted(tags) then e == InvalidRequest
    else if 0 < cfg.maxMetadata < |metadata| then e == PayloadTooLarge
    else e == InvalidRequest && expiresAt.Some? && !(now < expiresAt.value)
  }

  lemma ValidatedIff(cfg: Config, tags: seq<string>, metadata: Json, expiresAt: Option<Time>, now: Time)
    ensures forall e :: Validated(cfg, tags, metadata, expiresAt, now) == Err(e) <==>
              Refuses(cfg, tags, metadata, expiresAt, now, e)
    ensures Validated(cfg, tags, metadata, expiresAt, now).Ok? <==>
              TagsAccepted(tags) && (cfg.maxMetadata == 0 || |metadata| <= cfg.maxMetadata)
              && (expiresAt.None? || now < expiresAt.value)
  {
  }

  // ---------- Put ----------

  /** The row has the payload's content, current as of `now`. */
  predicate Carries(hash: Hash, p: Payload, now: Time, row: RecordRow) {
    && row.payload.namespace == p.namespace && row.payload.key == p.key && row.payload.value == p.value
    && row.metadata == p.metadata && row.owner == p.owner && row.tags == Normal(p.tags)
    && row.etag == ContentEtag(hash, p.value, p.metadata, Normal(p.tags))
    && row.expiresAt == p.expiresAt && row.updatedAt == now && row.deletedAt.None?
  }

  /** Main result: a put over a live row is refused by a wrong If-Match or by validation, changing nothing;
      else the row stored, and returned unless the key index objects, has the payload's content under the
      old id and creation time, one version on, and is what reading the pair then gives. */
  lemma PutStores(cfg: Config, hash: Hash, s: Records, p: Payload, newId: string, expected: Option<string>, now: Time,
      was: RecordRow)
    requires IndexInv(s, now) && Scans(s, (p.namespace, p.key), now, was)
    ensures var (s', r) := PutStep(cfg, hash, s, p, newId, expected, now);
            if !Matches(expected, was) then r == Err(PreconditionFailed) && s' == s
            else if exists e :: Refuses(cfg, Normal(p.tags), p.metadata, p.expiresAt, now, e)
            then r.Err? && Refuses(cfg, Normal(p.tags), p.metadata, p.expiresAt, now, r.error) && s' == s
            else
              && was.id in s'.items && s'.items == s.items[was.id := s'.items[was.id]]
              && (r.Ok? ==> r.value == s'.items[was.id]) && (r.Err? ==> r == Err(Conflict))
              && var row := s'.items[was.id];
                 && Carries(hash, p, now, row)
                 && row.id == was.id && row.createdAt == was.createdAt && row.version == was.version + 1
                 && row.idem == (if Truthy(was.idem) then was.idem else p.idem)
                 && GetByKey(s', (p.namespace, p.key), now) == Some(row)
  {
    IndexIsScan(s, (p.namespace, p.key), now);
    ValidatedIff(cfg, Normal(p.tags), p.metadata, p.expiresAt, now);
    LiveWhen(Replacement(hash, was, p, now));
  }

  // ---------- Create ----------

  /** Rows that a create may clear away: expired ones, not deleted, that hold its pair or its key. */
  predicate InTheWay(p: Payload, row: RecordRow, now: Time) {
    && row.deletedAt.None? && row.Expired(now)
    && (PairOf(row) == (p.namespace, p.key) || (p.idem.Some? && row.idem == p.idem))
  }

  /** The other rows stay, but for those in the way. */
  ghost predicate KeepsOthers(s: Records, s': Records, p: Payload, id: string, now: Time) {
    forall x :: x != id ==>
      && (x in s'.items ==> x in s.items && s'.items[x] == s.items[x])
      && (x in s.items && x !in s'.items ==> InTheWay(p, s.items[x], now))
  }

  /** A new row with the payload's content, found by its pair. */
  ghost predicate Introduces(hash: Hash, s': Records, p: Payload, id: string, now: Time, row: RecordRow) {
    && id in s'.items && s'.items[id] == row && Carries(hash, p, now, row)
    && row.id == id && row.version == 1 && row.createdAt == now && row.idem == p.idem
    && GetByKey(s', (p.namespace, p.key), now) == Some(row)
  }

  lemma RepositoryStores(s: Records, row: RecordRow, now: Time)
    requires IdsAgree(s) && row.id !in s.items
    ensures var (s', r) := RepoCreate(s, row, now);
            && (r.Ok? ==>
                  r.value == row && s'.items == s.items[row.id := row] && Occupant(s', PairOf(row)) == Some(row))
            && (r.Err? ==> r == Err(Conflict) && s'.items == s.items)
  {
  }

  lemma ReclaimLeaves(s: Records, p: Payload, now: Time, x: string)
    requires IndexInv(s, now)
    ensures var s' := Reclaimed(s, (p.namespace, p.key), now);
            && IdsAgree(s')
            && (x in s'.items ==> x in s.items && s'.items[x] == s.items[x])
            && (x in s.items && x !in s'.items ==> InTheWay(p, s.items[x], now))
  {
  }

  lemma ReclaimKeeps(s: Records, p: Payload, id: string, now: Time)
    requires IndexInv(s, now)
    ensures KeepsOthers(s, Reclaimed(s, (p.namespace, p.key), now), p, id, now)
  {
    forall x | x != id
      ensures var s1 := Reclaimed(s, (p.namespace, p.key), now);
              && (x in s1.items ==> x in s.items && s1.items[x] == s.items[x])
              && (x in s.items && x !in s1.items ==> InTheWay(p, s.items[x], now))
    {
      ReclaimLeaves(s, p, now, x);
    }
  }

  lemma InsertStores(cfg: Config, hash: Hash, s: Records, p: Payload, id: string, now: Time)
    requires IndexInv(s, now) && id !in s.items && (p.expiresAt.None? || now < p.expiresAt.value)
    ensures var (s', r) := Insert(cfg, hash, s, p, id, now);
            && KeepsOthers(s, s', p, id, now)
            && (r.Ok? ==> Introduces(hash, s', p, id, now, r.value))
            && (r.Err? ==> id !in s'.items && (r == Err(Conflict) || r == Err(QuotaExceeded)))
  {
    var s1, row := Reclaimed(s, (p.namespace, p.key), now), NewRow(hash, p, id, now);
    ReclaimLeaves(s, p, now, id);
    RepositoryStores(s1, row, now);
    LiveWhen(row);
    ReclaimKeeps(s, p, id, now);
  }

  /** Main result: a valid create either replays, returning the live row that holds its key and changing
      nothing, or is refused, or stores one new row with the payload's content, found by its pair; of the
      other rows it removes at most expired ones that held the pair or the key. */
  lemma CreateStores(cfg: Config, hash: Hash, s: Records, p: Payload, id: string, now: Time)
    requires IndexInv(s, now) && IdemAgrees(s) && id !in s.items
    ensures var (s', r) := CreateStep(cfg, hash, s, p, id, now);
            && KeepsOthers(s, s', p, id, now)
            && if exists e :: Refuses(cfg, Normal(p.tags), p.metadata, p.expiresAt, now, e)
               then r.Err? && Refuses(cfg, Normal(p.tags), p.metadata, p.expiresAt, now, r.error) && s' == s
               else if r.Ok? && r.value.id != id
               then s' == s && r.value.id in s.items && s.items[r.value.id] == r.value
                    && r.value.Live(now) && p.idem.Some? && r.value.idem == p.idem
               else if r.Ok? then Introduces(hash, s', p, id, now, r.value)
               else id !in s'.items && (r == Err(Conflict) || r == Err(QuotaExceeded))
  {
    ValidatedIff(cfg, Normal(p.tags), p.metadata, p.expiresAt, now);
    var holder := if p.idem.Some? then FindByIdem(s, p.idem.value) else None;
    if Validated(cfg, Normal(p.tags), p.metadata, p.expiresAt, now).Ok? {
      if holder.None? {
        InsertStores(cfg, hash, s, p, id, now);
      } else {
        assert Holds(s, holder.value.id, p.idem.value);
        DeleteKeepsIndex(s, holder.value.id, now);
        InsertStores(cfg, hash, DeleteRow(s, holder.value.id), p, id, now);
      }
    }
  }

  /** The owner's rows that count: not deleted, and not past an expiry. */
  function LiveOf(s: Records, owner: string, now: Time): set<string> {
    set id | id in s.items && s.items[id].owner == owner && s.items[id].deletedAt.None?
             && (s.items[id].expiresAt.None? || now < s.items[id].expiresAt.value)
  }

  ghost predicate PairTaken(s: Records, p: Payload, now: Time) {
    exists row :: Scans(s, (p.namespace, p.key), now, row)
  }

  /** First the quota, then the pair. */
  ghost predicate Admits(cfg: Config, s: Records, p: Payload, now: Time, r: Result<RecordRow>) {
    if 0 < cfg.maxRecords <= |LiveOf(s, p.owner, now)| then r == Err(QuotaExceeded)
    else if PairTaken(s, p, now) then r == Err(Conflict)
    else r.Ok?
  }

  lemma ReclaimKeepsLive(s: Records, pair: Natural, owner: string, now: Time)
    requires IndexInv(s, now)
    ensures LiveOf(Reclaimed(s, pair, now), owner, now) == LiveOf(s, owner, now)
  {
  }

  lemma InsertAnswers(cfg: Config, hash: Hash, s: Records, p: Payload, id: string, now: Time)
    requires IndexInv(s, now) && id !in s.items && (p.idem.Some? ==> p.idem.value !in s.idem)
    ensures Admits(cfg, s, p, now, Insert(cfg, hash, s, p, id, now).1)
  {
    var pair, row := (p.namespace, p.key), NewRow(hash, p, id, now);
    var s1 := Reclaimed(s, pair, now);
    ReclaimKeepsLive(s, pair, p.owner, now);
    assert LiveOf(s1, p.owner, now) == set x | x in s1.items && s1.items[x].owner == p.owner && s1.items[x].Live(now);
    if !AtQuota(cfg, s1, p.owner, now) {
      IndexIsScan(s, pair, now);
      if GetByKey(s, pair, now).Some? {
        assert Scans(s, pair, now, GetByKey(s, pair, now).value);
      } else {
        RepoCreateWins(s1, row, now);
        PostCheckQuietAlone(cfg, hash, s, p, id, now);
      }
    }
  }

  /** Main result: a valid create conflicts with a tombstone that holds its key, replays if the row that
      holds it is live, and is else admitted if and only if the owner's live rows leave room under the limit
      and no live row has its pair. */
  lemma CreateAnswers(cfg: Config, hash: Hash, s: Records, p: Payload, id: string, now: Time)
    requires IndexInv(s, now) && IdemAgrees(s) && id !in s.items
    requires forall e :: !Refuses(cfg, Normal(p.tags), p.metadata, p.expiresAt, now, e)
    ensures var r := CreateStep(cfg, hash, s, p, id, now).1;
            if p.idem.Some? && exists x :: Holds(s, x, p.idem.value) && s.items[x].deletedAt.Some?
            then r == Err(Conflict)
            else if p.idem.Some? && exists x :: Holds(s, x, p.idem.value) && s.items[x].Live(now)
            then exists x :: Holds(s, x, p.idem.value) && r == Ok(s.items[x])
            else Admits(cfg, s, p, now, r)
  {
    ValidatedIff(cfg, Normal(p.tags), p.metadata, p.expiresAt, now);
    if p.idem.Some? && p.idem.value in s.idem {
      var x := s.idem[p.idem.value];
      assert Holds(s, x, p.idem.value);
      assert forall y :: Holds(s, y, p.idem.value) ==> y == x;
      if s.items[x].deletedAt.None? && s.items[x].Expired(now) {
        ExpiredHolderAnswers(cfg, hash, s, p, id, now, x);
      }
    } else {
      assert p.idem.Some? ==> forall y :: !Holds(s, y, p.idem.value);
      InsertAnswers(cfg, hash, s, p, id, now);
    }
  }

  lemma ExpiredHolderAnswers(cfg: Config, hash: Hash, s: Records, p: Payload, id: string, now: Time, x: string)
    requires IndexInv(s, now) && IdemAgrees(s) && id !in s.items
    requires p.idem.Some? && Holds(s, x, p.idem.value) && s.items[x].Expired(now)
    ensures Admits(cfg, s, p, now, Insert(cfg, hash, DeleteRow(s, x), p, id, now).1)
  {
    var s' := DeleteRow(s, x);
    DeleteKeepsIndex(s, x, now);
    DeleteKeepsIdem(s, x);
    InsertAnswers(cfg, hash, s', p, id, now);
    assert LiveOf(s', p.owner, now) == LiveOf(s, p.owner, now);
    assert forall row :: Scans(s', (p.namespace, p.key), now, row) <==> Scans(s, (p.namespace, p.key), now, row);
  }

  /** An expired occupant of the pair does not survive a create that succeeds. */
  lemma OccupantReclaimed(cfg: Config, hash: Hash, s: Records, p: Payload, id: string, now: Time, x: string)
    requires IndexInv(s, now) && id !in s.items && p.idem.None? && CreateStep(cfg, hash, s, p, id, now).1.Ok?
    requires (p.namespace, p.key) in s.natural && s.natural[(p.namespace, p.key)] == x
    requires s.items[x].deletedAt.None? && s.items[x].Expired(now)
    ensures x !in CreateStep(cfg, hash, s, p, id, now).0.items
  {
  }

  /** A put that finds no live row is a create, unless it names one by If-Match. */
  lemma PutCreates(cfg: Config, hash: Hash, s: Records, p: Payload, id: string, expected: Option<string>, now: Time)
    requires IndexInv(s, now) && !PairTaken(s, p, now)
    ensures PutStep(cfg, hash, s, p, id, expected, now) ==
            if expected.Some? then (s, Err(PreconditionFailed)) else CreateStep(cfg, hash, s, p, id, now)
  {
    IndexIsScan(s, (p.namespace, p.key), now);
    assert forall row :: GetByKey(s, (p.namespace, p.key), now) != Some(row);
  }

  // ---------- Update ----------

  /** What a patch gives, it gives; the rest is kept. */
  predicate Patches(hash: Hash, p: Patch, now: Time, was: RecordRow, row: RecordRow) {
    && row.payload.value == (if p.value.Some? then p.value.value else was.payload.value)
    && row.metadata == (if p.metadata.Some? then p.metadata.value else was.metadata)
    && row.payload.namespace == (if p.namespace.Some? then p.namespace.value else was.payload.namespace)
    && row.payload.key == (if p.key.Some? then p.key.value else was.payload.key)
    && row.tags == (if p.tags.Some? then Normal(p.tags.value) else was.tags)
    && row.expiresAt == (if p.expiresAt.Some? then p.expiresAt else was.expiresAt)
    && row.etag == ContentEtag(hash, row.payload.value, row.metadata, row.tags)
    && row.id == was.id && row.owner == was.owner && row.idem == was.idem && row.createdAt == was.createdAt
    && row.version == was.version + 1 && row.updatedAt == now && row.deletedAt.None?
  }

  predicate NothingGiven(p: Patch) {
    p.value.None? && p.metadata.None? && p.namespace.None? && p.key.None? && p.tags.None? && p.expiresAt.None?
  }

  /** An update, in the order of its refusals: no live row, a wrong If-Match, nothing to change, content
      that is not valid; else the row is the old one patched. */
  lemma UpdateStores(cfg: Config, hash: Hash, s: Records, id: string, p: Patch, expected: Option<string>, now: Time)
    requires IdsAgree(s)
    ensures var (s', r) := UpdateStep(cfg, hash, s, id, p, expected, now);
            if id !in s.items || !s.items[id].Live(now) then r == Err(NotFound) && s' == s
            else
              var was := s.items[id];
              var tags := if p.tags.Some? then Normal(p.tags.value) else was.tags;
              var metadata := if p.metadata.Some? then p.metadata.value else was.metadata;
              if !Matches(expected, was) then r == Err(PreconditionFailed) && s' == s
              else if NothingGiven(p) then r == Err(InvalidRequest) && s' == s
              else if exists e :: Refuses(cfg, tags, metadata, p.expiresAt, now, e)
              then r.Err? && Refuses(cfg, tags, metadata, p.expiresAt, now, r.error) && s' == s
              else
                && id in s'.items && s'.items == s.items[id := s'.items[id]]
                && (r.Ok? ==> r.value == s'.items[id]) && (r.Err? ==> r == Err(Conflict))
                && Patches(hash, p, now, was, s'.items[id])
  {
    if id in s.items {
      var was := s.items[id];
      ValidatedIff(cfg, PatchedTags(was, p), GetOr(p.metadata, was.metadata), p.expiresAt, now);
    }
  }

  // ---------- Delete, restore, purge ----------

  /** Only the version and these times change. */
  predicate Restamps(was: RecordRow, row: RecordRow, now: Time, deletedAt: Option<Time>) {
    && row.version == was.version + 1 && row.updatedAt == now && row.deletedAt == deletedAt
    && row.id == was.id && row.owner == was.owner && row.idem == was.idem && row.etag == was.etag
    && row.metadata == was.metadata && row.tags == was.tags && row.createdAt == was.createdAt
    && row.expiresAt == was.expiresAt && row.payload == was.payload
  }

  /** A delete leaves a tombstone that no read by key finds. */
  lemma DeleteStores(s: Records, id: string, expected: Option<string>, now: Time)
    requires IdsAgree(s)
    ensures var (s', r) := DeleteStep(s, id, expected, now);
            if id !in s.items || !s.items[id].Live(now) then r == Err(NotFound) && s' == s
            else if !Matches(expected, s.items[id]) then r == Err(PreconditionFailed) && s' == s
            else
              && id in s'.items && s'.items == s.items[id := s'.items[id]]
              && (r.Ok? ==> r.value == s'.items[id]) && (r.Err? ==> r == Err(Conflict))
              && Restamps(s.items[id], s'.items[id], now, Some(now))
              && GetByKey(s', PairOf(s.items[id]), now).None?
  {
  }

  /** A restore brings a tombstone back unless another live row is found under its pair. */
  lemma RestoreStores(s: Records, id: string, expected: Option<string>, now: Time)
    requires IdsAgree(s)
    ensures var (s', r) := RestoreStep(s, id, expected, now);
            if id !in s.items then r == Err(NotFound) && s' == s
            else if s.items[id].deletedAt.None? then r == Err(InvalidRequest) && s' == s
            else if !Matches(expected, s.items[id]) then r == Err(PreconditionFailed) && s' == s
            else if GetByKey(s, PairOf(s.items[id]), now).Some? && GetByKey(s, PairOf(s.items[id]), now).value.id != id
            then r == Err(Conflict) && s' == s
            else
              && id in s'.items && s'.items == s.items[id := s'.items[id]]
              && (r.Ok? ==> r.value == s'.items[id]) && (r.Err? ==> r == Err(Conflict))
              && Restamps(s.items[id], s'.items[id], now, None)
              && (s.items[id].expiresAt.None? || now < s.items[id].expiresAt.value ==>
                    GetByKey(s', PairOf(s.items[id]), now) == Some(s'.items[id]))
  {
  }

  /** A purge removes the row, live or not, and with it whatever pointed to it. */
  lemma PurgeRemoves(s: Records, id: string, expected: Option<string>)
    requires IdsAgree(s)
    ensures var (s', r) := PurgeStep(s, id, expected);
            if id !in s.items then r == Err(NotFound) && s' == s
            else if !Matches(expected, s.items[id]) then r == Err(PreconditionFailed) && s' == s
            else
              && r == Ok(s.items[id]) && s'.items == s.items - {id}
              && (forall pair :: pair in s'.natural <==> pair in s.natural && s.natural[pair] != id)
              && (forall k :: k in s'.idem <==> k in s.idem && s.idem[k] != id)
  {
  }
}
