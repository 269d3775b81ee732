/** The record service over the in-memory repository: each operation as a step on the store's maps,
    and the methods that perform it. */
module RecordService {
  import opened Prelude
  import opened Domain
  import opened MemoryStore
  import opened Pages

  type Records = Store<RecordPayload>

  /** Zero means unlimited. */
  datatype Config = Config(maxRecords: nat, maxMetadata: nat)

  datatype Payload = Payload(
    namespace: string, key: string, value: Json, metadata: Json, owner: string,
    idem: Option<string>, tags: seq<string>, expiresAt: Option<Time>)

  datatype Patch = Patch(
    value: Option<Json>, metadata: Option<Json>, namespace: Option<string>, key: Option<string>,
    tags: Option<seq<string>>, expiresAt: Option<Time>)

  type Hash = Canonical -> string

  function PairOf(r: RecordRow): Natural {
    (r.payload.namespace, r.payload.key)
  }

  function GetOr<T>(o: Option<T>, default: T): T {
    if o.Some? then o.value else default
  }

  // ---------- Repository reads ----------

  /** `find_occupant`. */
  function Occupant(s: Records, pair: Natural): Option<RecordRow> {
    if pair in s.natural && s.natural[pair] in s.items then Some(s.items[s.natural[pair]]) else None
  }

  /** `get_by_namespace_key`. */
  function GetByKey(s: Records, pair: Natural, now: Time): Option<RecordRow> {
    var o := Occupant(s, pair);
    if o.Some? && o.value.Live(now) then o else None
  }

  function FindByIdem(s: Records, key: string): Option<RecordRow> {
    if key in s.idem && s.idem[key] in s.items then Some(s.items[s.idem[key]]) else None
  }

  function CountByOwner(s: Records, owner: string, now: Time): nat {
    |set id | id in s.items && s.items[id].owner == owner && s.items[id].Live(now)|
  }

  // ---------- Validation ----------

  function Validated(cfg: Config, tags: seq<string>, metadata: Json, expiresAt: Option<Time>, now: Time): Result<bool> {
    if !TagsAccepted(tags) then Err(InvalidRequest)
    else if cfg.maxMetadata != 0 && |metadata| > cfg.maxMetadata then Err(PayloadTooLarge)
    else if expiresAt.Some? && expiresAt.value <= now then Err(InvalidRequest)
    else Ok(true)
  }

  predicate EtagRefused(row: RecordRow, expected: Option<string>) {
    expected.Some? && row.etag != expected.value
  }

  // ---------- Operations as steps ----------

  function DeleteRow(s: Records, id: string): Records {
    match Deleted(s, id)
    case Ok(s') => s'
    case Err(_) => s
  }

  function Reclaimed(s: Records, pair: Natural, now: Time): Records {
    var o := Occupant(s, pair);
    if o.Some? && o.value.deletedAt.None? && o.value.Expired(now) then DeleteRow(s, o.value.id) else s
  }

  function NewRow(hash: Hash, p: Payload, id: string, now: Time): RecordRow {
    var tags := Normal(p.tags);
    Row(id, p.owner, 1, p.idem, ContentEtag(hash, p.value, p.metadata, tags), p.metadata, tags, now, now,
        p.expiresAt, None, RecordPayload(p.namespace, p.key, p.value))
  }

  /** `InMemoryRecordRepository.create`: a slot held by a row that is not live is dropped first. */
  function RepoCreate(s: Records, row: RecordRow, now: Time): (Records, Result<RecordRow>) {
    var o := Occupant(s, PairOf(row));
    var s1 := if o.Some? && !o.value.Live(now) then s.(natural := s.natural - {PairOf(row)}) else s;
    match Created(s1, row, Some(PairOf(row)))
    case Ok(s2) => (s2, Ok(row))
    case Err(e) => (s1, Err(e))
  }

  predicate AtQuota(cfg: Config, s: Records, owner: string, now: Time) {
    cfg.maxRecords != 0 && CountByOwner(s, owner, now) >= cfg.maxRecords
  }

  predicate OverQuota(cfg: Config, s: Records, owner: string, now: Time) {
    cfg.maxRecords != 0 && CountByOwner(s, owner, now) > cfg.maxRecords
  }

  /** The part of create after the idempotency key is known to be free. */
  function Insert(cfg: Config, hash: Hash, s: Records, p: Payload, id: string, now: Time)
    : (Records, Result<RecordRow>)
  {
    var s1 := Reclaimed(s, (p.namespace, p.key), now);
    if AtQuota(cfg, s1, p.owner, now) then (s1, Err(QuotaExceeded))
    else
      var (s2, r) := RepoCreate(s1, NewRow(hash, p, id, now), now);
      if r.Ok? && OverQuota(cfg, s2, p.owner, now) then (DeleteRow(s2, id), Err(QuotaExceeded)) else (s2, r)
  }

  function CreateStep(cfg: Config, hash: Hash, s: Records, p: Payload, id: string, now: Time)
    : (Records, Result<RecordRow>)
  {
    var v := Validated(cfg, Normal(p.tags), p.metadata, p.expiresAt, now);
    if v.Err? then (s, Err(v.error))
    else
      var holder := if p.idem.Some? then FindByIdem(s, p.idem.value) else None;
      if holder.None? then Insert(cfg, hash, s, p, id, now)
      else if holder.value.deletedAt.Some? then (s, Err(Conflict))
      else if holder.value.Expired(now) then Insert(cfg, hash, DeleteRow(s, holder.value.id), p, id, now)
      else (s, Ok(holder.value))
  }

  function Replacement(hash: Hash, was: RecordRow, p: Payload, now: Time): RecordRow {
    var tags := Normal(p.tags);
    Row(was.id, p.owner, was.version + 1, if Truthy(was.idem) then was.idem else p.idem,
        ContentEtag(hash, p.value, p.metadata, tags), p.metadata, tags, was.createdAt, now,
        p.expiresAt, None, RecordPayload(p.namespace, p.key, p.value))
  }

  function RepoUpdate(s: Records, row: RecordRow): (Records, Result<RecordRow>) {
    Updated(s, row, Some(PairOf(row)))
  }

  function PutStep(cfg: Config, hash: Hash, s: Records, p: Payload, id: string, expected: Option<string>, now: Time)
    : (Records, Result<RecordRow>)
  {
    var existing := GetByKey(s, (p.namespace, p.key), now);
    if existing.None? then
      if expected.Some? then (s, Err(PreconditionFailed)) else CreateStep(cfg, hash, s, p, id, now)
    else if EtagRefused(existing.value, expected) then (s, Err(PreconditionFailed))
    else
      var v := Validated(cfg, Normal(p.tags), p.metadata, p.expiresAt, now);
      if v.Err? then (s, Err(v.error)) else RepoUpdate(s, Replacement(hash, existing.value, p, now))
  }

  function PatchedTags(was: RecordRow, p: Patch): seq<string> {
    if p.tags.Some? then Normal(p.tags.value) else was.tags
  }

  function Patched(hash: Hash, was: RecordRow, p: Patch, now: Time): RecordRow {
    var value, metadata, tags := GetOr(p.value, was.payload.value), GetOr(p.metadata, was.metadata),
        PatchedTags(was, p);
    Row(was.id, was.owner, was.version + 1, was.idem, ContentEtag(hash, value, metadata, tags), metadata, tags,
        was.createdAt, now, if p.expiresAt.Some? then p.expiresAt else was.expiresAt, None,
        RecordPayload(GetOr(p.namespace, was.payload.namespace), GetOr(p.key, was.payload.key), value))
  }

  function LiveRow(s: Records, id: string, now: Time): Option<RecordRow> {
    if id in s.items && s.items[id].Live(now) then Some(s.items[id]) else None
  }

  function UpdateStep(cfg: Config, hash: Hash, s: Records, id: string, p: Patch, expected: Option<string>, now: Time)
    : (Records, Result<RecordRow>)
  {
    var existing := LiveRow(s, id, now);
    if existing.None? then (s, Err(NotFound))
    else if EtagRefused(existing.value, expected) then (s, Err(PreconditionFailed))
    else if p == Patch(None, None, None, None, None, None) then (s, Err(InvalidRequest))
    else
      var v := Validated(cfg, PatchedTags(existing.value, p), GetOr(p.metadata, existing.value.metadata), p.expiresAt,
          now);
      if v.Err? then (s, Err(v.error)) else RepoUpdate(s, Patched(hash, existing.value, p, now))
  }

  function Tombstone(was: RecordRow, now: Time): RecordRow {
    was.(version := was.version + 1, updatedAt := now, deletedAt := Some(now))
  }

  function DeleteStep(s: Records, id: string, expected: Option<string>, now: Time): (Records, Result<RecordRow>) {
    var existing := LiveRow(s, id, now);
    if existing.None? then (s, Err(NotFound))
    else if EtagRefused(existing.value, expected) then (s, Err(PreconditionFailed))
    else RepoUpdate(s, Tombstone(existing.value, now))
  }

  function Restored(was: RecordRow, now: Time): RecordRow {
    was.(version := was.version + 1, updatedAt := now, deletedAt := None)
  }

  function RestoreStep(s: Records, id: string, expected: Option<string>, now: Time): (Records, Result<RecordRow>) {
    if id !in s.items then (s, Err(NotFound))
    else
      var existing := s.items[id];
      if existing.deletedAt.None? then (s, Err(InvalidRequest))
      else if EtagRefused(existing, expected) then (s, Err(PreconditionFailed))
      else
        var o := GetByKey(s, PairOf(existing), now);
        if o.Some? && o.value.id != id then (s, Err(Conflict)) else RepoUpdate(s, Restored(existing, now))
  }

  function PurgeStep(s: Records, id: string, expected: Option<string>): (Records, Result<RecordRow>) {
    if id !in s.items then (s, Err(NotFound))
    else if EtagRefused(s.items[id], expected) then (s, Err(PreconditionFailed))
    else (DeleteRow(s, id), Ok(s.items[id]))
  }

  /** Rows removed one after the other, as the cleanup loop does. */
  function DeleteRows(s: Records, ids: seq<string>): Records {
    if ids == [] then s else DeleteRow(DeleteRows(s, ids[..|ids| - 1]), ids[|ids| - 1])
  }

  // ---------- The service ----------

  class RecordService {
    const store: InMemoryStore<RecordPayload>
    const cfg: Config
    const hash: Hash

    ghost function Records(): Records reads store { store.State() }

    /** Both indices point at stored rows, which the repository's lookups take for granted. */
    ghost predicate Valid() reads store {
      && IdsAgree(Records())
      && (forall p :: p in Records().natural ==> Records().natural[p] in Records().items)
      && (forall k :: k in Records().idem ==> Records().idem[k] in Records().items)
    }

    constructor (cfg: Config, hash: Hash)
      ensures Valid() && fresh(store) && Records() == Store(map[], map[], map[])
      ensures this.cfg == cfg && this.hash == hash
    {
      this.cfg, this.hash := cfg, hash;
      this.store := new InMemoryStore();
    }

    method FindOccupant(pair: Natural) returns (o: Option<RecordRow>)
      requires Valid()
      ensures o == Occupant(Records(), pair)
    {
      o := if pair in store.natural then Some(store.items[store.natural[pair]]) else None;
    }

    method Validate(tags: seq<string>, metadata: Json, expiresAt: Option<Time>, now: Time) returns (r: Result<bool>)
      ensures r == Validated(cfg, tags, metadata, expiresAt, now)
    {
      if !TagsAccepted(tags) {
        return Err(InvalidRequest);
      }
      if cfg.maxMetadata != 0 && |metadata| > cfg.maxMetadata {
        return Err(PayloadTooLarge);
      }
      if expiresAt.Some? && expiresAt.value <= now {
        return Err(InvalidRequest);
      }
      r := Ok(true);
    }

    method ReclaimExpiredOccupant(pair: Natural, now: Time)
      requires Valid()
      modifies store
      ensures Valid() && Records() == Reclaimed(old(Records()), pair, now)
    {
      var o := FindOccupant(pair);
      if o.Some? && o.value.deletedAt.None? && o.value.Expired(now) {
        var _ := store.Delete(o.value.id);
      }
    }

    method RepositoryCreate(row: RecordRow, now: Time) returns (r: Result<RecordRow>)
      requires Valid()
      modifies store
      ensures Valid() && (Records(), r) == RepoCreate(old(Records()), row, now)
    {
      var o := FindOccupant(PairOf(row));
      if o.Some? && !o.value.Live(now) {
        store.DropNatural(PairOf(row));
      }
      r := store.Create(row, Some(PairOf(row)));
    }

    method InsertNew(p: Payload, id: string, now: Time) returns (r: Result<RecordRow>)
      requires Valid()
      modifies store
      ensures Valid() && (Records(), r) == Insert(cfg, hash, old(Records()), p, id, now)
    {
      ReclaimExpiredOccupant((p.namespace, p.key), now);
      if AtQuota(cfg, store.State(), p.owner, now) {
        return Err(QuotaExceeded);
      }
      r := RepositoryCreate(NewRow(hash, p, id, now), now);
      if r.Ok? && OverQuota(cfg, store.State(), p.owner, now) {
        var _ := store.Delete(id);
        r := Err(QuotaExceeded);
      }
    }

    method Create(p: Payload, id: string, now: Time) returns (r: Result<RecordRow>)
      requires Valid()
      modifies store
      ensures Valid() && (Records(), r) == CreateStep(cfg, hash, old(Records()), p, id, now)
    {
      var tags := NormalizeTags(p.tags);
      var v := Validate(tags, p.metadata, p.expiresAt, now);
      if v.Err? {
        return Err(v.error);
      }
      if p.idem.Some? && p.idem.value in store.idem {
        var existing := store.items[store.idem[p.idem.value]];
        if existing.deletedAt.Some? {
          return Err(Conflict);
        }
        if !existing.Expired(now) {
          return Ok(existing);
        }
        var _ := store.Delete(existing.id);
      }
      r := InsertNew(p, id, now);
    }

    method Put(p: Payload, id: string, expected: Option<string>, now: Time) returns (r: Result<RecordRow>)
      requires Valid()
      modifies store
      ensures Valid() && (Records(), r) == PutStep(cfg, hash, old(Records()), p, id, expected, now)
    {
      var existing := FindOccupant((p.namespace, p.key));
      if existing.None? || !existing.value.Live(now) {
        if expected.Some? {
          return Err(PreconditionFailed);
        }
        r := Create(p, id, now);
        return;
      }
      if EtagRefused(existing.value, expected) {
        return Err(PreconditionFailed);
      }
      var tags := NormalizeTags(p.tags);
      var v := Validate(tags, p.metadata, p.expiresAt, now);
      if v.Err? {
        return Err(v.error);
      }
      r := Write(Replacement(hash, existing.value, p, now));
    }

    method Write(row: RecordRow) returns (r: Result<RecordRow>)
      requires Valid() && row.id in store.items
      modifies store
      ensures Valid() && (Records(), r) == RepoUpdate(old(Records()), row)
    {
      r := store.Update(row, Some(PairOf(row)));
    }

    method Update(id: string, p: Patch, expected: Option<string>, now: Time) returns (r: Result<RecordRow>)
      requires Valid()
      modifies store
      ensures Valid() && (Records(), r) == UpdateStep(cfg, hash, old(Records()), id, p, expected, now)
    {
      if id !in store.items || !store.items[id].Live(now) {
        return Err(NotFound);
      }
      var existing := store.items[id];
      if EtagRefused(existing, expected) {
        return Err(PreconditionFailed);
      }
      if p == Patch(None, None, None, None, None, None) {
        return Err(InvalidRequest);
      }
      var tags := existing.tags;
      if p.tags.Some? {
        tags := NormalizeTags(p.tags.value);
      }
      var v := Validate(tags, GetOr(p.metadata, existing.metadata), p.expiresAt, now);
      if v.Err? {
        return Err(v.error);
      }
      r := Write(Patched(hash, existing, p, now));
    }

    method Delete(id: string, expected: Option<string>, now: Time) returns (r: Result<RecordRow>)
      requires Valid()
      modifies store
      ensures Valid() && (Records(), r) == DeleteStep(old(Records()), id, expected, now)
    {
      if id !in store.items || !store.items[id].Live(now) {
        return Err(NotFound);
      }
      var existing := store.items[id];
      if EtagRefused(existing, expected) {
        return Err(PreconditionFailed);
      }
      r := Write(Tombstone(existing, now));
    }

    method Restore(id: string, expected: Option<string>, now: Time) returns (r: Result<RecordRow>)
      requires Valid()
      modifies store
      ensures Valid() && (Records(), r) == RestoreStep(old(Records()), id, expected, now)
    {
      if id !in store.items {
        return Err(NotFound);
      }
      var existing := store.items[id];
      if existing.deletedAt.None? {
        return Err(InvalidRequest);
      }
      if EtagRefused(existing, expected) {
        return Err(PreconditionFailed);
      }
      var o := FindOccupant(PairOf(existing));
      if o.Some? && o.value.Live(now) && o.value.id != id {
        return Err(Conflict);
      }
      r := Write(Restored(existing, now));
    }

    method Purge(id: string, expected: Option<string>) returns (r: Result<RecordRow>)
      requires Valid()
      modifies store
      ensures Valid() && (Records(), r) == PurgeStep(old(Records()), id, expected)
    {
      if id !in store.items {
        return Err(NotFound);
      }
      var existing := store.items[id];
      if EtagRefused(existing, expected) {
        return Err(PreconditionFailed);
      }
      var _ := store.Delete(id);
      r := Ok(existing);
    }

    /** Purges the first `limit` expired rows, oldest expiry first, live or tombstoned. */
    method CleanupExpired(now: Time, limit: nat) returns (purged: nat, ghost listing: seq<RecordRow>)
      requires Valid()
      modifies store
      ensures Valid()
      ensures IsListing(listing, old(Records()).items, ExpiredAt(now), ExpiryTime)
      ensures var ids := Ids(Slice(listing, limit, 0));
              && purged == |ids|
              && Records() == DeleteRows(old(Records()), ids)
              && Records().items == Without(old(Records()).items, ids)
      ensures RanOut(old(Records()).items, Records().items, now, limit, purged)
    {
      var expired, _, l := Page(store.items, ExpiredAt(now), ExpiryTime, limit, 0);
      listing := l;
      SliceIds(l, store.items, ExpiredAt(now), ExpiryTime, limit);
      CleanupRunsOut(l, store.items, now, limit);
      purged := DeleteEach(Ids(expired));
    }

    /** The deletion loop; a row already gone would be skipped and not counted. */
    method DeleteEach(ids: seq<string>) returns (purged: nat)
      requires Valid()
      requires Distinct(ids)
      requires forall i :: 0 <= i < |ids| ==> ids[i] in store.items
      modifies store
      ensures Valid() && purged == |ids|
      ensures Records() == DeleteRows(old(Records()), ids) && Records().items == Without(old(Records()).items, ids)
    {
      purged := 0;
      for i := 0 to |ids|
        invariant Valid() && purged == i
        invariant Records() == DeleteRows(old(Records()), ids[..i])
      {
        assert ids[..i + 1][..i] == ids[..i];
        DeleteRowsItems(old(Records()), ids[..i]);
        var d := store.Delete(ids[i]);
        if d.Ok? {
          purged := purged + 1;
        }
      }
      assert ids[..|ids|] == ids;
      DeleteRowsItems(old(Records()), ids);
    }
  }

  lemma {:induction false} DeleteRowsItems(s: Records, ids: seq<string>)
    ensures DeleteRows(s, ids).items == Without(s.items, ids)
  {
    if ids == [] {
    } else {
      var n := |ids| - 1;
      DeleteRowsItems(s, ids[..n]);
      assert ids == ids[..n] + [ids[n]];
    }
  }
}
