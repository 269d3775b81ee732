/** What every run of the record service keeps: the natural-key index against a scan, the
    idempotency index against a scan, and the history each row carries. */
module RecordRuns {
  import opened Prelude
  import opened Domain
  import opened MemoryStore
  import opened RecordService

  // ---------- The natural-key index ----------

  ghost predicate SlotsPoint(s: Records) {
    forall p :: p in s.natural ==> s.natural[p] in s.items && PairOf(s.items[s.natural[p]]) == p
  }

  ghost predicate LiveIndexed(s: Records, now: Time) {
    forall id :: id in s.items && s.items[id].Live(now) ==>
      PairOf(s.items[id]) in s.natural && s.natural[PairOf(s.items[id])] == id
  }

  ghost predicate IndexInv(s: Records, now: Time) {
    IdsAgree(s) && SlotsPoint(s) && LiveIndexed(s, now)
  }

  /** A linear scan for the live rows of a pair. */
  ghost predicate Scans(s: Records, pair: Natural, now: Time, row: RecordRow) {
    row.id in s.items && s.items[row.id] == row && row.Live(now) && PairOf(row) == pair
  }

  /** The index answers as the scan would, so at most one live row exists per (namespace, key). */
  lemma IndexIsScan(s: Records, pair: Natural, now: Time)
    requires IndexInv(s, now)
    ensures forall row :: GetByKey(s, pair, now) == Some(row) <==> Scans(s, pair, now, row)
    ensures forall a, b :: Scans(s, pair, now, a) && Scans(s, pair, now, b) ==> a == b
  {
    forall row
      ensures GetByKey(s, pair, now) == Some(row) <==> Scans(s, pair, now, row)
    {
      if Scans(s, pair, now, row) {
        assert s.items[row.id].Live(now);
      }
    }
  }

  /** Rows stop being live merely because the clock advances; that never unsettles the index. */
  lemma ClockKeepsIndex(s: Records, now: Time, later: Time)
    requires IndexInv(s, now) && now <= later
    ensures IndexInv(s, later)
  {
  }

  lemma DeleteKeepsIndex(s: Records, id: string, now: Time)
    requires IndexInv(s, now)
    ensures IndexInv(DeleteRow(s, id), now)
  {
  }

  lemma RepoCreateKeepsIndex(s: Records, row: RecordRow, now: Time)
    requires IndexInv(s, now)
    ensures IndexInv(RepoCreate(s, row, now).0, now)
  {
    var o := Occupant(s, PairOf(row));
    var s1 := if o.Some? && !o.value.Live(now) then s.(natural := s.natural - {PairOf(row)}) else s;
    assert IndexInv(s1, now);
    if Created(s1, row, Some(PairOf(row))).Ok? {
      CreatedKeepsIndex(s1, row, now);
    }
  }

  lemma CreatedKeepsIndex(s: Records, row: RecordRow, now: Time)
    requires IndexInv(s, now) && Created(s, row, Some(PairOf(row))).Ok?
    ensures IndexInv(Created(s, row, Some(PairOf(row))).value, now)
  {
  }

  /** A live row other than `id` holds the pair. */
  ghost predicate HeldByOther(s: Records, id: string, pair: Natural, now: Time) {
    exists x :: x != id && x in s.items && s.items[x].Live(now) && PairOf(s.items[x]) == pair
  }

  /** Writing a row leaves the index in agreement with a scan exactly when the pair it is written
      under is not another live row's: the slot is taken unconditionally. */
  lemma UpdateKeepsIndexIff(s: Records, row: RecordRow, now: Time)
    requires IndexInv(s, now) && row.id in s.items
    ensures IndexInv(RepoUpdate(s, row).0, now) <==> !HeldByOther(s, row.id, PairOf(row), now)
  {
    var s' := RepoUpdate(s, row).0;
    assert s'.items == s.items[row.id := row];
    assert s'.natural == Rekeyed(s.natural, row.id, PairOf(row));
    if x :| x != row.id && x in s.items && s.items[x].Live(now) && PairOf(s.items[x]) == PairOf(row) {
      assert s'.items[x].Live(now) && s'.natural[PairOf(row)] == row.id;
    }
  }

  // ---------- Operations and runs ----------

  datatype Op =
    | Create(p: Payload, newId: string)
    | Put(p: Payload, newId: string, expected: Option<string>)
    | Update(id: string, patch: Patch, expected: Option<string>)
    | Delete(id: string, expected: Option<string>)
    | Restore(id: string, expected: Option<string>)
    | Purge(id: string, expected: Option<string>)
    | Cleanup(ids: seq<string>)

  function Apply(cfg: Config, hash: Hash, s: Records, op: Op, now: Time): (Records, Result<RecordRow>) {
    match op
    case Create(p, newId) => CreateStep(cfg, hash, s, p, newId, now)
    case Put(p, newId, expected) => PutStep(cfg, hash, s, p, newId, expected, now)
    case Update(id, patch, expected) => UpdateStep(cfg, hash, s, id, patch, expected, now)
    case Delete(id, expected) => DeleteStep(s, id, expected, now)
    case Restore(id, expected) => RestoreStep(s, id, expected, now)
    case Purge(id, expected) => PurgeStep(s, id, expected)
    case Cleanup(ids) => (DeleteRows(s, ids), Err(NotFound))
  }

  /** The stored row a put, update, delete or restore is about to write, once its guards have passed. */
  function Intended(cfg: Config, hash: Hash, s: Records, op: Op, now: Time): Option<RecordRow> {
    match op
    case Put(p, _, expected) =>
      var was := GetByKey(s, (p.namespace, p.key), now);
      if was.None? || EtagRefused(was.value, expected)
         || Validated(cfg, Normal(p.tags), p.metadata, p.expiresAt, now).Err?
      then None else Some(Replacement(hash, was.value, p, now))
    case Update(id, p, expected) =>
      var was := LiveRow(s, id, now);
      if was.None? || EtagRefused(was.value, expected) || p == Patch(None, None, None, None, None, None)
         || Validated(cfg, PatchedTags(was.value, p), GetOr(p.metadata, was.value.metadata), p.expiresAt, now).Err?
      then None else Some(Patched(hash, was.value, p, now))
    case Delete(id, expected) =>
      var was := LiveRow(s, id, now);
      if was.None? || EtagRefused(was.value, expected) then None else Some(Tombstone(was.value, now))
    case Restore(id, expected) =>
      if id !in s.items || s.items[id].deletedAt.None? || EtagRefused(s.items[id], expected) then None
      else
        var o := GetByKey(s, PairOf(s.items[id]), now);
        if o.Some? && o.value.id != id then None else Some(Restored(s.items[id], now))
    case _ => None
  }

  /** On its own, such an operation is that one repository update; refused by a guard, it changes nothing. */
  lemma IntendedIsWritten(cfg: Config, hash: Hash, s: Records, op: Op, now: Time)
    requires IdsAgree(s)
    ensures var row := Intended(cfg, hash, s, op, now);
            && (row.Some? ==>
                  && Apply(cfg, hash, s, op, now) == RepoUpdate(s, row.value) && row.value.id in s.items
                  && row.value.version == s.items[row.value.id].version + 1
                  && row.value.createdAt == s.items[row.value.id].createdAt)
            && (row.None? && (op.Update? || op.Delete? || op.Restore?) ==>
                  Apply(cfg, hash, s, op, now).0 == s && Apply(cfg, hash, s, op, now).1.Err?)
  {
  }

  /** An update whose key move would land on another live row. */
  ghost predicate KeyClash(s: Records, op: Op, now: Time) {
    op.Update? && op.id in s.items &&
    HeldByOther(s, op.id, (GetOr(op.patch.namespace, s.items[op.id].payload.namespace),
                           GetOr(op.patch.key, s.items[op.id].payload.key)), now)
  }

  /** A put that replaces a row without a key, bringing a key another stored row holds. */
  predicate IdemClash(s: Records, op: Op, now: Time) {
    op.Put? &&
    var existing := GetByKey(s, (op.p.namespace, op.p.key), now);
    && existing.Some? && !Truthy(existing.value.idem) && Truthy(op.p.idem)
    && op.p.idem.value in s.idem && s.idem[op.p.idem.value] != existing.value.id
  }

  lemma InsertKeepsIndex(cfg: Config, hash: Hash, s: Records, p: Payload, id: string, now: Time)
    requires IndexInv(s, now)
    ensures IndexInv(Insert(cfg, hash, s, p, id, now).0, now)
  {
    var s1 := Reclaimed(s, (p.namespace, p.key), now);
    var o := Occupant(s, (p.namespace, p.key));
    if o.Some? {
      DeleteKeepsIndex(s, o.value.id, now);
    }
    RepoCreateKeepsIndex(s1, NewRow(hash, p, id, now), now);
    DeleteKeepsIndex(RepoCreate(s1, NewRow(hash, p, id, now), now).0, id, now);
  }

  lemma CreateKeepsIndex(cfg: Config, hash: Hash, s: Records, p: Payload, id: string, now: Time)
    requires IndexInv(s, now)
    ensures IndexInv(CreateStep(cfg, hash, s, p, id, now).0, now)
  {
    InsertKeepsIndex(cfg, hash, s, p, id, now);
    if p.idem.Some? && FindByIdem(s, p.idem.value).Some? {
      var gone := FindByIdem(s, p.idem.value).value.id;
      DeleteKeepsIndex(s, gone, now);
      InsertKeepsIndex(cfg, hash, DeleteRow(s, gone), p, id, now);
    }
  }

  lemma {:induction false} DeleteRowsKeepsIndex(s: Records, ids: seq<string>, now: Time)
    requires IndexInv(s, now)
    ensures IndexInv(DeleteRows(s, ids), now)
  {
    if ids == [] {
    } else {
      var n := |ids| - 1;
      DeleteRowsKeepsIndex(s, ids[..n], now);
      DeleteKeepsIndex(DeleteRows(s, ids[..n]), ids[n], now);
    }
  }

  /** Writing back a row under the pair it is already live on never clashes. */
  lemma SamePairNoClash(s: Records, id: string, now: Time)
    requires IndexInv(s, now) && id in s.items && s.items[id].Live(now)
    ensures !HeldByOther(s, id, PairOf(s.items[id]), now)
  {
  }

  lemma StepKeepsIndex(cfg: Config, hash: Hash, s: Records, op: Op, now: Time)
    requires IndexInv(s, now) && !KeyClash(s, op, now)
    ensures IndexInv(Apply(cfg, hash, s, op, now).0, now)
  {
    match op
    case Create(p, newId) => CreateKeepsIndex(cfg, hash, s, p, newId, now);
    case Put(p, newId, expected) =>
      CreateKeepsIndex(cfg, hash, s, p, newId, now);
      var existing := GetByKey(s, (p.namespace, p.key), now);
      if existing.Some? {
        SamePairNoClash(s, existing.value.id, now);
        UpdateKeepsIndexIff(s, Replacement(hash, existing.value, p, now), now);
      }
    case Update(id, patch, expected) =>
      if id in s.items {
        UpdateKeepsIndexIff(s, Patched(hash, s.items[id], patch, now), now);
      }
    case Delete(id, expected) =>
      if id in s.items && s.items[id].Live(now) {
        SamePairNoClash(s, id, now);
        UpdateKeepsIndexIff(s, Tombstone(s.items[id], now), now);
      }
    case Restore(id, expected) =>
      if id in s.items {
        RestoreNoClash(s, id, now);
        UpdateKeepsIndexIff(s, Restored(s.items[id], now), now);
      }
    case Purge(id, expected) => DeleteKeepsIndex(s, id, now);
    case Cleanup(ids) => DeleteRowsKeepsIndex(s, ids, now);
  }

  lemma RestoreNoClash(s: Records, id: string, now: Time)
    requires IndexInv(s, now) && id in s.items
    ensures var o := GetByKey(s, PairOf(s.items[id]), now);
            !(o.Some? && o.value.id != id) ==> !HeldByOther(s, id, PairOf(s.items[id]), now)
  {
    IndexIsScan(s, PairOf(s.items[id]), now);
    if x :| x != id && x in s.items && s.items[x].Live(now) && PairOf(s.items[x]) == PairOf(s.items[id]) {
      assert Scans(s, PairOf(s.items[id]), now, s.items[x]);
    }
  }

  /** The side condition is exact: a successful update breaks uniqueness if and only if its key move
      lands on another live row. */
  lemma UpdateClashIff(cfg: Config, hash: Hash, s: Records, op: Op, now: Time)
    requires IndexInv(s, now) && op.Update? && Apply(cfg, hash, s, op, now).1.Ok?
    ensures IndexInv(Apply(cfg, hash, s, op, now).0, now) <==> !KeyClash(s, op, now)
  {
    UpdateKeepsIndexIff(s, Patched(hash, s.items[op.id], op.patch, now), now);
  }

  /** The state after the first `n` operations, each at its own clock reading. */
  function Run(cfg: Config, hash: Hash, trace: seq<(Op, Time)>, n: nat): Records
    requires n <= |trace|
  {
    if n == 0 then Store(map[], map[], map[])
    else Apply(cfg, hash, Run(cfg, hash, trace, n - 1), trace[n - 1].0, trace[n - 1].1).0
  }

  ghost predicate ClockRuns(trace: seq<(Op, Time)>) {
    forall i, j :: 0 <= i <= j < |trace| ==> trace[i].1 <= trace[j].1
  }

  ghost predicate KeyClashAt(cfg: Config, hash: Hash, trace: seq<(Op, Time)>, i: nat)
    requires i < |trace|
  {
    KeyClash(Run(cfg, hash, trace, i), trace[i].0, trace[i].1)
  }

  ghost predicate IdemClashAt(cfg: Config, hash: Hash, trace: seq<(Op, Time)>, i: nat)
    requires i < |trace|
  {
    IdemClash(Run(cfg, hash, trace, i), trace[i].0, trace[i].1)
  }

  /** Main result: after any run without a key clash, at any later clock reading, the index lookup
      is the scan. */
  lemma {:induction false} RunIndex(cfg: Config, hash: Hash, trace: seq<(Op, Time)>, n: nat, now: Time)
    requires n <= |trace| && ClockRuns(trace)
    requires forall i :: 0 <= i < n ==> !KeyClashAt(cfg, hash, trace, i)
    requires n > 0 ==> trace[n - 1].1 <= now
    ensures IndexInv(Run(cfg, hash, trace, n), now)
  {
    if n == 0 {
    } else {
      var t := trace[n - 1].1;
      RunIndex(cfg, hash, trace, n - 1, t);
      assert !KeyClashAt(cfg, hash, trace, n - 1);
      StepKeepsIndex(cfg, hash, Run(cfg, hash, trace, n - 1), trace[n - 1].0, t);
      ClockKeepsIndex(Run(cfg, hash, trace, n), t, now);
    }
  }

  // ---------- Conflict exactly when live ----------

  /** Creating with an unused idempotency key conflicts if and only if a live row has the pair:
      tombstones and expired rows never block it. */
  lemma ConflictIffLive(cfg: Config, hash: Hash, s: Records, p: Payload, id: string, now: Time)
    requires IndexInv(s, now) && id !in s.items
    requires Validated(cfg, Normal(p.tags), p.metadata, p.expiresAt, now).Ok?
    requires p.idem.Some? ==> p.idem.value !in s.idem
    requires !AtQuota(cfg, Reclaimed(s, (p.namespace, p.key), now), p.owner, now)
    ensures CreateStep(cfg, hash, s, p, id, now).1 == Err(Conflict)
            <==> exists row :: Scans(s, (p.namespace, p.key), now, row)
  {
    var pair := (p.namespace, p.key);
    IndexIsScan(s, pair, now);
    var s1 := Reclaimed(s, pair, now);
    var row := NewRow(hash, p, id, now);
    assert PairOf(row) == pair;
    if GetByKey(s, pair, now).Some? {
      assert Scans(s, pair, now, GetByKey(s, pair, now).value);
      assert s1 == s;
    } else {
      assert Occupant(s1, pair).Some? ==> !Occupant(s1, pair).value.Live(now);
      RepoCreateWins(s1, row, now);
    }
  }

  lemma RepoCreateWins(s: Records, row: RecordRow, now: Time)
    requires SlotsPoint(s) && row.id !in s.items
    requires Truthy(row.idem) ==> row.idem.value !in s.idem
    requires Occupant(s, PairOf(row)).Some? ==> !Occupant(s, PairOf(row)).value.Live(now)
    ensures RepoCreate(s, row, now).1 == Ok(row)
  {
  }

  /** Without concurrency the post-write recount never finds the owner over its limit. */
  lemma PostCheckQuietAlone(cfg: Config, hash: Hash, s: Records, p: Payload, id: string, now: Time)
    requires IndexInv(s, now) && id !in s.items
    requires var s1 := Reclaimed(s, (p.namespace, p.key), now);
             !AtQuota(cfg, s1, p.owner, now) && RepoCreate(s1, NewRow(hash, p, id, now), now).1.Ok?
    ensures var s1 := Reclaimed(s, (p.namespace, p.key), now);
            !OverQuota(cfg, RepoCreate(s1, NewRow(hash, p, id, now), now).0, p.owner, now)
  {
    var s1 := Reclaimed(s, (p.namespace, p.key), now);
    var s2 := RepoCreate(s1, NewRow(hash, p, id, now), now).0;
    var before := set x | x in s1.items && s1.items[x].owner == p.owner && s1.items[x].Live(now);
    var after := set x | x in s2.items && s2.items[x].owner == p.owner && s2.items[x].Live(now);
    assert s2.items == s1.items[id := NewRow(hash, p, id, now)];
    SubsetSize(after, before + {id});
  }

  // ---------- Rewrites check no quota ----------

  /** A rewrite that brings the owner a live row: a restore, or a put that changes the owner. */
  predicate Gains(s: Records, row: RecordRow, owner: string, now: Time) {
    && row.id in s.items && row.owner == owner && row.Live(now)
    && !(s.items[row.id].owner == owner && s.items[row.id].Live(now))
  }

  /** From within the limit, a repository update stays within it if and only if it brings no row, or the
      owner was below the limit. */
  lemma RewriteQuotaIff(cfg: Config, s: Records, row: RecordRow, owner: string, now: Time)
    requires !OverQuota(cfg, s, owner, now)
    ensures !OverQuota(cfg, RepoUpdate(s, row).0, owner, now) <==>
              (Gains(s, row, owner, now) ==> !AtQuota(cfg, s, owner, now))
  {
    var before, after := LiveIds(s.items, owner, now), LiveIds(RepoUpdate(s, row).0.items, owner, now);
    if row.id in s.items {
      LiveIdsAfter(s.items, row, owner, now);
      SubsetSize(after, before + if Gains(s, row, owner, now) then {row.id} else {});
    }
  }

  ghost function LiveIds(items: map<string, RecordRow>, owner: string, now: Time): set<string> {
    set id | id in items && items[id].owner == owner && items[id].Live(now)
  }

  lemma LiveIdsAfter(items: map<string, RecordRow>, row: RecordRow, owner: string, now: Time)
    requires row.id in items
    ensures LiveIds(items[row.id := row], owner, now) ==
              if row.owner == owner && row.Live(now) then LiveIds(items, owner, now) + {row.id}
              else LiveIds(items, owner, now) - {row.id}
  {
  }

  /** A restore that is not refused keeps the limit if and only if the record has expired or its owner was
      below the limit. */
  lemma RestoreQuotaIff(cfg: Config, s: Records, id: string, now: Time)
    requires IdsAgree(s) && id in s.items && s.items[id].deletedAt.Some? && GetByKey(s, PairOf(s.items[id]), now).None?
    requires !OverQuota(cfg, s, s.items[id].owner, now)
    ensures var row := s.items[id];
            !OverQuota(cfg, RestoreStep(s, id, None, now).0, row.owner, now) <==>
              row.Expired(now) || !AtQuota(cfg, s, row.owner, now)
  {
    RewriteQuotaIff(cfg, s, Restored(s.items[id], now), s.items[id].owner, now);
  }

  /** A put that replaces a record keeps its new owner within the limit if and only if it was the owner
      before, or was below the limit. */
  lemma PutQuotaIff(cfg: Config, hash: Hash, s: Records, p: Payload, id: string, now: Time)
    requires IdsAgree(s) && GetByKey(s, (p.namespace, p.key), now).Some?
    requires Validated(cfg, Normal(p.tags), p.metadata, p.expiresAt, now).Ok? && !OverQuota(cfg, s, p.owner, now)
    ensures var was := GetByKey(s, (p.namespace, p.key), now).value;
            !OverQuota(cfg, PutStep(cfg, hash, s, p, id, None, now).0, p.owner, now) <==>
              was.owner == p.owner || !AtQuota(cfg, s, p.owner, now)
  {
    var was := GetByKey(s, (p.namespace, p.key), now).value;
    RewriteQuotaIff(cfg, s, Replacement(hash, was, p, now), p.owner, now);
  }

  // ---------- Idempotency keys ----------

  lemma InsertKeepsIdem(cfg: Config, hash: Hash, s: Records, p: Payload, id: string, now: Time)
    requires IdsAgree(s) && IdemAgrees(s)
    ensures IdsAgree(Insert(cfg, hash, s, p, id, now).0) && IdemAgrees(Insert(cfg, hash, s, p, id, now).0)
  {
    var pair := (p.namespace, p.key);
    var s1, row := Reclaimed(s, pair, now), NewRow(hash, p, id, now);
    var o := Occupant(s, pair);
    if o.Some? {
      DeleteRowKeepsIdem(s, o.value.id);
    }
    RepoCreateKeepsIdem(s1, row, now);
    DeleteRowKeepsIdem(RepoCreate(s1, row, now).0, id);
  }

  lemma DeleteRowKeepsIdem(s: Records, id: string)
    requires IdsAgree(s) && IdemAgrees(s)
    ensures IdsAgree(DeleteRow(s, id)) && IdemAgrees(DeleteRow(s, id))
  {
    if id in s.items {
      DeleteKeepsIdem(s, id);
    }
  }

  lemma RepoCreateKeepsIdem(s: Records, row: RecordRow, now: Time)
    requires IdsAgree(s) && IdemAgrees(s)
    ensures IdsAgree(RepoCreate(s, row, now).0) && IdemAgrees(RepoCreate(s, row, now).0)
  {
    var o := Occupant(s, PairOf(row));
    var s1 := if o.Some? && !o.value.Live(now) then s.(natural := s.natural - {PairOf(row)}) else s;
    assert IdemAgrees(s1) by {
      forall k, id ensures (k in s1.idem && s1.idem[k] == id) <==> Holds(s1, id, k) {
        assert Holds(s1, id, k) <==> Holds(s, id, k);
      }
    }
    if Created(s1, row, Some(PairOf(row))).Ok? {
      CreateKeepsIdem(s1, row, Some(PairOf(row)));
    }
  }

  lemma {:induction false} DeleteRowsKeepsIdem(s: Records, ids: seq<string>)
    requires IdsAgree(s) && IdemAgrees(s)
    ensures IdsAgree(DeleteRows(s, ids)) && IdemAgrees(DeleteRows(s, ids))
  {
    if ids == [] {
    } else {
      var n := |ids| - 1;
      DeleteRowsKeepsIdem(s, ids[..n]);
      DeleteRowKeepsIdem(DeleteRows(s, ids[..n]), ids[n]);
    }
  }

  lemma CreateStepKeepsIdem(cfg: Config, hash: Hash, s: Records, p: Payload, id: string, now: Time)
    requires IdsAgree(s) && IdemAgrees(s)
    ensures IdsAgree(CreateStep(cfg, hash, s, p, id, now).0) && IdemAgrees(CreateStep(cfg, hash, s, p, id, now).0)
  {
    InsertKeepsIdem(cfg, hash, s, p, id, now);
    if p.idem.Some? && FindByIdem(s, p.idem.value).Some? {
      var gone := FindByIdem(s, p.idem.value).value.id;
      DeleteRowKeepsIdem(s, gone);
      InsertKeepsIdem(cfg, hash, DeleteRow(s, gone), p, id, now);
    }
  }

  /** A row kept by an operation keeps its own key, so only a key it newly takes can clash. */
  lemma KeptKeyNotTaken(s: Records, row: RecordRow)
    requires IdsAgree(s) && IdemAgrees(s) && row.id in s.items && row.idem == s.items[row.id].idem
    ensures !IdemTaken(s, row)
  {
    if Truthy(row.idem) {
      assert Holds(s, row.id, row.idem.value);
    }
  }

  lemma StepKeepsIdem(cfg: Config, hash: Hash, s: Records, op: Op, now: Time)
    requires IdsAgree(s) && IdemAgrees(s) && !IdemClash(s, op, now)
    ensures IdsAgree(Apply(cfg, hash, s, op, now).0) && IdemAgrees(Apply(cfg, hash, s, op, now).0)
  {
    match op
    case Create(p, newId) => CreateStepKeepsIdem(cfg, hash, s, p, newId, now);
    case Put(p, newId, expected) =>
      CreateStepKeepsIdem(cfg, hash, s, p, newId, now);
      var existing := GetByKey(s, (p.namespace, p.key), now);
      if existing.Some? {
        PutKeepsIdemIff(hash, s, existing.value, p, now);
      }
    case Update(id, patch, expected) =>
      if id in s.items {
        KeptIdem(s, Patched(hash, s.items[id], patch, now));
      }
    case Delete(id, expected) =>
      if id in s.items {
        KeptIdem(s, Tombstone(s.items[id], now));
      }
    case Restore(id, expected) =>
      if id in s.items {
        KeptIdem(s, Restored(s.items[id], now));
      }
    case Purge(id, expected) => DeleteRowKeepsIdem(s, id);
    case Cleanup(ids) => DeleteRowsKeepsIdem(s, ids);
  }

  lemma KeptIdem(s: Records, row: RecordRow)
    requires IdsAgree(s) && IdemAgrees(s) && row.id in s.items && row.idem == s.items[row.id].idem
    ensures IdsAgree(RepoUpdate(s, row).0) && IdemAgrees(RepoUpdate(s, row).0)
    ensures RepoUpdate(s, row).1 == Ok(row)
  {
    KeptKeyNotTaken(s, row);
    UpdateKeepsIdemIff(s, row, Some(PairOf(row)));
  }

  lemma PutKeepsIdemIff(hash: Hash, s: Records, existing: RecordRow, p: Payload, now: Time)
    requires IdsAgree(s) && IdemAgrees(s) && existing.id in s.items && s.items[existing.id] == existing
    ensures var row := Replacement(hash, existing, p, now);
            var clash := !Truthy(existing.idem) && Truthy(p.idem) && p.idem.value in s.idem
                && s.idem[p.idem.value] != existing.id;
            && IdsAgree(RepoUpdate(s, row).0)
            && (IdemAgrees(RepoUpdate(s, row).0) <==> !clash)
            && (RepoUpdate(s, row).1.Ok? <==> !clash)
  {
    var row := Replacement(hash, existing, p, now);
    if Truthy(existing.idem) {
      assert Holds(s, existing.id, existing.idem.value);
    }
    UpdateKeepsIdemIff(s, row, Some(PairOf(row)));
  }

  /** The side condition is exact, and a put that meets it fails with the row already replaced: the
      repository writes before it checks. */
  lemma FailedPutIff(cfg: Config, hash: Hash, s: Records, p: Payload, newId: string, now: Time)
    requires IdsAgree(s) && IdemAgrees(s)
    requires Validated(cfg, Normal(p.tags), p.metadata, p.expiresAt, now).Ok?
    requires GetByKey(s, (p.namespace, p.key), now).Some?
    ensures var was := GetByKey(s, (p.namespace, p.key), now).value;
            var (s', r) := PutStep(cfg, hash, s, p, newId, None, now);
            && (r == Err(Conflict) <==> IdemClash(s, Put(p, newId, None), now))
            && (IdemAgrees(s') <==> !IdemClash(s, Put(p, newId, None), now))
            && s'.items == s.items[was.id := Replacement(hash, was, p, now)]
  {
    PutKeepsIdemIff(hash, s, GetByKey(s, (p.namespace, p.key), now).value, p, now);
  }

  /** Main result: on any run whose puts bring no other row's key, the key index is the scan over
      all stored rows, live, expired or deleted. */
  lemma {:induction false} RunIdem(cfg: Config, hash: Hash, trace: seq<(Op, Time)>, n: nat)
    requires n <= |trace|
    requires forall i :: 0 <= i < n ==> !IdemClashAt(cfg, hash, trace, i)
    ensures IdsAgree(Run(cfg, hash, trace, n)) && IdemAgrees(Run(cfg, hash, trace, n))
  {
    if n == 0 {
    } else {
      RunIdem(cfg, hash, trace, n - 1);
      assert !IdemClashAt(cfg, hash, trace, n - 1);
      StepKeepsIdem(cfg, hash, Run(cfg, hash, trace, n - 1), trace[n - 1].0, trace[n - 1].1);
    }
  }

  /** Replaying a key whose row is live returns that row and changes nothing. */
  lemma ReplayReturnsHolder(cfg: Config, hash: Hash, s: Records, p: Payload, id: string, now: Time, holder: string)
    requires IdsAgree(s) && IdemAgrees(s) && p.idem.Some? && Holds(s, holder, p.idem.value)
    requires Validated(cfg, Normal(p.tags), p.metadata, p.expiresAt, now).Ok?
    ensures s.items[holder].Live(now) ==> CreateStep(cfg, hash, s, p, id, now) == (s, Ok(s.items[holder]))
    ensures s.items[holder].deletedAt.Some? ==> CreateStep(cfg, hash, s, p, id, now) == (s, Err(Conflict))
    ensures p.idem.value !in PurgeStep(s, holder, None).0.idem
  {
    DeleteKeepsIdem(s, holder);
  }
}
