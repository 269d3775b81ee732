/** Whole-run history of a record: its version counts the writes made to it, its creation time never
    changes, and its etag is always that of its current content. */
module RecordHistory {
  import opened Prelude
  import opened Domain
  import opened MemoryStore
  import opened RecordService
  import opened RecordRuns

  /** The stored row a put, update, delete or restore is addressed to. */
  function Target(s: Records, op: Op, now: Time): Option<string> {
    match op
    case Put(p, _, _) =>
      var existing := GetByKey(s, (p.namespace, p.key), now);
      if existing.Some? then Some(existing.value.id) else None
    case Update(id, _, _) => Some(id)
    case Delete(id, _) => Some(id)
    case Restore(id, _) => Some(id)
    case _ => None
  }

  /** The operation gets to its repository update of the row, which writes it, whether or not it then
      reports a conflict. */
  predicate Writes(cfg: Config, hash: Hash, s: Records, op: Op, now: Time, id: string) {
    var row := Intended(cfg, hash, s, op, now);
    row.Some? && row.value.id == id
  }

  predicate Succeeds(cfg: Config, hash: Hash, s: Records, op: Op, now: Time, id: string) {
    Target(s, op, now) == Some(id) && Apply(cfg, hash, s, op, now).1.Ok?
  }

  /** The identifier an operation brings for a row it may create. */
  function NewId(op: Op): Option<string> {
    match op
    case Create(_, newId) => Some(newId)
    case Put(_, newId, _) => Some(newId)
    case _ => None
  }

  /** What each step of a run can count on. */
  ghost predicate Ready(s: Records, op: Op) {
    IdsAgree(s) && (NewId(op).Some? ==> NewId(op).value !in s.items)
  }

  // ---------- One step ----------

  ghost predicate SameRow(s: Records, s': Records, id: string) {
    id in s.items && id in s'.items ==> s'.items[id] == s.items[id]
  }

  lemma InsertLeavesOthers(cfg: Config, hash: Hash, s: Records, p: Payload, newId: string, now: Time, id: string)
    requires IdsAgree(s) && newId !in s.items
    ensures var s' := Insert(cfg, hash, s, p, newId, now).0;
            && (id in s.items ==> SameRow(s, s', id))
            && (id !in s.items && id in s'.items ==> id == newId && s'.items[id] == NewRow(hash, p, newId, now))
  {
  }

  lemma DeleteRowLeavesOthers(s: Records, gone: string, id: string)
    requires IdsAgree(s)
    ensures IdsAgree(DeleteRow(s, gone)) && SameRow(s, DeleteRow(s, gone), id)
    ensures forall x :: x in DeleteRow(s, gone).items ==> x in s.items
  {
  }

  lemma CreateLeavesOthers(cfg: Config, hash: Hash, s: Records, p: Payload, newId: string, now: Time, id: string)
    requires IdsAgree(s) && newId !in s.items
    ensures var s' := CreateStep(cfg, hash, s, p, newId, now).0;
            && (id in s.items ==> SameRow(s, s', id))
            && (id !in s.items && id in s'.items ==> id == newId && s'.items[id] == NewRow(hash, p, newId, now))
  {
    var holder := if p.idem.Some? then FindByIdem(s, p.idem.value) else None;
    if holder.None? {
      InsertLeavesOthers(cfg, hash, s, p, newId, now, id);
    } else {
      var s1 := DeleteRow(s, holder.value.id);
      DeleteRowLeavesOthers(s, holder.value.id, id);
      InsertLeavesOthers(cfg, hash, s1, p, newId, now, id);
    }
  }

  lemma {:induction false} DeleteRowsLeavesOthers(s: Records, ids: seq<string>, id: string)
    ensures id in DeleteRows(s, ids).items ==> id in s.items && DeleteRows(s, ids).items[id] == s.items[id]
  {
    if ids == [] {
    } else {
      DeleteRowsLeavesOthers(s, ids[..|ids| - 1], id);
    }
  }

  /** How one row may change: only by a write, which adds one to its version. */
  ghost predicate Evolves(before: RecordRow, after: RecordRow, written: bool) {
    && after.createdAt == before.createdAt
    && (if written then after.version == before.version + 1 else after == before)
  }

  /** A repository update writes the row whether or not it then reports a conflict. */
  lemma WriteEvolves(s: Records, row: RecordRow, id: string)
    requires IdsAgree(s) && row.id in s.items && id in s.items
    requires row.version == s.items[row.id].version + 1 && row.createdAt == s.items[row.id].createdAt
    ensures id in RepoUpdate(s, row).0.items && Evolves(s.items[id], RepoUpdate(s, row).0.items[id], id == row.id)
    ensures RepoUpdate(s, row).1.Ok? || RepoUpdate(s, row).1 == Err(Conflict)
  {
  }

  /** A stored row changes only by a write, which adds one to its version and keeps its creation time. */
  lemma StepEvolves(cfg: Config, hash: Hash, s: Records, op: Op, now: Time, id: string)
    requires Ready(s, op)
    requires id in s.items && id in Apply(cfg, hash, s, op, now).0.items
    ensures Evolves(s.items[id], Apply(cfg, hash, s, op, now).0.items[id], Writes(cfg, hash, s, op, now, id))
  {
    IntendedIsWritten(cfg, hash, s, op, now);
    var row := Intended(cfg, hash, s, op, now);
    if row.Some? {
      WriteEvolves(s, row.value, id);
    } else {
      UnwrittenStays(cfg, hash, s, op, now, id);
    }
  }

  lemma UnwrittenStays(cfg: Config, hash: Hash, s: Records, op: Op, now: Time, id: string)
    requires Ready(s, op) && Intended(cfg, hash, s, op, now).None?
    requires id in s.items && id in Apply(cfg, hash, s, op, now).0.items
    ensures Apply(cfg, hash, s, op, now).0.items[id] == s.items[id]
  {
    match op
    case Create(p, newId) => CreateLeavesOthers(cfg, hash, s, p, newId, now, id);
    case Put(p, newId, _) => CreateLeavesOthers(cfg, hash, s, p, newId, now, id);
    case Cleanup(ids) => DeleteRowsLeavesOthers(s, ids, id);
    case _ => IntendedIsWritten(cfg, hash, s, op, now);
  }

  lemma StepKeepsIds(cfg: Config, hash: Hash, s: Records, op: Op, now: Time)
    requires Ready(s, op)
    ensures IdsAgree(Apply(cfg, hash, s, op, now).0)
  {
    var s' := Apply(cfg, hash, s, op, now).0;
    forall id | id in s'.items
      ensures s'.items[id].id == id
    {
      StepKeepsId(cfg, hash, s, op, now, id);
    }
  }

  lemma StepKeepsId(cfg: Config, hash: Hash, s: Records, op: Op, now: Time, id: string)
    requires Ready(s, op) && id in Apply(cfg, hash, s, op, now).0.items
    ensures Apply(cfg, hash, s, op, now).0.items[id].id == id
  {
    match op
    case Create(p, newId) => CreateLeavesOthers(cfg, hash, s, p, newId, now, id);
    case Put(p, newId, _) => CreateLeavesOthers(cfg, hash, s, p, newId, now, id);
    case Cleanup(ids) => DeleteRowsLeavesOthers(s, ids, id);
    case _ =>
  }

  /** A row that appears is the one the operation's fresh id names: version 1, created now. */
  lemma StepIntroduces(cfg: Config, hash: Hash, s: Records, op: Op, now: Time, id: string)
    requires IdsAgree(s)
    requires NewId(op).Some? ==> NewId(op).value !in s.items
    requires id !in s.items
    ensures !Writes(cfg, hash, s, op, now, id)
    ensures var s' := Apply(cfg, hash, s, op, now).0;
            id in s'.items ==> NewId(op) == Some(id) && s'.items[id].version == 1 && s'.items[id].createdAt == now
  {
    match op
    case Create(p, newId) => CreateLeavesOthers(cfg, hash, s, p, newId, now, id);
    case Put(p, newId, expected) => CreateLeavesOthers(cfg, hash, s, p, newId, now, id);
    case Cleanup(ids) => DeleteRowsLeavesOthers(s, ids, id);
    case _ =>
  }

  // ---------- Etags ----------

  ghost predicate EtagsCurrent(hash: Hash, s: Records) {
    forall id :: id in s.items ==> EtagCurrent(hash, s.items[id])
  }

  ghost predicate EtagCurrent(hash: Hash, row: RecordRow) {
    row.etag == ContentEtag(hash, row.payload.value, row.metadata, row.tags)
  }

  lemma WriteKeepsEtag(hash: Hash, s: Records, row: RecordRow)
    requires EtagsCurrent(hash, s) && EtagCurrent(hash, row)
    ensures EtagsCurrent(hash, RepoUpdate(s, row).0)
  {
  }

  lemma PatchedEtag(hash: Hash, was: RecordRow, p: Patch, now: Time)
    ensures EtagCurrent(hash, Patched(hash, was, p, now))
  {
  }

  lemma CreateKeepsEtags(cfg: Config, hash: Hash, s: Records, p: Payload, newId: string, now: Time)
    requires IdsAgree(s) && EtagsCurrent(hash, s) && newId !in s.items
    ensures EtagsCurrent(hash, CreateStep(cfg, hash, s, p, newId, now).0)
  {
    var s' := CreateStep(cfg, hash, s, p, newId, now).0;
    forall id | id in s'.items
      ensures EtagCurrent(hash, s'.items[id])
    {
      CreateLeavesOthers(cfg, hash, s, p, newId, now, id);
    }
  }

  lemma StepKeepsEtags(cfg: Config, hash: Hash, s: Records, op: Op, now: Time)
    requires Ready(s, op) && EtagsCurrent(hash, s)
    ensures EtagsCurrent(hash, Apply(cfg, hash, s, op, now).0)
  {
    match op
    case Create(p, newId) => CreateKeepsEtags(cfg, hash, s, p, newId, now);
    case Put(p, newId, expected) =>
      CreateKeepsEtags(cfg, hash, s, p, newId, now);
      var existing := GetByKey(s, (p.namespace, p.key), now);
      if existing.Some? {
        WriteKeepsEtag(hash, s, Replacement(hash, existing.value, p, now));
      }
    case Update(x, patch, expected) =>
      if x in s.items {
        PatchedEtag(hash, s.items[x], patch, now);
        WriteKeepsEtag(hash, s, Patched(hash, s.items[x], patch, now));
      }
    case Delete(x, expected) =>
      if x in s.items {
        WriteKeepsEtag(hash, s, Tombstone(s.items[x], now));
      }
    case Restore(x, expected) =>
      if x in s.items {
        WriteKeepsEtag(hash, s, Restored(s.items[x], now));
      }
    case Purge(x, expected) =>
    case Cleanup(ids) =>
      forall id | id in DeleteRows(s, ids).items
        ensures EtagCurrent(hash, DeleteRows(s, ids).items[id])
      {
        DeleteRowsLeavesOthers(s, ids, id);
      }
  }

  // ---------- Runs ----------

  /** UUIDs: no two operations of a run bring the same new id. */
  ghost predicate NewIdsDistinct(trace: seq<(Op, Time)>) {
    forall i, j :: 0 <= i < j < |trace| && NewId(trace[i].0).Some? ==> NewId(trace[i].0) != NewId(trace[j].0)
  }

  /** Operations `i` that bring the id. */
  predicate Brings(trace: seq<(Op, Time)>, i: int, id: string)
    requires 0 <= i < |trace|
  {
    NewId(trace[i].0) == Some(id)
  }

  /** The writes made to a row so far, those that report a conflict included. */
  ghost function Written(cfg: Config, hash: Hash, trace: seq<(Op, Time)>, n: nat, id: string): nat
    requires n <= |trace|
  {
    if n == 0 then 0
    else Written(cfg, hash, trace, n - 1, id) +
         if Writes(cfg, hash, Run(cfg, hash, trace, n - 1), trace[n - 1].0, trace[n - 1].1, id) then 1 else 0
  }

  lemma RunStep(cfg: Config, hash: Hash, trace: seq<(Op, Time)>, n: nat)
    requires n < |trace|
    ensures Run(cfg, hash, trace, n + 1) == Apply(cfg, hash, Run(cfg, hash, trace, n), trace[n].0, trace[n].1).0
  {
  }

  /** What is known of one id after `n` operations, of which `writes` wrote to it. */
  ghost predicate History(s: Records, writes: nat, trace: seq<(Op, Time)>, n: nat, id: string)
    requires n <= |trace|
  {
    && ((forall i :: 0 <= i < n ==> !Brings(trace, i, id)) ==> id !in s.items && writes == 0)
    && (id in s.items ==>
          && s.items[id].version == 1 + writes
          && exists i :: 0 <= i < n && Brings(trace, i, id) && s.items[id].createdAt == trace[i].1)
  }

  /** Main result: on every run, failed calls included, a stored row's version is one plus the number of
      writes made to its id, and its creation time is that of the operation that brought the id. */
  lemma {:induction false} RunHistory(cfg: Config, hash: Hash, trace: seq<(Op, Time)>, n: nat, id: string)
    requires n <= |trace| && NewIdsDistinct(trace)
    ensures History(Run(cfg, hash, trace, n), Written(cfg, hash, trace, n, id), trace, n, id)
  {
    if n == 0 {
    } else {
      RunHistory(cfg, hash, trace, n - 1, id);
      RunReady(cfg, hash, trace, n - 1);
      RunStep(cfg, hash, trace, n - 1);
      HistoryStep(cfg, hash, trace, n - 1, id, Run(cfg, hash, trace, n - 1), Written(cfg, hash, trace, n - 1, id));
    }
  }

  lemma HistoryStep(cfg: Config, hash: Hash, trace: seq<(Op, Time)>, n: nat, id: string, s: Records, writes: nat)
    requires n < |trace| && History(s, writes, trace, n, id) && NewIdsDistinct(trace)
    requires Ready(s, trace[n].0)
    ensures History(Apply(cfg, hash, s, trace[n].0, trace[n].1).0,
                    writes + if Writes(cfg, hash, s, trace[n].0, trace[n].1, id) then 1 else 0, trace, n + 1, id)
  {
    var s' := Apply(cfg, hash, s, trace[n].0, trace[n].1).0;
    if id in s.items {
      if id in s'.items {
        StepEvolves(cfg, hash, s, trace[n].0, trace[n].1, id);
      }
    } else {
      StepIntroduces(cfg, hash, s, trace[n].0, trace[n].1, id);
      if id in s'.items {
        assert Brings(trace, n, id);
      }
    }
  }

  /** Stored ids were brought earlier, so a new one is free. */
  lemma RunReady(cfg: Config, hash: Hash, trace: seq<(Op, Time)>, n: nat)
    requires n < |trace| && NewIdsDistinct(trace)
    ensures Ready(Run(cfg, hash, trace, n), trace[n].0)
    decreases n, 1
  {
    RunIds(cfg, hash, trace, n);
    if NewId(trace[n].0).Some? {
      RunBrought(cfg, hash, trace, n, NewId(trace[n].0).value);
    }
  }

  lemma {:induction false} RunIds(cfg: Config, hash: Hash, trace: seq<(Op, Time)>, n: nat)
    requires n <= |trace| && NewIdsDistinct(trace)
    ensures IdsAgree(Run(cfg, hash, trace, n))
    decreases n, 0
  {
    if n == 0 {
    } else {
      RunReady(cfg, hash, trace, n - 1);
      RunStep(cfg, hash, trace, n - 1);
      StepKeepsIds(cfg, hash, Run(cfg, hash, trace, n - 1), trace[n - 1].0, trace[n - 1].1);
    }
  }

  lemma {:induction false} RunBrought(cfg: Config, hash: Hash, trace: seq<(Op, Time)>, n: nat, id: string)
    requires n <= |trace| && NewIdsDistinct(trace)
    ensures id in Run(cfg, hash, trace, n).items ==> exists i :: 0 <= i < n && Brings(trace, i, id)
    decreases n, 0
  {
    if n == 0 {
    } else {
      RunBrought(cfg, hash, trace, n - 1, id);
      RunReady(cfg, hash, trace, n - 1);
      RunStep(cfg, hash, trace, n - 1);
      BroughtStep(cfg, hash, trace, n - 1, Run(cfg, hash, trace, n - 1), id);
    }
  }

  lemma BroughtStep(cfg: Config, hash: Hash, trace: seq<(Op, Time)>, n: nat, s: Records, id: string)
    requires n < |trace| && Ready(s, trace[n].0)
    ensures id in Apply(cfg, hash, s, trace[n].0, trace[n].1).0.items ==> id in s.items || Brings(trace, n, id)
  {
    if id !in s.items {
      StepIntroduces(cfg, hash, s, trace[n].0, trace[n].1, id);
    }
  }

  /** Main result: on every run created_at never changes. */
  lemma CreatedAtNeverChanges(cfg: Config, hash: Hash, trace: seq<(Op, Time)>, m: nat, n: nat, id: string)
    requires m <= |trace| && n <= |trace| && NewIdsDistinct(trace)
    ensures id in Run(cfg, hash, trace, m).items && id in Run(cfg, hash, trace, n).items ==>
              Run(cfg, hash, trace, m).items[id].createdAt == Run(cfg, hash, trace, n).items[id].createdAt
  {
    RunHistory(cfg, hash, trace, m, id);
    RunHistory(cfg, hash, trace, n, id);
    OneOrigin(trace, id, Run(cfg, hash, trace, m), Written(cfg, hash, trace, m, id), m,
              Run(cfg, hash, trace, n), Written(cfg, hash, trace, n, id), n);
  }

  lemma OneOrigin(trace: seq<(Op, Time)>, id: string, s: Records, w: nat, m: nat, s': Records, w': nat, n: nat)
    requires m <= |trace| && n <= |trace| && NewIdsDistinct(trace)
    requires History(s, w, trace, m, id) && History(s', w', trace, n, id)
    ensures id in s.items && id in s'.items ==> s.items[id].createdAt == s'.items[id].createdAt
  {
    if id in s.items && id in s'.items {
      var i :| 0 <= i < m && Brings(trace, i, id) && s.items[id].createdAt == trace[i].1;
      var j :| 0 <= j < n && Brings(trace, j, id) && s'.items[id].createdAt == trace[j].1;
      assert i == j;
    }
  }

  /** Main result: on every run each stored row's etag is that of its current value, metadata and tags. */
  lemma {:induction false} RunEtags(cfg: Config, hash: Hash, trace: seq<(Op, Time)>, n: nat)
    requires n <= |trace| && NewIdsDistinct(trace)
    ensures EtagsCurrent(hash, Run(cfg, hash, trace, n))
  {
    if n == 0 {
    } else {
      RunEtags(cfg, hash, trace, n - 1);
      RunReady(cfg, hash, trace, n - 1);
      RunStep(cfg, hash, trace, n - 1);
      StepKeepsEtags(cfg, hash, Run(cfg, hash, trace, n - 1), trace[n - 1].0, trace[n - 1].1);
    }
  }

  // ---------- Where every write succeeds ----------

  ghost function Successes(cfg: Config, hash: Hash, trace: seq<(Op, Time)>, n: nat, id: string): nat
    requires n <= |trace|
  {
    if n == 0 then 0
    else Successes(cfg, hash, trace, n - 1, id) +
         if Succeeds(cfg, hash, Run(cfg, hash, trace, n - 1), trace[n - 1].0, trace[n - 1].1, id) then 1 else 0
  }

  /** While the key index agrees with a scan, only a put that brings another row's key writes without
      succeeding. */
  lemma WritesSucceed(cfg: Config, hash: Hash, s: Records, op: Op, now: Time, id: string)
    requires IdsAgree(s) && IdemAgrees(s) && !IdemClash(s, op, now)
    ensures Writes(cfg, hash, s, op, now, id) <==> Succeeds(cfg, hash, s, op, now, id)
  {
    IntendedIsWritten(cfg, hash, s, op, now);
    var row := Intended(cfg, hash, s, op, now);
    if row.Some? {
      if op.Put? {
        PutKeepsIdemIff(hash, s, GetByKey(s, (op.p.namespace, op.p.key), now).value, op.p, now);
      } else {
        KeptIdem(s, row.value);
      }
    }
  }

  /** On a run whose puts bring no other row's key, the version counts the calls that succeeded. */
  lemma {:induction false} WrittenAreSuccesses(cfg: Config, hash: Hash, trace: seq<(Op, Time)>, n: nat, id: string)
    requires n <= |trace| && forall i :: 0 <= i < n ==> !IdemClashAt(cfg, hash, trace, i)
    ensures Written(cfg, hash, trace, n, id) == Successes(cfg, hash, trace, n, id)
  {
    if n == 0 {
    } else {
      WrittenAreSuccesses(cfg, hash, trace, n - 1, id);
      RunIdem(cfg, hash, trace, n - 1);
      assert !IdemClashAt(cfg, hash, trace, n - 1);
      WritesSucceed(cfg, hash, Run(cfg, hash, trace, n - 1), trace[n - 1].0, trace[n - 1].1, id);
    }
  }

  /** A tombstone comes back exactly when no other live row has taken its pair meanwhile, and with
      nothing but its version and times changed. */
  lemma RestoreIff(s: Records, id: string, now: Time)
    requires IndexInv(s, now) && IdemAgrees(s) && id in s.items && s.items[id].deletedAt.Some?
    ensures var (s', r) := RestoreStep(s, id, None, now);
            && (r.Ok? <==> !HeldByOther(s, id, PairOf(s.items[id]), now))
            && (r.Ok? ==> s'.items == s.items[id := Restored(s.items[id], now)])
            && (r.Err? ==> s' == s && r.error == Conflict)
  {
    KeptIdem(s, Restored(s.items[id], now));
    RestoreNoClash(s, id, now);
    var o := GetByKey(s, PairOf(s.items[id]), now);
    if o.Some? && o.value.id != id {
      assert s.items[o.value.id].Live(now);
    }
  }

  /** Delete, then restore: the same content two versions on, whatever the clock did between. */
  lemma DeleteThenRestore(s: Records, id: string, t1: Time, t2: Time)
    requires IndexInv(s, t1) && IdemAgrees(s) && t1 <= t2
    requires id in s.items && s.items[id].Live(t1)
    ensures var s1 := DeleteStep(s, id, None, t1).0;
            var (s2, r) := RestoreStep(s1, id, None, t2);
            && id in s1.items && !s1.items[id].Live(t2)
            && r.Ok?
            && s2.items == s.items[id := s.items[id].(version := s.items[id].version + 2, updatedAt := t2)]
  {
    var row := s.items[id];
    KeptIdem(s, Tombstone(row, t1));
    var s1 := DeleteStep(s, id, None, t1).0;
    SamePairNoClash(s, id, t1);
    UpdateKeepsIndexIff(s, Tombstone(row, t1), t1);
    ClockKeepsIndex(s1, t1, t2);
    KeptIdem(s1, Restored(s1.items[id], t2));
  }

  // ---------- Writes that report a conflict ----------

  /** A put, update, delete or restore whose guards have passed reports a conflict if and only if the index
      gives the key of the row it writes to another row, and has written the row either way. For an update,
      delete or restore that key is the one the row has. */
  lemma ConflictIffTaken(cfg: Config, hash: Hash, s: Records, op: Op, now: Time)
    requires IdsAgree(s) && Intended(cfg, hash, s, op, now).Some?
    ensures var ((s', r), row) := (Apply(cfg, hash, s, op, now), Intended(cfg, hash, s, op, now).value);
            && (r == Err(Conflict) <==> IdemTaken(s, row))
            && (!op.Put? ==> (IdemTaken(s, row) <==> IdemTaken(s, s.items[row.id])))
            && s'.items == s.items[row.id := row] && row.version == s.items[row.id].version + 1
  {
    IntendedIsWritten(cfg, hash, s, op, now);
  }
}
