/** The two runs the side conditions of the record service exclude: an update that moves a record onto
    a live one, and a put that brings another row's idempotency key. */
module RecordClashes {
  import opened Prelude
  import opened Domain
  import opened MemoryStore
  import opened RecordService
  import opened RecordRuns

  /** A create that nothing refuses: an unlimited configuration, acceptable input, nothing in the way. */
  predicate Plain(cfg: Config, p: Payload) {
    cfg == Config(0, 0) && p.tags == [] && p.expiresAt.None?
  }

  lemma CreateAlone(cfg: Config, hash: Hash, s: Records, p: Payload, id: string, now: Time)
    requires Plain(cfg, p) && (p.namespace, p.key) !in s.natural && id !in s.items
    requires p.idem.Some? ==> p.idem.value !in s.idem
    ensures var row := NewRow(hash, p, id, now);
            CreateStep(cfg, hash, s, p, id, now) ==
            (Store(s.items[id := row], s.natural[(p.namespace, p.key) := id], WithIdem(s, row)), Ok(row))
    ensures NewRow(hash, p, id, now).Live(now)
  {
    assert Stripped([]) == [];
  }

  function Run2(cfg: Config, hash: Hash, p: Payload, a: string, q: Payload, b: string, now: Time): Records {
    var s := CreateStep(cfg, hash, Store(map[], map[], map[]), p, a, now).0;
    CreateStep(cfg, hash, s, q, b, now).0
  }

  /** Two plain records under different pairs, the first perhaps with an idempotency key. */
  lemma TwoRecords(cfg: Config, hash: Hash, p: Payload, a: string, q: Payload, b: string, now: Time)
    requires Plain(cfg, p) && Plain(cfg, q) && a != b && (p.namespace, p.key) != (q.namespace, q.key) && q.idem.None?
    ensures var s := Run2(cfg, hash, p, a, q, b, now);
            && s.items == map[a := NewRow(hash, p, a, now), b := NewRow(hash, q, b, now)]
            && s.natural == map[(p.namespace, p.key) := a, (q.namespace, q.key) := b]
            && s.idem == (if Truthy(p.idem) then map[p.idem.value := a] else map[])
            && s.items[a].Live(now) && s.items[b].Live(now)
  {
    CreateAlone(cfg, hash, Store(map[], map[], map[]), p, a, now);
    CreateAlone(cfg, hash, CreateStep(cfg, hash, Store(map[], map[], map[]), p, a, now).0, q, b, now);
  }

  function MoveOnto(q: Payload): Patch {
    Patch(None, None, Some(q.namespace), Some(q.key), None, None)
  }

  /** Create two records, move the first onto the second's key: both are live under one pair, and the
      index only finds the mover. */
  lemma KeyMoveMakesTwo(cfg: Config, hash: Hash, p: Payload, a: string, q: Payload, b: string, now: Time)
    requires Plain(cfg, p) && Plain(cfg, q) && a != b && (p.namespace, p.key) != (q.namespace, q.key) && q.idem.None?
    ensures var pair := (q.namespace, q.key);
            var (s, r) := UpdateStep(cfg, hash, Run2(cfg, hash, p, a, q, b, now), a, MoveOnto(q), None, now);
            && r.Ok?
            && Scans(s, pair, now, r.value) && (exists other :: other != r.value && Scans(s, pair, now, other))
            && GetByKey(s, pair, now) == Some(r.value)
  {
    TwoRecords(cfg, hash, p, a, q, b, now);
    var s0 := Run2(cfg, hash, p, a, q, b, now);
    var s := UpdateStep(cfg, hash, s0, a, MoveOnto(q), None, now).0;
    MoveSucceeds(cfg, hash, s0, a, q, now);
    assert Scans(s, (q.namespace, q.key), now, NewRow(hash, q, b, now));
  }

  lemma MoveSucceeds(cfg: Config, hash: Hash, s: Records, a: string, q: Payload, now: Time)
    requires cfg == Config(0, 0) && a in s.items && s.items[a].Live(now) && s.items[a].id == a && s.items[a].tags == []
    requires !IdemTaken(s, s.items[a])
    ensures var row := Patched(hash, s.items[a], MoveOnto(q), now);
            && UpdateStep(cfg, hash, s, a, MoveOnto(q), None, now) == RepoUpdate(s, row)
            && RepoUpdate(s, row).1 == Ok(row) && row.Live(now) && PairOf(row) == (q.namespace, q.key)
  {
  }

  /** Create a record with an idempotency key, and another without; put to the second with the first's
      key. The put reports a conflict, and has replaced the record. */
  lemma FailedPutHasWritten(cfg: Config, hash: Hash, p: Payload, a: string, q: Payload, b: string, now: Time,
      id: string)
    requires Plain(cfg, p) && Plain(cfg, q) && a != b && (p.namespace, p.key) != (q.namespace, q.key)
    requires q.idem.None? && Truthy(p.idem)
    ensures var put := q.(idem := p.idem);
            var (s, r) := PutStep(cfg, hash, Run2(cfg, hash, p, a, q, b, now), put, id, None, now);
            && r == Err(Conflict)
            && b in s.items && s.items[b].version == 2
            && Holds(s, a, p.idem.value) && Holds(s, b, p.idem.value)
  {
    TwoRecords(cfg, hash, p, a, q, b, now);
    var s0 := Run2(cfg, hash, p, a, q, b, now);
    var put := q.(idem := p.idem);
    assert GetByKey(s0, (q.namespace, q.key), now) == Some(s0.items[b]);
    assert Stripped([]) == [];
  }

  /** The state the failed put leaves behind. */
  function AfterFailedPut(cfg: Config, hash: Hash, p: Payload, a: string, q: Payload, b: string, now: Time, id: string)
    : Records
  {
    PutStep(cfg, hash, Run2(cfg, hash, p, a, q, b, now), q.(idem := p.idem), id, None, now).0
  }

  /** While the first record keeps the key, a delete of the second reports a conflict, and deletes it all
      the same; once the first is purged the delete succeeds. */
  lemma FailedDeleteHasDeleted(cfg: Config, hash: Hash, p: Payload, a: string, q: Payload, b: string, now: Time,
      id: string)
    requires Plain(cfg, p) && Plain(cfg, q) && a != b && (p.namespace, p.key) != (q.namespace, q.key)
    requires q.idem.None? && Truthy(p.idem)
    ensures var (s, r) := DeleteStep(AfterFailedPut(cfg, hash, p, a, q, b, now, id), b, None, now);
            && r == Err(Conflict)
            && b in s.items && s.items[b].deletedAt == Some(now)
            && GetByKey(s, (q.namespace, q.key), now).None?
    ensures var purged := PurgeStep(AfterFailedPut(cfg, hash, p, a, q, b, now, id), a, None).0;
            DeleteStep(purged, b, None, now).1.Ok?
  {
    TwoRecords(cfg, hash, p, a, q, b, now);
    var s0 := Run2(cfg, hash, p, a, q, b, now);
    assert GetByKey(s0, (q.namespace, q.key), now) == Some(s0.items[b]);
    assert Stripped([]) == [];
  }
}
