/** Racing conditional writes: a put, update, delete or restore reads its row and checks If-Match, and
    only later hands the repository the row it computed. */
module RecordWrites {
  import opened Prelude
  import opened Domain
  import opened MemoryStore
  import opened RecordService
  import opened RecordRuns

  /** A call between its read and its write: the row it read, the etag it was held to, the row it will
      write. */
  datatype Call = Call(was: RecordRow, expected: Option<string>, row: RecordRow)

  /** `written` counts the repository updates made to an id since its row was created; `used` holds the
      ids that were ever created. */
  datatype State = State(
    clock: Time, store: Records, calls: map<nat, Call>, written: map<string, nat>, used: set<string>)

  const START := State(0, Store(map[], map[], map[]), map[], map[], {})

  datatype Step =
    | Tick(to: Time)
    | Insert(p: Payload, id: string)
    | Read(call: nat, op: Op, at: Time)
    | Write(call: nat)
    | Remove(id: string)

  function Expected(op: Op): Option<string> {
    match op
    case Put(_, _, expected) => expected
    case Update(_, _, expected) => expected
    case Delete(_, expected) => expected
    case Restore(_, expected) => expected
    case _ => None
  }

  /** One atomic action; one that is not enabled changes nothing. */
  function Do(cfg: Config, hash: Hash, s: State, step: Step): State {
    match step
    case Tick(to) => if s.clock <= to then s.(clock := to) else s
    case Insert(p, id) =>
      if id in s.used then s
      else
        var (store, r) := RepoCreate(s.store, NewRow(hash, p, id, s.clock), s.clock);
        if r.Ok? then s.(store := store, written := s.written[id := 0], used := s.used + {id}) else s.(store := store)
    case Read(call, op, at) =>
      var row := Intended(cfg, hash, s.store, op, at);
      if call in s.calls || at > s.clock || row.None? || row.value.id !in s.store.items then s
      else s.(calls := s.calls[call := Call(s.store.items[row.value.id], Expected(op), row.value)])
    case Write(call) =>
      if call in s.calls then
        var row := s.calls[call].row;
        s.(store := RepoUpdate(s.store, row).0, calls := s.calls - {call},
           written := if row.id in s.written then s.written[row.id := s.written[row.id] + 1] else s.written)
      else s
    case Remove(id) => s.(store := DeleteRow(s.store, id))
  }

  function Run(cfg: Config, hash: Hash, steps: seq<Step>): State {
    if steps == [] then START else Do(cfg, hash, Run(cfg, hash, Front(steps)), Last(steps))
  }

  /** A write whose row has had another version since the call read it. */
  predicate Stale(s: State, step: Step) {
    step.Write? && step.call in s.calls &&
    var c := s.calls[step.call];
    c.row.id in s.store.items && s.store.items[c.row.id].version != c.was.version
  }

  // ---------- Versions ----------

  ghost predicate CallAgrees(s: State, call: nat) {
    call in s.calls ==>
      var c := s.calls[call];
      && c.row.id == c.was.id && c.row.version == c.was.version + 1
      && (c.expected.Some? ==> c.was.etag == c.expected.value)
      && c.was.id in s.used
  }

  ghost predicate RowAgrees(s: State, id: string) {
    id in s.store.items ==> s.store.items[id].id == id && id in s.written && id in s.used
  }

  /** What every run keeps. */
  ghost predicate Inv(s: State) {
    (forall call :: CallAgrees(s, call)) && forall id :: RowAgrees(s, id)
  }

  lemma IntendedPasses(cfg: Config, hash: Hash, s: Records, op: Op, now: Time)
    requires IdsAgree(s) && Intended(cfg, hash, s, op, now).Some?
    ensures var row := Intended(cfg, hash, s, op, now).value;
            row.id in s.items && !EtagRefused(s.items[row.id], Expected(op))
  {
  }

  lemma StepKeepsInv(cfg: Config, hash: Hash, s: State, step: Step)
    requires Inv(s)
    ensures Inv(Do(cfg, hash, s, step))
  {
    var s' := Do(cfg, hash, s, step);
    forall id
      ensures RowAgrees(s', id)
    {
      assert RowAgrees(s, id);
    }
    forall call
      ensures CallAgrees(s', call)
    {
      assert CallAgrees(s, call);
      if step.Read? && step.call == call && s' != s {
        InvIds(s);
        IntendedIsWritten(cfg, hash, s.store, step.op, step.at);
        IntendedPasses(cfg, hash, s.store, step.op, step.at);
        assert RowAgrees(s, s'.calls[call].row.id);
      }
    }
  }

  lemma InvIds(s: State)
    requires Inv(s)
    ensures IdsAgree(s.store)
  {
    forall id | id in s.store.items
      ensures s.store.items[id].id == id
    {
      assert RowAgrees(s, id);
    }
  }

  /** A row's version is one plus the writes made to it. */
  ghost predicate Versioned(s: State) {
    forall id :: VersionCounts(s, id)
  }

  ghost predicate VersionCounts(s: State, id: string) {
    id in s.store.items && id in s.written ==> s.store.items[id].version == 1 + s.written[id]
  }

  /** A step keeps the versions counting the writes if and only if it is no stale write. */
  lemma StepKeepsVersionsIff(cfg: Config, hash: Hash, s: State, step: Step)
    requires Inv(s) && Versioned(s)
    ensures Versioned(Do(cfg, hash, s, step)) <==> !Stale(s, step)
  {
    var s' := Do(cfg, hash, s, step);
    if Stale(s, step) {
      var id := s.calls[step.call].row.id;
      assert CallAgrees(s, step.call) && RowAgrees(s, id) && VersionCounts(s, id);
      assert !VersionCounts(s', id);
    } else {
      forall id
        ensures VersionCounts(s', id)
      {
        assert RowAgrees(s, id) && VersionCounts(s, id);
        if step.Write? {
          assert CallAgrees(s, step.call);
        }
      }
    }
  }

  // ---------- What a call read ----------

  /** The row of a call is at least as new as the call read it, and the same if no newer. */
  ghost predicate Newer(s: State, call: nat) {
    call in s.calls && s.calls[call].was.id in s.store.items ==>
      var (c, now) := (s.calls[call], s.store.items[s.calls[call].was.id]);
      c.was.version <= now.version && (c.was.version == now.version ==> now == c.was)
  }

  lemma StepKeepsNewer(cfg: Config, hash: Hash, s: State, step: Step, call: nat)
    requires Inv(s) && !Stale(s, step) && Newer(s, call)
    ensures Newer(Do(cfg, hash, s, step), call)
  {
    assert CallAgrees(s, call);
    match step
    case Write(other) => assert CallAgrees(s, other);
    case Read(other, op, at) =>
      if other == call && call !in s.calls {
        InvIds(s);
      }
    case _ =>
  }

  ghost predicate StaleFree(cfg: Config, hash: Hash, steps: seq<Step>) {
    steps != [] ==> StaleFree(cfg, hash, Front(steps)) && !Stale(Run(cfg, hash, Front(steps)), Last(steps))
  }

  lemma {:induction false} RunInv(cfg: Config, hash: Hash, steps: seq<Step>)
    ensures Inv(Run(cfg, hash, steps))
  {
    if steps == [] {
    } else {
      RunInv(cfg, hash, Front(steps));
      StepKeepsInv(cfg, hash, Run(cfg, hash, Front(steps)), Last(steps));
    }
  }

  /** Main result: under every interleaving without stale writes a row's version is one plus the writes
      made to it. */
  lemma {:induction false} RaceVersions(cfg: Config, hash: Hash, steps: seq<Step>)
    requires StaleFree(cfg, hash, steps)
    ensures Versioned(Run(cfg, hash, steps))
  {
    if steps == [] {
    } else {
      RaceVersions(cfg, hash, Front(steps));
      RunInv(cfg, hash, Front(steps));
      StepKeepsVersionsIff(cfg, hash, Run(cfg, hash, Front(steps)), Last(steps));
    }
  }

  lemma {:induction false} RunNewer(cfg: Config, hash: Hash, steps: seq<Step>, call: nat)
    requires StaleFree(cfg, hash, steps)
    ensures Newer(Run(cfg, hash, steps), call)
  {
    if steps == [] {
    } else {
      RunNewer(cfg, hash, Front(steps), call);
      RunInv(cfg, hash, Front(steps));
      StepKeepsNewer(cfg, hash, Run(cfg, hash, Front(steps)), Last(steps), call);
    }
  }

  /** Main result: and a write there lands on the very row its call read, so the stored etag is still the
      one its If-Match named. */
  lemma GuardHoldsAtWrite(cfg: Config, hash: Hash, steps: seq<Step>, call: nat)
    requires StaleFree(cfg, hash, steps)
    ensures var s := Run(cfg, hash, steps);
            call in s.calls && s.calls[call].row.id in s.store.items && !Stale(s, Write(call)) ==>
              && s.store.items[s.calls[call].row.id] == s.calls[call].was
              && !EtagRefused(s.store.items[s.calls[call].row.id], s.calls[call].expected)
  {
    RunInv(cfg, hash, steps);
    RunNewer(cfg, hash, steps, call);
    assert CallAgrees(Run(cfg, hash, steps), call);
  }

  // ---------- A lost update ----------

  ghost predicate Reached(cfg: Config, hash: Hash, t: State) {
    exists steps :: Run(cfg, hash, steps) == t
  }

  lemma Onward(cfg: Config, hash: Hash, s: State, step: Step)
    requires Reached(cfg, hash, s)
    ensures Reached(cfg, hash, Do(cfg, hash, s, step))
  {
    var steps :| Run(cfg, hash, steps) == s;
    assert Front(steps + [step]) == steps;
    assert Run(cfg, hash, steps + [step]) == Do(cfg, hash, s, step);
  }

  function OfValue(value: Json): Patch {
    Patch(Some(value), None, None, None, None, None)
  }

  /** A created record of which two updates have been read, both held to its etag. */
  function TwoReads(cfg: Config, hash: Hash, p: Payload, id: string, x: Json, y: Json): State {
    var s := Do(cfg, hash, START, Insert(p, id));
    var e := Some(NewRow(hash, p, id, 0).etag);
    Do(cfg, hash, Do(cfg, hash, s, Read(0, Update(id, OfValue(x), e), 0)), Read(1, Update(id, OfValue(y), e), 0))
  }

  lemma BothRead(cfg: Config, hash: Hash, p: Payload, id: string, x: Json, y: Json)
    requires p.idem.None? && p.expiresAt.None? && Validated(cfg, Normal(p.tags), p.metadata, None, 0).Ok?
    ensures var row := NewRow(hash, p, id, 0);
            var (s, e) := (TwoReads(cfg, hash, p, id, x, y), Some(row.etag));
            && Reached(cfg, hash, s)
            && s.store.items == map[id := row] && s.store.idem == map[] && s.written == map[id := 0]
            && s.calls == map[0 := Call(row, e, Patched(hash, row, OfValue(x), 0)),
                              1 := Call(row, e, Patched(hash, row, OfValue(y), 0))]
  {
    var (s1, e) := (Do(cfg, hash, START, Insert(p, id)), Some(NewRow(hash, p, id, 0).etag));
    FirstInsert(cfg, hash, p, id);
    Onward(cfg, hash, s1, Read(0, Update(id, OfValue(x), e), 0));
    Onward(cfg, hash, Do(cfg, hash, s1, Read(0, Update(id, OfValue(x), e), 0)), Read(1, Update(id, OfValue(y), e), 0));
  }

  lemma FirstInsert(cfg: Config, hash: Hash, p: Payload, id: string)
    requires p.idem.None?
    ensures var s := Do(cfg, hash, START, Insert(p, id));
            && Reached(cfg, hash, s)
            && s == State(0, Store(map[id := NewRow(hash, p, id, 0)], map[(p.namespace, p.key) := id], map[]),
                          map[], map[id := 0], {id})
  {
    assert Run(cfg, hash, []) == START;
    Onward(cfg, hash, START, Insert(p, id));
  }

  /** Two updates of a new record, both held to its etag, both succeed: the second overwrites the first,
      whose etag it was never held to, and after two writes the version is 2. */
  lemma LostUpdate(cfg: Config, hash: Hash, p: Payload, id: string, x: Json, y: Json)
    requires p.idem.None? && p.expiresAt.None? && Validated(cfg, Normal(p.tags), p.metadata, None, 0).Ok?
    ensures var s1 := Do(cfg, hash, TwoReads(cfg, hash, p, id, x, y), Write(0));
            var s2 := Do(cfg, hash, s1, Write(1));
            && Reached(cfg, hash, s2)
            && RepoUpdate(TwoReads(cfg, hash, p, id, x, y).store, TwoReads(cfg, hash, p, id, x, y).calls[0].row).1.Ok?
            && RepoUpdate(s1.store, s1.calls[1].row).1.Ok?
            && id in s1.store.items && s1.store.items[id].payload.value == x && Stale(s1, Write(1))
            && s1.store.items[id].etag == ContentEtag(hash, x, p.metadata, Normal(p.tags))
            && s1.calls[1].expected == Some(ContentEtag(hash, p.value, p.metadata, Normal(p.tags)))
            && id in s2.store.items && s2.store.items[id].payload.value == y
            && s2.store.items[id].version == 2 == s2.written[id]
  {
    var s := TwoReads(cfg, hash, p, id, x, y);
    BothRead(cfg, hash, p, id, x, y);
    Onward(cfg, hash, s, Write(0));
    Onward(cfg, hash, Do(cfg, hash, s, Write(0)), Write(1));
  }
}
