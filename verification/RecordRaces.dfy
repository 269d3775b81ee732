/** Racing record creates: the reclaim of an expired occupant, the pre-check, the repository's lookup,
    drop and insert under separate locks, the recount and the roll-back, interleaved with rewrites,
    removals and the clock. */
module RecordRaces {
  import opened Prelude
  import opened Domain
  import opened MemoryStore
  import opened RecordService
  import opened RecordRuns

  datatype Phase =
    | Begun
    | Reclaiming(victim: string)  // saw an expired occupant, to be removed
    | Ready
    | Checked   // the owner was below the limit
    | ToDrop    // saw an occupant that was not live
    | ToInsert
    | Inserted
    | DropRow   // over the limit: row to be deleted
    | Done
    | Failed

  datatype Creator = Creator(p: Payload, phase: Phase)

  /** One creator per fresh record id. */
  datatype State = State(clock: Time, store: Records, creators: map<string, Creator>)

  const START := State(0, Store(map[], map[], map[]), map[])

  /** `Rewrite` is the repository update that ends a put, update, delete or restore, of any content;
      `Remove` the delete that ends a purge, a cleanup or the reclaim of an expired holder of a key. */
  datatype Step =
    | Tick(to: Time)
    | Begin(id: string, p: Payload)
    | Inspect(id: string, at: Time)
    | Reclaim(id: string)
    | PreCount(id: string, at: Time)
    | Lookup(id: string, at: Time)
    | Drop(id: string)
    | Insert(id: string)
    | Recount(id: string, at: Time)
    | RollBack(id: string)
    | Rewrite(row: RecordRow)
    | Remove(id: string)

  function Turned(s: State, id: string, phase: Phase): State
    requires id in s.creators
  {
    s.(creators := s.creators[id := s.creators[id].(phase := phase)])
  }

  predicate In(s: State, id: string, phase: Phase) {
    id in s.creators && s.creators[id].phase == phase
  }

  function PairFor(s: State, id: string): Natural
    requires id in s.creators
  {
    (s.creators[id].p.namespace, s.creators[id].p.key)
  }

  /** One atomic action; one that is not enabled changes nothing. */
  function Do(cfg: Config, hash: Hash, s: State, step: Step): State {
    match step
    case Tick(to) => if s.clock <= to then s.(clock := to) else s
    case Begin(id, p) => if id in s.creators then s else s.(creators := s.creators[id := Creator(p, Begun)])
    case Inspect(id, at) =>
      if In(s, id, Begun) && at <= s.clock then
        var o := Occupant(s.store, PairFor(s, id));
        var expired := o.Some? && o.value.deletedAt.None? && o.value.Expired(at);
        Turned(s, id, if expired then Reclaiming(o.value.id) else Ready)
      else s
    case Reclaim(id) =>
      if id in s.creators && s.creators[id].phase.Reclaiming? then
        match Deleted(s.store, s.creators[id].phase.victim)
        case Ok(store) => Turned(s, id, Ready).(store := store)
        case Err(_) => Turned(s, id, Failed)
      else s
    case PreCount(id, at) =>
      if In(s, id, Ready) && at <= s.clock then
        Turned(s, id, if AtQuota(cfg, s.store, s.creators[id].p.owner, at) then Failed else Checked)
      else s
    case Lookup(id, at) =>
      if In(s, id, Checked) && at <= s.clock then
        var o := Occupant(s.store, PairFor(s, id));
        Turned(s, id, if o.Some? && !o.value.Live(at) then ToDrop else ToInsert)
      else s
    case Drop(id) =>
      if In(s, id, ToDrop)
      then Turned(s, id, ToInsert).(store := s.store.(natural := s.store.natural - {PairFor(s, id)})) else s
    case Insert(id) =>
      if In(s, id, ToInsert) then
        match Created(s.store, NewRow(hash, s.creators[id].p, id, s.clock), Some(PairFor(s, id)))
        case Ok(store) => Turned(s, id, Inserted).(store := store)
        case Err(_) => Turned(s, id, Failed)
      else s
    case Recount(id, at) =>
      if In(s, id, Inserted) && at <= s.clock then
        Turned(s, id, if OverQuota(cfg, s.store, s.creators[id].p.owner, at) then DropRow else Done)
      else s
    case RollBack(id) =>
      if In(s, id, DropRow) then Turned(s, id, Failed).(store := DeleteRow(s.store, id)) else s
    case Rewrite(row) => s.(store := RepoUpdate(s.store, row).0)
    case Remove(id) => s.(store := DeleteRow(s.store, id))
  }

  function Run(cfg: Config, hash: Hash, steps: seq<Step>): State {
    if steps == [] then START else Do(cfg, hash, Run(cfg, hash, Front(steps)), Last(steps))
  }

  // ---------- The natural-key index ----------

  ghost predicate Indexed(s: State) {
    IndexInv(s.store, s.clock)
  }

  /** The steps that unsettle the index: dropping a slot a live row has taken since the lookup, and
      rewriting a row onto a live row's pair. */
  ghost predicate Clashes(s: State, step: Step) {
    match step
    case Drop(id) => In(s, id, ToDrop) && GetByKey(s.store, PairFor(s, id), s.clock).Some?
    case Rewrite(row) => row.id in s.store.items && HeldByOther(s.store, row.id, PairOf(row), s.clock)
    case _ => false
  }

  lemma DropKeepsIff(s: Records, pair: Natural, now: Time)
    requires IndexInv(s, now)
    ensures IndexInv(s.(natural := s.natural - {pair}), now) <==> GetByKey(s, pair, now).None?
  {
    var o := GetByKey(s, pair, now);
    if o.Some? {
      assert s.items[o.value.id].Live(now);
    }
  }

  lemma InsertKeepsIndex(hash: Hash, s: State, id: string)
    requires Indexed(s) && id in s.creators
    ensures var r := Created(s.store, NewRow(hash, s.creators[id].p, id, s.clock), Some(PairFor(s, id)));
            r.Ok? ==> IndexInv(r.value, s.clock)
  {
    var row := NewRow(hash, s.creators[id].p, id, s.clock);
    if Created(s.store, row, Some(PairOf(row))).Ok? {
      CreatedKeepsIndex(s.store, row, s.clock);
    }
  }

  /** A step keeps the index in agreement with a scan if and only if it is not one of those. */
  lemma StepKeepsIff(cfg: Config, hash: Hash, s: State, step: Step)
    requires Indexed(s)
    ensures Indexed(Do(cfg, hash, s, step)) <==> !Clashes(s, step)
  {
    match step
    case Tick(to) =>
      if s.clock <= to {
        ClockKeepsIndex(s.store, s.clock, to);
      }
    case Drop(id) =>
      if In(s, id, ToDrop) {
        DropKeepsIff(s.store, PairFor(s, id), s.clock);
      }
    case Insert(id) =>
      if In(s, id, ToInsert) {
        InsertKeepsIndex(hash, s, id);
      }
    case Reclaim(id) =>
      if id in s.creators && s.creators[id].phase.Reclaiming? {
        DeleteKeepsIndex(s.store, s.creators[id].phase.victim, s.clock);
      }
    case RollBack(id) => DeleteKeepsIndex(s.store, id, s.clock);
    case Rewrite(row) =>
      if row.id in s.store.items {
        UpdateKeepsIndexIff(s.store, row, s.clock);
      }
    case Remove(id) => DeleteKeepsIndex(s.store, id, s.clock);
    case _ =>
  }

  ghost predicate ClashFree(cfg: Config, hash: Hash, steps: seq<Step>) {
    steps == [] || (ClashFree(cfg, hash, Front(steps)) && !Clashes(Run(cfg, hash, Front(steps)), Last(steps)))
  }

  /** Main result: under every interleaving without such a step, the index agrees with a scan, so at
      most one live row has a pair. */
  lemma {:induction false} RaceIndex(cfg: Config, hash: Hash, steps: seq<Step>)
    requires ClashFree(cfg, hash, steps)
    ensures Indexed(Run(cfg, hash, steps))
  {
    if steps == [] {
    } else {
      RaceIndex(cfg, hash, Front(steps));
      StepKeepsIff(cfg, hash, Run(cfg, hash, Front(steps)), Last(steps));
    }
  }

  // ---------- The quota ----------

  /** A stored row belongs to a creator that has inserted it. */
  ghost predicate RowsCreated(s: State) {
    forall id :: RowCreated(s, id)
  }

  predicate RowCreated(s: State, id: string) {
    id in s.store.items ==>
      s.store.items[id].id == id && id in s.creators && s.creators[id].phase in {Inserted, DropRow, Done}
  }

  lemma StepRowCreated(cfg: Config, hash: Hash, s: State, step: Step, id: string)
    requires RowCreated(s, id)
    ensures RowCreated(Do(cfg, hash, s, step), id)
  {
  }

  lemma StepRowsCreated(cfg: Config, hash: Hash, s: State, step: Step)
    requires RowsCreated(s)
    ensures RowsCreated(Do(cfg, hash, s, step))
  {
    forall id
      ensures RowCreated(Do(cfg, hash, s, step), id)
    {
      StepRowCreated(cfg, hash, s, step, id);
    }
  }

  lemma {:induction false} RunRowsCreated(cfg: Config, hash: Hash, steps: seq<Step>)
    ensures RowsCreated(Run(cfg, hash, steps))
  {
    if steps == [] {
    } else {
      RunRowsCreated(cfg, hash, Front(steps));
      StepRowsCreated(cfg, hash, Run(cfg, hash, Front(steps)), Last(steps));
    }
  }

  predicate LiveOf(s: State, id: string, owner: string) {
    id in s.store.items && s.store.items[id].owner == owner && s.store.items[id].Live(s.clock)
  }

  /** The owner's live rows whose creator has passed the recount, or was never counted against this
      owner. */
  ghost function Settled(s: State, owner: string): set<string> {
    set id | id in s.store.items && LiveOf(s, id, owner) && id in s.creators
             && (s.creators[id].phase == Done || s.creators[id].p.owner != owner)
  }

  predicate GainsBy(s: State, step: Step, owner: string) {
    step.Rewrite? && Gains(s.store, step.row, owner, s.clock)
  }

  function GainsSoFar(cfg: Config, hash: Hash, steps: seq<Step>, owner: string): nat {
    if steps == [] then 0
    else
      GainsSoFar(cfg, hash, Front(steps), owner) +
      if GainsBy(Run(cfg, hash, Front(steps)), Last(steps), owner) then 1 else 0
  }

  lemma GainAddsOne(cfg: Config, hash: Hash, s: State, step: Step, owner: string)
    requires RowsCreated(s) && step.Rewrite?
    ensures Settled(Do(cfg, hash, s, step), owner) <=
            Settled(s, owner) + if GainsBy(s, step, owner) then {step.row.id} else {}
  {
  }

  /** A passed recount saw every settled row, and the creator's own. */
  lemma RecountBounds(cfg: Config, hash: Hash, s: State, step: Step, owner: string)
    requires RowsCreated(s) && step.Recount? && cfg.maxRecords != 0
    ensures var after := Settled(Do(cfg, hash, s, step), owner);
            after <= Settled(s, owner) || |after| <= cfg.maxRecords
  {
    var s' := Do(cfg, hash, s, step);
    if In(s, step.id, Inserted) && step.at <= s.clock && In(s', step.id, Done) && s.creators[step.id].p.owner == owner {
      var counted := set id | id in s.store.items && s.store.items[id].owner == owner
          && s.store.items[id].Live(step.at);
      assert Settled(s', owner) <= counted;
      SubsetSize(Settled(s', owner), counted);
    }
  }

  /** Nothing else adds to the settled rows: a row enters under its creator's owner, uncounted. */
  lemma OthersAddNothing(cfg: Config, hash: Hash, s: State, step: Step, owner: string)
    requires RowsCreated(s) && !step.Rewrite? && !step.Recount?
    ensures Settled(Do(cfg, hash, s, step), owner) <= Settled(s, owner)
  {
    forall id | id in Settled(Do(cfg, hash, s, step), owner)
      ensures id in Settled(s, owner)
    {
      assert RowCreated(s, id);
    }
  }

  lemma SettledStep(cfg: Config, hash: Hash, s: State, step: Step, owner: string, slack: nat)
    requires RowsCreated(s) && cfg.maxRecords != 0 && |Settled(s, owner)| <= cfg.maxRecords + slack
    ensures |Settled(Do(cfg, hash, s, step), owner)| <=
              cfg.maxRecords + slack + if GainsBy(s, step, owner) then 1 else 0
  {
    var before, after := Settled(s, owner), Settled(Do(cfg, hash, s, step), owner);
    if step.Rewrite? {
      GainAddsOne(cfg, hash, s, step, owner);
      SubsetSize(after, before + if GainsBy(s, step, owner) then {step.row.id} else {});
    } else if step.Recount? {
      RecountBounds(cfg, hash, s, step, owner);
      if after <= before {
        SubsetSize(after, before);
      }
    } else {
      OthersAddNothing(cfg, hash, s, step, owner);
      SubsetSize(after, before);
    }
  }

  /** Main result: under any interleaving an owner's live rows past the recount exceed the record limit
      by at most the rewrites that brought it a live row, which check no quota. */
  lemma {:induction false} RecordsBounded(cfg: Config, hash: Hash, steps: seq<Step>, owner: string)
    requires cfg.maxRecords != 0
    ensures |Settled(Run(cfg, hash, steps), owner)| <= cfg.maxRecords + GainsSoFar(cfg, hash, steps, owner)
  {
    if steps == [] {
    } else {
      RecordsBounded(cfg, hash, Front(steps), owner);
      RunRowsCreated(cfg, hash, Front(steps));
      SettledStep(cfg, hash, Run(cfg, hash, Front(steps)), Last(steps), owner,
          GainsSoFar(cfg, hash, Front(steps), owner));
    }
  }

  /** Every create has returned. */
  ghost predicate Quiet(s: State) {
    forall id :: id in s.creators ==> s.creators[id].phase in {Done, Failed}
  }

  // ---------- Rewrites that fit ----------

  /** The guard that restore and put do not have: a rewrite that brings the owner a live row finds it
      below the limit. */
  predicate GainFits(cfg: Config, s: State, step: Step, owner: string) {
    GainsBy(s, step, owner) ==> !AtQuota(cfg, s.store, owner, s.clock)
  }

  ghost predicate GainsFit(cfg: Config, hash: Hash, steps: seq<Step>, owner: string) {
    steps != [] ==>
      && GainsFit(cfg, hash, Front(steps), owner)
      && GainFits(cfg, Run(cfg, hash, Front(steps)), Last(steps), owner)
  }

  lemma {:induction false} NoGainsFit(cfg: Config, hash: Hash, steps: seq<Step>, owner: string)
    requires GainsSoFar(cfg, hash, steps, owner) == 0
    ensures GainsFit(cfg, hash, steps, owner)
  {
    if steps == [] {
    } else {
      NoGainsFit(cfg, hash, Front(steps), owner);
    }
  }

  ghost function LiveRows(s: State, owner: string): set<string> {
    set id | id in s.store.items && s.store.items[id].owner == owner && s.store.items[id].Live(s.clock)
  }

  lemma FittingGain(cfg: Config, hash: Hash, s: State, step: Step, owner: string)
    requires RowsCreated(s) && cfg.maxRecords != 0 && step.Rewrite? && GainFits(cfg, s, step, owner)
    requires |Settled(s, owner)| <= cfg.maxRecords
    ensures |Settled(Do(cfg, hash, s, step), owner)| <= cfg.maxRecords
  {
    var after := Settled(Do(cfg, hash, s, step), owner);
    GainAddsOne(cfg, hash, s, step, owner);
    if GainsBy(s, step, owner) {
      SubsetSize(after, LiveRows(s, owner) + {step.row.id});
    } else {
      SubsetSize(after, Settled(s, owner));
    }
  }

  lemma {:induction false} RecordsFit(cfg: Config, hash: Hash, steps: seq<Step>, owner: string)
    requires cfg.maxRecords != 0 && GainsFit(cfg, hash, steps, owner)
    ensures |Settled(Run(cfg, hash, steps), owner)| <= cfg.maxRecords
  {
    if steps == [] {
    } else {
      var s, step := Run(cfg, hash, Front(steps)), Last(steps);
      RecordsFit(cfg, hash, Front(steps), owner);
      RunRowsCreated(cfg, hash, Front(steps));
      if step.Rewrite? {
        FittingGain(cfg, hash, s, step, owner);
      } else {
        SettledStep(cfg, hash, s, step, owner, 0);
      }
    }
  }

  /** Main result: where the rewrites that bring the owner a live row all fit, the limit holds of all its
      live records whenever no create is in flight, however the creators raced. */
  lemma QuotaHoldsAtRest(cfg: Config, hash: Hash, steps: seq<Step>, owner: string)
    requires Quiet(Run(cfg, hash, steps)) && GainsFit(cfg, hash, steps, owner)
    ensures !OverQuota(cfg, Run(cfg, hash, steps).store, owner, Run(cfg, hash, steps).clock)
  {
    var s := Run(cfg, hash, steps);
    RunRowsCreated(cfg, hash, steps);
    if cfg.maxRecords != 0 {
      RecordsFit(cfg, hash, steps, owner);
      forall id | id in LiveRows(s, owner)
        ensures id in Settled(s, owner)
      {
        assert RowCreated(s, id);
      }
      SubsetSize(LiveRows(s, owner), Settled(s, owner));
    }
  }

  /** Main result: and one more rewrite there keeps the limit if and only if it fits as well. */
  lemma RewriteAtRestIff(cfg: Config, hash: Hash, steps: seq<Step>, row: RecordRow, owner: string)
    requires Quiet(Run(cfg, hash, steps)) && GainsFit(cfg, hash, steps, owner)
    ensures var t := Run(cfg, hash, steps + [Rewrite(row)]);
            && Quiet(t)
            && (!OverQuota(cfg, t.store, owner, t.clock) <==> GainFits(cfg, Run(cfg, hash, steps), Rewrite(row), owner))
  {
    assert Front(steps + [Rewrite(row)]) == steps;
    QuotaHoldsAtRest(cfg, hash, steps, owner);
    RewriteQuotaIff(cfg, Run(cfg, hash, steps).store, row, owner, Run(cfg, hash, steps).clock);
  }

  // ---------- The idempotency index ----------

  /** The steps that unsettle the key index: rewriting a row with another row's key, or without the key
      it holds, as a put or update from a stale read does. */
  predicate IdemClashes(s: State, step: Step) {
    step.Rewrite? && step.row.id in s.store.items && (IdemTaken(s.store, step.row) || GivesUpKey(s.store, step.row))
  }

  /** A step keeps the key index in agreement with a scan if and only if it is not one of those. */
  lemma StepKeepsIdemIff(cfg: Config, hash: Hash, s: State, step: Step)
    requires RowsCreated(s) && IdemAgrees(s.store)
    ensures IdemAgrees(Do(cfg, hash, s, step).store) <==> !IdemClashes(s, step)
  {
    CreatedIdsAgree(s);
    match step
    case Drop(id) => DropsKeepIdem(s.store, Do(cfg, hash, s, step).store);
    case Insert(id) =>
      if In(s, id, ToInsert) {
        var row := NewRow(hash, s.creators[id].p, id, s.clock);
        if Created(s.store, row, Some(PairFor(s, id))).Ok? {
          CreateKeepsIdem(s.store, row, Some(PairFor(s, id)));
        }
      }
    case Reclaim(id) =>
      if id in s.creators && s.creators[id].phase.Reclaiming? {
        RemovalKeepsIdem(s.store, s.creators[id].phase.victim);
      }
    case RollBack(id) => RemovalKeepsIdem(s.store, id);
    case Remove(id) => RemovalKeepsIdem(s.store, id);
    case Rewrite(row) =>
      if row.id in s.store.items {
        UpdateKeepsIdemIff(s.store, row, Some(PairOf(row)));
      }
    case _ =>
  }

  lemma CreatedIdsAgree(s: State)
    requires RowsCreated(s)
    ensures IdsAgree(s.store)
  {
    forall id | id in s.store.items
      ensures s.store.items[id].id == id
    {
      assert RowCreated(s, id);
    }
  }

  lemma DropsKeepIdem(s: Records, s': Records)
    requires IdemAgrees(s) && s'.items == s.items && s'.idem == s.idem
    ensures IdemAgrees(s')
  {
    forall k, id
      ensures (k in s'.idem && s'.idem[k] == id) <==> MemoryStore.Holds(s', id, k)
    {
      assert (k in s.idem && s.idem[k] == id) <==> MemoryStore.Holds(s, id, k);
    }
  }

  lemma RemovalKeepsIdem(s: Records, id: string)
    requires IdsAgree(s) && IdemAgrees(s)
    ensures IdemAgrees(DeleteRow(s, id))
  {
    if Deleted(s, id).Ok? {
      DeleteKeepsIdem(s, id);
    }
  }

  ghost predicate IdemClashFree(cfg: Config, hash: Hash, steps: seq<Step>) {
    steps != [] ==>
      IdemClashFree(cfg, hash, Front(steps)) && !IdemClashes(Run(cfg, hash, Front(steps)), Last(steps))
  }

  /** So under every interleaving without such a step at most one stored row holds a key. */
  lemma {:induction false} RaceIdem(cfg: Config, hash: Hash, steps: seq<Step>)
    requires IdemClashFree(cfg, hash, steps)
    ensures IdemAgrees(Run(cfg, hash, steps).store)
  {
    if steps == [] {
    } else {
      RaceIdem(cfg, hash, Front(steps));
      RunRowsCreated(cfg, hash, Front(steps));
      StepKeepsIdemIff(cfg, hash, Run(cfg, hash, Front(steps)), Last(steps));
    }
  }

  // ---------- Two creates over one dead occupant ----------

  ghost predicate Reached(cfg: Config, hash: Hash, t: State) {
    exists steps :: Run(cfg, hash, steps) == t
  }

  /** `r` holds at the start and is kept by every step. */
  ghost predicate Kept(cfg: Config, hash: Hash, r: State -> bool) {
    r(START) && forall s, step :: r(s) ==> r(Do(cfg, hash, s, step))
  }

  lemma ReachedKept(cfg: Config, hash: Hash)
    ensures Kept(cfg, hash, t => Reached(cfg, hash, t))
  {
    assert Run(cfg, hash, []) == START;
    forall s, step | Reached(cfg, hash, s)
      ensures Reached(cfg, hash, Do(cfg, hash, s, step))
    {
      var steps :| Run(cfg, hash, steps) == s;
      assert Front(steps + [step]) == steps;
      assert Run(cfg, hash, steps + [step]) == Do(cfg, hash, s, step);
    }
  }

  lemma Onward(cfg: Config, hash: Hash, r: State -> bool, s: State, step: Step, t: State)
    requires Kept(cfg, hash, r) && r(s) && Do(cfg, hash, s, step) == t
    ensures r(t)
  {
  }

  function With(s: State, id: string, p: Payload, phase: Phase): State {
    s.(creators := s.creators[id := Creator(p, phase)])
  }

  /** A creator as far as its lookup, where there is nothing to reclaim. */
  lemma LooksUp(cfg: Config, hash: Hash, r: State -> bool, s: State, id: string, p: Payload)
    requires Kept(cfg, hash, r) && r(s) && id !in s.creators && !AtQuota(cfg, s.store, p.owner, s.clock)
    requires var o := Occupant(s.store, (p.namespace, p.key));
             o.Some? ==> o.value.deletedAt.Some? || !o.value.Expired(s.clock)
    ensures r(With(s, id, p, Seen(s, p)))
  {
    Onward(cfg, hash, r, s, Begin(id, p), With(s, id, p, Begun));
    Turns(cfg, hash, r, s, id, p, Begun, Inspect(id, s.clock), Ready);
    Turns(cfg, hash, r, s, id, p, Ready, PreCount(id, s.clock), Checked);
    Turns(cfg, hash, r, s, id, p, Checked, Lookup(id, s.clock), Seen(s, p));
  }

  /** What the lookup decides. */
  function Seen(s: State, p: Payload): Phase {
    var o := Occupant(s.store, (p.namespace, p.key));
    if o.Some? && !o.value.Live(s.clock) then ToDrop else ToInsert
  }

  /** A step that only moves the creator. */
  lemma Turns(cfg: Config, hash: Hash, r: State -> bool, s: State, id: string, p: Payload,
              phase: Phase, step: Step, next: Phase)
    requires Kept(cfg, hash, r) && r(With(s, id, p, phase))
    requires Do(cfg, hash, With(s, id, p, phase), step) == With(With(s, id, p, phase), id, p, next)
    ensures r(With(s, id, p, next))
  {
    assert With(With(s, id, p, phase), id, p, next) == With(s, id, p, next);
  }

  function WithRow(hash: Hash, s: State, id: string, p: Payload, natural: map<Natural, string>): State {
    s.(store := Store(s.store.items[id := NewRow(hash, p, id, s.clock)], natural[(p.namespace, p.key) := id],
        s.store.idem))
  }

  lemma Inserts(cfg: Config, hash: Hash, r: State -> bool, s: State, id: string, p: Payload)
    requires Kept(cfg, hash, r) && r(With(s, id, p, ToInsert)) && p.idem.None?
    requires id !in s.store.items && (p.namespace, p.key) !in s.store.natural
    ensures r(With(WithRow(hash, s, id, p, s.store.natural), id, p, Inserted))
  {
    var t := With(WithRow(hash, s, id, p, s.store.natural), id, p, Inserted);
    assert With(s, id, p, ToInsert).creators[id := Creator(p, Inserted)] == t.creators;
    Onward(cfg, hash, r, With(s, id, p, ToInsert), Insert(id), t);
  }

  /** The drop a lookup decided on, whatever has taken the slot since, and the insert after it. */
  lemma DropsAndInserts(cfg: Config, hash: Hash, r: State -> bool, s: State, id: string, p: Payload)
    requires Kept(cfg, hash, r) && r(With(s, id, p, ToDrop)) && p.idem.None? && id !in s.store.items
    ensures r(With(WithRow(hash, s, id, p, s.store.natural - {(p.namespace, p.key)}), id, p, Inserted))
  {
    var u := s.(store := s.store.(natural := s.store.natural - {(p.namespace, p.key)}));
    assert With(s, id, p, ToDrop).creators[id := Creator(p, ToInsert)] == s.creators[id := Creator(p, ToInsert)];
    Onward(cfg, hash, r, With(s, id, p, ToDrop), Drop(id), With(u, id, p, ToInsert));
    Inserts(cfg, hash, r, u, id, p);
  }

  lemma Recounts(cfg: Config, hash: Hash, r: State -> bool, s: State, id: string, p: Payload)
    requires Kept(cfg, hash, r) && r(With(s, id, p, Inserted)) && !OverQuota(cfg, s.store, p.owner, s.clock)
    ensures r(With(s, id, p, Done))
  {
    Turns(cfg, hash, r, s, id, p, Inserted, Recount(id, s.clock), Done);
  }

  /** A record created on its own. */
  function CreatedAlone(hash: Hash, s: State, id: string, p: Payload): State {
    With(WithRow(hash, s, id, p, s.store.natural), id, p, Done)
  }

  lemma AloneSucceeds(cfg: Config, hash: Hash, r: State -> bool, s: State, id: string, p: Payload)
    requires Kept(cfg, hash, r) && r(s) && id !in s.creators && id !in s.store.items && p.idem.None?
    requires (p.namespace, p.key) !in s.store.natural && !AtQuota(cfg, s.store, p.owner, s.clock)
    ensures r(CreatedAlone(hash, s, id, p))
  {
    LooksUp(cfg, hash, r, s, id, p);
    Inserts(cfg, hash, r, s, id, p);
    var t := WithRow(hash, s, id, p, s.store.natural);
    SubsetSize(LiveRows(t, p.owner), LiveRows(s, p.owner) + {id});
    Recounts(cfg, hash, r, t, id, p);
  }

  // ---------- Two creates over one tombstone ----------

  /** A record created and deleted: its slot is taken by a tombstone. */
  function Buried(hash: Hash, p: Payload, dead: string): State {
    var s := CreatedAlone(hash, START, dead, p);
    s.(store := s.store.(items := s.store.items[dead := Tombstone(NewRow(hash, p, dead, 0), 0)]))
  }

  lemma Buries(cfg: Config, hash: Hash, r: State -> bool, p: Payload, dead: string)
    requires Kept(cfg, hash, r) && p.idem.None?
    ensures r(Buried(hash, p, dead))
    ensures forall owner :: CountByOwner(Buried(hash, p, dead).store, owner, 0) == 0
  {
    assert CountByOwner(START.store, p.owner, 0) == 0;
    AloneSucceeds(cfg, hash, r, START, dead, p);
    var s := CreatedAlone(hash, START, dead, p);
    Onward(cfg, hash, r, s, Rewrite(Tombstone(NewRow(hash, p, dead, 0), 0)), Buried(hash, p, dead));
    forall owner
      ensures CountByOwner(Buried(hash, p, dead).store, owner, 0) == 0
    {
      assert LiveRows(Buried(hash, p, dead), owner) == {};
    }
  }

  lemma Swap(s: State, a: string, p: Payload, x: Phase, b: string, q: Payload, y: Phase)
    requires a != b
    ensures With(With(s, a, p, x), b, q, y) == With(With(s, b, q, y), a, p, x)
  {
    assert With(With(s, a, p, x), b, q, y).creators == With(With(s, b, q, y), a, p, x).creators;
  }

  /** Two creators of one pair, for two owners, both having seen the tombstone. */
  lemma BothLookUp(cfg: Config, hash: Hash, r: State -> bool, s: State, p: Payload, q: Payload, a: string, b: string)
    requires Kept(cfg, hash, r) && r(s) && a != b && a !in s.creators && b !in s.creators
    requires (p.namespace, p.key) == (q.namespace, q.key)
    requires !AtQuota(cfg, s.store, p.owner, s.clock) && !AtQuota(cfg, s.store, q.owner, s.clock)
    requires var o := Occupant(s.store, (p.namespace, p.key)); o.Some? && o.value.deletedAt.Some?
    ensures r(With(With(s, b, q, ToDrop), a, p, ToDrop))
  {
    LooksUp(cfg, hash, r, s, a, p);
    LooksUp(cfg, hash, r, With(s, a, p, ToDrop), b, q);
    Swap(s, a, p, ToDrop, b, q, ToDrop);
  }

  /** Then both drop and insert, one after the other, and both recounts pass. */
  lemma BothInsert(cfg: Config, hash: Hash, r: State -> bool, s: State, p: Payload, q: Payload, a: string, b: string)
    requires Kept(cfg, hash, r) && r(With(With(s, b, q, ToDrop), a, p, ToDrop)) && p.idem.None? && q.idem.None?
    requires a != b && a !in s.store.items && b !in s.store.items
    ensures r(With(With(Twice(hash, s, p, q, a, b), a, p, Inserted), b, q, Inserted))
  {
    var s1 := With(s, b, q, ToDrop);
    var s2 := Replaced(hash, s, a, p);
    DropsAndInserts(cfg, hash, r, s1, a, p);
    assert With(Replaced(hash, s1, a, p), a, p, Inserted) == With(With(s2, b, q, ToDrop), a, p, Inserted);
    Swap(s2, b, q, ToDrop, a, p, Inserted);
    DropsAndInserts(cfg, hash, r, With(s2, a, p, Inserted), b, q);
    assert With(Replaced(hash, With(s2, a, p, Inserted), b, q), b, q, Inserted) ==
           With(With(Twice(hash, s, p, q, a, b), a, p, Inserted), b, q, Inserted);
  }

  /** A slot dropped and taken by a new row. */
  function Replaced(hash: Hash, s: State, id: string, p: Payload): State {
    WithRow(hash, s, id, p, s.store.natural - {(p.namespace, p.key)})
  }

  function Twice(hash: Hash, s: State, p: Payload, q: Payload, a: string, b: string): State {
    Replaced(hash, Replaced(hash, s, a, p), b, q)
  }

  lemma BothRecount(cfg: Config, hash: Hash, r: State -> bool, t: State, p: Payload, q: Payload, a: string, b: string)
    requires Kept(cfg, hash, r) && r(With(With(t, a, p, Inserted), b, q, Inserted)) && a != b
    requires !OverQuota(cfg, t.store, p.owner, t.clock) && !OverQuota(cfg, t.store, q.owner, t.clock)
    ensures r(With(With(t, a, p, Done), b, q, Done))
  {
    Recounts(cfg, hash, r, With(t, a, p, Inserted), b, q);
    Swap(t, a, p, Inserted, b, q, Done);
    Recounts(cfg, hash, r, With(t, b, q, Done), a, p);
    Swap(t, b, q, Done, a, p, Done);
  }

  /** So the side condition on drops excludes runs that do happen, under any limit: a record is created
      and deleted, two creates of its pair by two owners both succeed, and at rest both rows are live. */
  lemma StaleDropHappens(cfg: Config, hash: Hash, p: Payload, q: Payload)
    requires (p.namespace, p.key) == (q.namespace, q.key) && p.owner != q.owner
    requires p.idem.None? && q.idem.None? && p.expiresAt.None? && q.expiresAt.None?
    ensures exists t :: Reached(cfg, hash, t) && Quiet(t)
              && Scans(t.store, (p.namespace, p.key), t.clock, NewRow(hash, p, "a", 0))
              && Scans(t.store, (p.namespace, p.key), t.clock, NewRow(hash, q, "b", 0))
  {
    var r := t => Reached(cfg, hash, t);
    ReachedKept(cfg, hash);
    Buries(cfg, hash, r, p, "dead");
    var s := Buried(hash, p, "dead");
    BothLookUp(cfg, hash, r, s, p, q, "a", "b");
    BothInsert(cfg, hash, r, s, p, q, "a", "b");
    var t := Twice(hash, s, p, q, "a", "b");
    assert LiveRows(t, p.owner) == {"a"} && LiveRows(t, q.owner) == {"b"};
    BothRecount(cfg, hash, r, t, p, q, "a", "b");
    assert Quiet(With(With(t, "a", p, Done), "b", q, Done));
  }

  // ---------- Rewrites that exceed the quota ----------

  /** Ids that differ in length. */
  function Id(k: nat): string {
    seq(k, i => 'r')
  }

  /** The `k`th record of an owner. */
  function Numbered(p: Payload, k: nat): Payload {
    p.(key := Id(k))
  }

  /** At rest at time 0, all ids and keys shorter than `n`. */
  ghost predicate Short(s: State, n: nat) {
    && s.clock == 0 && Quiet(s)
    && (forall id :: id in s.store.items || id in s.creators ==> |id| < n)
    && (forall pair :: pair in s.store.natural ==> |pair.1| < n)
  }

  ghost predicate Owns(s: State, owner: string, k: nat) {
    |LiveRows(s, owner)| == k
  }

  lemma OwnsIsCount(cfg: Config, s: State, owner: string, k: nat)
    requires Owns(s, owner, k)
    ensures AtQuota(cfg, s.store, owner, s.clock) <==> cfg.maxRecords != 0 && k >= cfg.maxRecords
    ensures OverQuota(cfg, s.store, owner, s.clock) <==> cfg.maxRecords != 0 && k > cfg.maxRecords
  {
  }

  function Next(hash: Hash, s: State, p: Payload, n: nat): State {
    CreatedAlone(hash, s, Id(n), Numbered(p, n))
  }

  lemma NextOwns(hash: Hash, s: State, p: Payload, owner: string, k: nat, n: nat)
    requires Owns(s, owner, k) && Id(n) !in s.store.items && p.expiresAt.None?
    ensures Owns(Next(hash, s, p, n), owner, if p.owner == owner then k + 1 else k)
  {
    var before, after := LiveRows(s, owner), LiveRows(Next(hash, s, p, n), owner);
    assert after == if p.owner == owner then before + {Id(n)} else before;
  }

  /** Rows and slots that stay. */
  ghost predicate Extends(s: State, t: State) {
    && (forall id :: id in s.store.items ==> id in t.store.items && t.store.items[id] == s.store.items[id])
    && (forall pair :: pair in s.store.natural ==>
        pair in t.store.natural && t.store.natural[pair] == s.store.natural[pair])
  }

  lemma CreatesNext(cfg: Config, hash: Hash, r: State -> bool, s: State, p: Payload, n: nat)
    requires Kept(cfg, hash, r) && r(s) && Short(s, n) && p.idem.None? && !AtQuota(cfg, s.store, p.owner, 0)
    ensures Id(n) !in s.store.items
    ensures r(Next(hash, s, p, n)) && Short(Next(hash, s, p, n), n + 1) && Extends(s, Next(hash, s, p, n))
  {
    assert |Id(n)| == n;
    assert (p.namespace, Id(n)).1 == Id(n);
    AloneSucceeds(cfg, hash, r, s, Id(n), Numbered(p, n));
  }

  lemma {:induction false} FillsUp(cfg: Config, hash: Hash, r: State -> bool, base: State, p: Payload, j: nat, n: nat,
      k: nat)
    returns (s: State)
    requires Kept(cfg, hash, r) && r(base) && Short(base, n) && Owns(base, p.owner, j)
    requires p.idem.None? && p.expiresAt.None? && j + k <= cfg.maxRecords
    ensures r(s) && Short(s, n + k) && Owns(s, p.owner, j + k) && Extends(base, s)
  {
    if k == 0 {
      s := base;
    } else {
      var before := FillsUp(cfg, hash, r, base, p, j, n, k - 1);
      OwnsIsCount(cfg, before, p.owner, j + k - 1);
      CreatesNext(cfg, hash, r, before, p, n + k - 1);
      NextOwns(hash, before, p, p.owner, j + k - 1, n + k - 1);
      s := Next(hash, before, p, n + k - 1);
    }
  }

  function Rewritten(s: State, row: RecordRow): State {
    s.(store := RepoUpdate(s.store, row).0)
  }

  lemma RewritesFirst(cfg: Config, hash: Hash, r: State -> bool, s: State, row: RecordRow, n: nat)
    requires Kept(cfg, hash, r) && r(s) && Short(s, n) && row.id in s.store.items && |row.payload.key| < n
             && row.idem.None?
    ensures r(Rewritten(s, row)) && Short(Rewritten(s, row), n) && RepoUpdate(s.store, row).1.Ok?
    ensures Occupant(Rewritten(s, row).store, PairOf(row)) == Some(row)
  {
    Onward(cfg, hash, r, s, Rewrite(row), Rewritten(s, row));
  }

  lemma RewrittenOwns(s: State, row: RecordRow, k: nat)
    requires Owns(s, row.owner, k) && row.id in s.store.items
    requires LiveOf(s, row.id, row.owner) != row.Live(s.clock) && (!row.Live(s.clock) ==> k > 0)
    ensures Owns(Rewritten(s, row), row.owner, if row.Live(s.clock) then k + 1 else k - 1)
  {
    var before, after := LiveRows(s, row.owner), LiveRows(Rewritten(s, row), row.owner);
    assert after == if row.Live(s.clock) then before + {row.id} else before - {row.id};
  }

  /** At rest and within the limit, and over it with the store a call leaves. */
  ghost predicate Exceeds(cfg: Config, hash: Hash, s: State, owner: string, after: Records) {
    && Reached(cfg, hash, s) && Quiet(s) && !OverQuota(cfg, s.store, owner, s.clock)
    && Reached(cfg, hash, s.(store := after)) && OverQuota(cfg, after, owner, s.clock)
  }

  /** Under any limit: fill it, delete one record, create another in its place, restore the first. */
  lemma RestoreExceedsQuota(cfg: Config, hash: Hash, p: Payload)
    requires cfg.maxRecords != 0 && p.idem.None? && p.expiresAt.None?
    ensures exists s: State, id: string :: RestoreStep(s.store, id, None, s.clock).1.Ok?
              && Exceeds(cfg, hash, s, p.owner, RestoreStep(s.store, id, None, s.clock).0)
  {
    var r, max, id := (t => Reached(cfg, hash, t)), cfg.maxRecords, Id(0);
    ReachedKept(cfg, hash);
    var full := StartsFull(cfg, hash, r, p);
    var dead := Tombstone(full.store.items[id], 0);
    RewritesFirst(cfg, hash, r, full, dead, max);
    RewrittenOwns(full, dead, max);
    var gone := Rewritten(full, dead);
    OwnsIsCount(cfg, gone, p.owner, max - 1);
    CreatesNext(cfg, hash, r, gone, p, max);
    NextOwns(hash, gone, p, p.owner, max - 1, max);
    var s := Next(hash, gone, p, max);
    var back := Restored(dead, 0);
    RewritesFirst(cfg, hash, r, s, back, max + 1);
    RewrittenOwns(s, back, max);
    OwnsIsCount(cfg, s, p.owner, max);
    OwnsIsCount(cfg, Rewritten(s, back), p.owner, max + 1);
    assert RestoreStep(s.store, id, None, s.clock) == RepoUpdate(s.store, back);
  }

  lemma StartsFull(cfg: Config, hash: Hash, r: State -> bool, p: Payload) returns (s: State)
    requires Kept(cfg, hash, r) && cfg.maxRecords != 0 && p.idem.None? && p.expiresAt.None?
    ensures r(s) && Short(s, cfg.maxRecords) && Owns(s, p.owner, cfg.maxRecords)
    ensures Id(0) in s.store.items && s.store.items[Id(0)] == NewRow(hash, Numbered(p, 0), Id(0), 0)
  {
    assert LiveRows(START, p.owner) == {};
    OwnsIsCount(cfg, START, p.owner, 0);
    CreatesNext(cfg, hash, r, START, p, 0);
    NextOwns(hash, START, p, p.owner, 0, 0);
    s := FillsUp(cfg, hash, r, Next(hash, START, p, 0), p, 1, 1, cfg.maxRecords - 1);
  }

  /** Under any limit: another owner creates a record, the limit is filled, and a put makes that record
      one more of the full owner's. */
  lemma PutExceedsQuota(cfg: Config, hash: Hash, p: Payload, q: Payload, newId: string)
    requires cfg.maxRecords != 0 && p.owner != q.owner && p.idem.None? && q.idem.None?
    requires p.expiresAt.None? && q.expiresAt.None? && Validated(cfg, Normal(p.tags), p.metadata, None, 0).Ok?
    ensures var put := Numbered(p, 0).(namespace := q.namespace);
            exists s: State :: PutStep(cfg, hash, s.store, put, newId, None, s.clock).1.Ok?
              && Exceeds(cfg, hash, s, p.owner, PutStep(cfg, hash, s.store, put, newId, None, s.clock).0)
  {
    var r, max, put := (t => Reached(cfg, hash, t)), cfg.maxRecords, Numbered(p, 0).(namespace := q.namespace);
    ReachedKept(cfg, hash);
    assert LiveRows(START, p.owner) == {} == LiveRows(START, q.owner);
    OwnsIsCount(cfg, START, q.owner, 0);
    CreatesNext(cfg, hash, r, START, q, 0);
    NextOwns(hash, START, q, p.owner, 0, 0);
    var first := Next(hash, START, q, 0);
    var s := FillsUp(cfg, hash, r, first, p, 0, 1, max);
    var was := NewRow(hash, Numbered(q, 0), Id(0), 0);
    assert first.store.items[Id(0)] == was && first.store.natural[(q.namespace, Id(0))] == Id(0);
    var row := Replacement(hash, was, put, 0);
    RewritesFirst(cfg, hash, r, s, row, max + 1);
    RewrittenOwns(s, row, max);
    OwnsIsCount(cfg, s, p.owner, max);
    OwnsIsCount(cfg, Rewritten(s, row), p.owner, max + 1);
    assert PutStep(cfg, hash, s.store, put, newId, None, s.clock) == RepoUpdate(s.store, row);
  }
}
