/** Concurrent creators of files: pre-check, blob write, insert, recount, roll-back, interleaved with
    deletes, restores, purges, cleanup and the clock. */
module FileProtocol {
  import opened Prelude
  import opened Domain
  import opened FileRepository
  import opened MemoryStore
  import opened Totals

  /** `create` and `finalize` check governance before writing the blob, `create_stream` after. */
  datatype Kind = Whole | Streamed | Session

  /** What a creator stores, and the size it declares in the row: for `create` and `create_stream` the
      length of the content; for finalize total_size, whatever the chunks it streams come to. */
  datatype Upload = Upload(
    kind: Kind, owner: string, data: Bytes, size: nat, idem: Option<string>, expiresAt: Option<Time>)

  predicate Measured(u: Upload) {
    u.kind != Session ==> u.size == |u.data|
  }

  datatype Phase =
    | Begun      // nothing written
    | Stored     // blob written
    | Published  // row inserted, not yet recounted
    | Counted    // the file count was within the limit
    | Done       // so were the bytes: the call has succeeded
    | DropRow    // over a limit: row to be deleted
    | DropBlob   // blob to be deleted
    | Failed

  datatype PreCheck = Nothing | CountOk | Passed

  datatype Creator = Creator(upload: Upload, phase: Phase, pre: PreCheck)

  /** One creator per fresh file id; `purging` holds ids whose row a purge removed and whose blob it
      is still to remove. */
  datatype State = State(
    clock: Time, rows: map<string, FileRow>, blobs: map<string, Bytes>,
    creators: map<string, Creator>, purging: set<string>)

  const START := State(0, map[], map[], map[], {})

  datatype Step =
    | Tick(to: Time)
    | Begin(id: string, upload: Upload)
    | PreCount(id: string, at: Time)
    | PreBytes(id: string, at: Time)
    | Refuse(id: string)
    | PutBlob(id: string)
    | Publish(id: string)
    | CountCheck(id: string, at: Time)
    | ByteCheck(id: string, at: Time)
    | RollRow(id: string)
    | RollBlob(id: string)
    | SoftDelete(id: string, version: nat)
    | Restore(id: string, version: nat)
    | PurgeRow(id: string)
    | PurgeBlob(id: string)

  function RowFor(h: Hash, id: string, u: Upload, now: Time): FileRow {
    Row(id, u.owner, 1, u.idem, "", "", [], now, now, u.expiresAt, None,
        FilePayload("", "", u.size, id, h(u.data)))
  }

  function Move(s: State, id: string, phase: Phase): State
    requires id in s.creators
  {
    s.(creators := s.creators[id := s.creators[id].(phase := phase)])
  }

  predicate IdemUsed(rows: map<string, FileRow>, key: Option<string>) {
    Truthy(key) && exists id :: id in rows && rows[id].idem == key
  }

  /** Giving up: nothing to undo before the blob is written. */
  function Denied(s: State, id: string): State
    requires id in s.creators
  {
    Move(s, id, if s.creators[id].phase == Begun then Failed else DropBlob)
  }

  predicate CanPreCheck(c: Creator) {
    c.phase == if c.upload.kind == Streamed then Stored else Begun
  }

  /** One atomic action. A step that is not enabled changes nothing, so every sequence of steps is a
      run. Checks read the rows now, against a clock reading taken earlier. */
  ghost function Do(lim: Limits, h: Hash, s: State, step: Step): State {
    match step
    case Tick(to) => if s.clock <= to then s.(clock := to) else s
    case Begin(id, u) =>
      if id in s.creators || !Measured(u) then s
      else s.(creators := s.creators[id := Creator(u, Begun, Nothing)])
    case PreCount(id, at) =>
      if id in s.creators && at <= s.clock && CanPreCheck(s.creators[id]) && s.creators[id].pre == Nothing then
        if NoRoom(lim, s.rows, s.creators[id].upload.owner, at) then Denied(s, id)
        else s.(creators := s.creators[id := s.creators[id].(pre := CountOk)])
      else s
    case PreBytes(id, at) =>
      if id in s.creators && at <= s.clock && CanPreCheck(s.creators[id]) && s.creators[id].pre == CountOk then
        var u := s.creators[id].upload;
        if NoBytes(lim, s.rows, u.owner, u.size, at) then Denied(s, id)
        else s.(creators := s.creators[id := s.creators[id].(pre := Passed)])
      else s
    case Refuse(id) =>
      if id in s.creators && s.creators[id].phase in {Begun, Stored} then Denied(s, id) else s
    case PutBlob(id) =>
      if id in s.creators && s.creators[id].phase == Begun
         && (s.creators[id].upload.kind == Streamed || s.creators[id].pre == Passed)
      then Move(s, id, Stored).(blobs := s.blobs[id := s.creators[id].upload.data])
      else s
    case Publish(id) =>
      if id in s.creators && s.creators[id].phase == Stored && s.creators[id].pre == Passed then
        var u := s.creators[id].upload;
        if IdemUsed(s.rows, u.idem) then Move(s, id, DropBlob)
        else Move(s, id, Published).(rows := s.rows[id := RowFor(h, id, u, s.clock)])
      else s
    case CountCheck(id, at) =>
      if id in s.creators && at <= s.clock && s.creators[id].phase == Published then
        if lim.maxFiles != 0 && |LiveSizes(s.rows, s.creators[id].upload.owner, at)| > lim.maxFiles
            then Move(s, id, DropRow)
        else Move(s, id, Counted)
      else s
    case ByteCheck(id, at) =>
      if id in s.creators && at <= s.clock && s.creators[id].phase == Counted then
        if lim.maxBytes != 0 && Sum(LiveSizes(s.rows, s.creators[id].upload.owner, at)) > lim.maxBytes
            then Move(s, id, DropRow)
        else Move(s, id, Done)
      else s
    case RollRow(id) =>
      if id in s.creators && s.creators[id].phase == DropRow then Move(s, id, DropBlob).(rows := s.rows - {id}) else s
    case RollBlob(id) =>
      if id in s.creators && s.creators[id].phase == DropBlob then Move(s, id, Failed).(blobs := s.blobs - {id}) else s
    case SoftDelete(id, version) =>
      if id in s.rows then s.(rows := s.rows[id := s.rows[id].(version := version, deletedAt := Some(s.clock))]) else s
    case Restore(id, version) =>
      if id in s.rows then s.(rows := s.rows[id := s.rows[id].(version := version, deletedAt := None)]) else s
    case PurgeRow(id) =>
      if id in s.rows then s.(rows := s.rows - {id}, purging := s.purging + {id}) else s
    case PurgeBlob(id) =>
      if id in s.purging then s.(blobs := s.blobs - {id}, purging := s.purging - {id}) else s
  }

  /** The state after a sequence of steps. */
  ghost function After(lim: Limits, h: Hash, s: State, steps: seq<Step>): State {
    if steps == [] then s else Do(lim, h, After(lim, h, s, Front(steps)), Last(steps))
  }

  ghost function Run(lim: Limits, h: Hash, steps: seq<Step>): State {
    After(lim, h, START, steps)
  }

  // ---------- Rows and blobs ----------

  /** The row says what its creator uploaded. */
  ghost predicate RowMatches(h: Hash, id: string, u: Upload, row: FileRow) {
    && row.id == id && row.owner == u.owner && row.expiresAt == u.expiresAt
    && row.payload.path == id && row.payload.size == u.size && row.payload.sha256 == h(u.data)
  }

  /** What holds of one id, by the phase of its creator. */
  ghost predicate IdInv(h: Hash, s: State, id: string) {
    if id !in s.creators then id !in s.rows && id !in s.blobs && id !in s.purging
    else
      var c := s.creators[id];
      Measured(c.upload) &&
      match c.phase
      case Begun => id !in s.rows && id !in s.blobs && id !in s.purging
      case Stored => id !in s.rows && id in s.blobs && s.blobs[id] == c.upload.data && id !in s.purging
      case DropBlob => id !in s.rows
      case Failed => id !in s.rows && id !in s.blobs
      case _ =>
        if id in s.rows then
          && id !in s.purging && id in s.blobs && s.blobs[id] == c.upload.data
          && RowMatches(h, id, c.upload, s.rows[id])
        else id in s.blobs ==> id in s.purging
  }

  ghost predicate Inv(h: Hash, s: State) {
    forall id :: IdInv(h, s, id)
  }

  /** The id a step is about. */
  function Subject(step: Step): Option<string> {
    match step
    case Tick(_) => None
    case Begin(id, _) => Some(id)
    case PreCount(id, _) => Some(id)
    case PreBytes(id, _) => Some(id)
    case Refuse(id) => Some(id)
    case PutBlob(id) => Some(id)
    case Publish(id) => Some(id)
    case CountCheck(id, _) => Some(id)
    case ByteCheck(id, _) => Some(id)
    case RollRow(id) => Some(id)
    case RollBlob(id) => Some(id)
    case SoftDelete(id, _) => Some(id)
    case Restore(id, _) => Some(id)
    case PurgeRow(id) => Some(id)
    case PurgeBlob(id) => Some(id)
  }

  ghost predicate SameAt(s: State, s': State, id: string) {
    && (id in s.rows <==> id in s'.rows) && (id in s.rows ==> s'.rows[id] == s.rows[id])
    && (id in s.blobs <==> id in s'.blobs) && (id in s.blobs ==> s'.blobs[id] == s.blobs[id])
    && (id in s.creators <==> id in s'.creators) && (id in s.creators ==> s'.creators[id] == s.creators[id])
    && (id in s.purging <==> id in s'.purging)
  }

  predicate BeforeRow(step: Step) {
    step.Begin? || step.PreCount? || step.PreBytes? || step.Refuse? || step.PutBlob? || step.Publish?
  }

  lemma OthersBeforeRow(lim: Limits, h: Hash, s: State, step: Step, id: string)
    requires Subject(step) != Some(id) && BeforeRow(step)
    ensures SameAt(s, Do(lim, h, s, step), id) && s.clock == Do(lim, h, s, step).clock
  {
  }

  lemma OthersAfterRow(lim: Limits, h: Hash, s: State, step: Step, id: string)
    requires Subject(step) != Some(id) && !BeforeRow(step)
    ensures SameAt(s, Do(lim, h, s, step), id) && s.clock <= Do(lim, h, s, step).clock
  {
  }

  /** No step disturbs another id, or turns the clock back. */
  lemma OthersUntouched(lim: Limits, h: Hash, s: State, step: Step, id: string)
    requires Subject(step) != Some(id)
    ensures SameAt(s, Do(lim, h, s, step), id)
    ensures s.clock <= Do(lim, h, s, step).clock
  {
    if BeforeRow(step) {
      OthersBeforeRow(lim, h, s, step, id);
    } else {
      OthersAfterRow(lim, h, s, step, id);
    }
  }

  lemma OwnIdBeforeRow(lim: Limits, h: Hash, s: State, step: Step, id: string)
    requires IdInv(h, s, id) && Subject(step) == Some(id) && BeforeRow(step)
    ensures IdInv(h, Do(lim, h, s, step), id)
  {
  }

  lemma OwnIdAfterRow(lim: Limits, h: Hash, s: State, step: Step, id: string)
    requires IdInv(h, s, id) && Subject(step) == Some(id) && !BeforeRow(step)
    ensures IdInv(h, Do(lim, h, s, step), id)
  {
  }

  lemma StepKeepsId(lim: Limits, h: Hash, s: State, step: Step, id: string)
    requires IdInv(h, s, id)
    ensures IdInv(h, Do(lim, h, s, step), id)
  {
    if Subject(step) != Some(id) {
      OthersUntouched(lim, h, s, step, id);
    } else if BeforeRow(step) {
      OwnIdBeforeRow(lim, h, s, step, id);
    } else {
      OwnIdAfterRow(lim, h, s, step, id);
    }
  }

  lemma {:induction false} RunInv(lim: Limits, h: Hash, steps: seq<Step>)
    ensures Inv(h, Run(lim, h, steps))
  {
    if steps == [] {
    } else {
      RunInv(lim, h, Front(steps));
      forall id
        ensures IdInv(h, Run(lim, h, steps), id)
      {
        StepKeepsId(lim, h, Run(lim, h, Front(steps)), Last(steps), id);
      }
    }
  }

  /** Every call has returned. */
  ghost predicate Quiet(s: State) {
    s.purging == {} && forall id :: id in s.creators ==> s.creators[id].phase in {Done, Failed}
  }

  /** Main result: whenever no call is in flight, file rows and blobs are in bijection by id and each
      blob has its row's digest, so a verified download cannot fail. The row's size is the blob's for
      every create and create_stream, and for a finalize exactly when what it streamed came to
      total_size (`UploadRaces.RowSizesAgreeIff` says for which sessions that is every run). */
  lemma RowsAndBlobsAtRest(lim: Limits, h: Hash, steps: seq<Step>)
    requires Quiet(Run(lim, h, steps))
    ensures var s := Run(lim, h, steps);
            && s.rows.Keys == s.blobs.Keys
            && forall id :: id in s.rows ==>
                 && s.rows[id].payload.path == id
                 && h(s.blobs[id]) == s.rows[id].payload.sha256
                 && id in s.creators
                 && (s.creators[id].upload.kind != Session ==> |s.blobs[id]| == s.rows[id].payload.size)
                 && (|s.blobs[id]| == s.rows[id].payload.size <==>
                     |s.creators[id].upload.data| == s.creators[id].upload.size)
  {
    var s := Run(lim, h, steps);
    RunInv(lim, h, steps);
    forall id
      ensures id in s.rows <==> id in s.blobs
      ensures id in s.rows ==> id in s.creators && RowMatches(h, id, s.creators[id].upload, s.rows[id])
      ensures id in s.rows ==> Measured(s.creators[id].upload) && s.blobs[id] == s.creators[id].upload.data
    {
      assert IdInv(h, s, id);
    }
  }

  // ---------- Quotas ----------

  /** The owner's live rows whose creators are in one of the phases. */
  ghost function LiveIn(s: State, owner: string, phases: set<Phase>): map<string, nat> {
    map id | id in s.rows && id in s.creators && s.creators[id].phase in phases
             && s.rows[id].owner == owner && s.rows[id].Live(s.clock) :: s.rows[id].payload.size
  }

  /** The checks whose success moves a creator into the phases. */
  ghost predicate Enters(s: State, step: Step, phases: set<Phase>) {
    || (step.CountCheck? && Counted in phases)
    || (step.ByteCheck? && Done in phases && Counted !in phases)
  }

  lemma OwnAddsNothing(lim: Limits, h: Hash, s: State, step: Step, id: string, phases: set<Phase>)
    requires IdInv(h, s, id) && Subject(step) == Some(id) && !step.Restore? && !Enters(s, step, phases)
    requires phases == {Counted, Done} || phases == {Done}
    ensures var s' := Do(lim, h, s, step);
            id in s'.rows && s'.rows[id].Live(s'.clock) && id in s'.creators && s'.creators[id].phase in phases ==>
              && id in s.rows && s.rows[id].Live(s.clock) && id in s.creators && s.creators[id].phase in phases
              && s'.rows[id].owner == s.rows[id].owner && s'.rows[id].payload == s.rows[id].payload
  {
  }

  /** Apart from those checks and restores, nothing adds a row to the protected ones. */
  lemma OthersAddNothing(lim: Limits, h: Hash, s: State, step: Step, owner: string, phases: set<Phase>)
    requires Inv(h, s)
    requires phases == {Counted, Done} || phases == {Done}
    requires !step.Restore? && !Enters(s, step, phases)
    ensures Within(LiveIn(Do(lim, h, s, step), owner, phases), LiveIn(s, owner, phases))
  {
    var s' := Do(lim, h, s, step);
    forall id | id in LiveIn(s', owner, phases)
      ensures id in LiveIn(s, owner, phases) && s'.rows[id].payload.size == s.rows[id].payload.size
    {
      if Subject(step) != Some(id) {
        OthersUntouched(lim, h, s, step, id);
      } else {
        assert IdInv(h, s, id);
        OwnAddsNothing(lim, h, s, step, id, phases);
      }
    }
  }

  /** A restore adds at most the row it restores. */
  lemma RestoreAddsOne(lim: Limits, h: Hash, s: State, step: Step, owner: string, phases: set<Phase>)
    requires step.Restore?
    ensures var before, after := LiveIn(s, owner, phases), LiveIn(Do(lim, h, s, step), owner, phases);
            && |after| <= |before| + 1
            && Sum(after) <= Sum(before) + if step.id in s.rows then s.rows[step.id].payload.size else 0
  {
    var before, after := LiveIn(s, owner, phases), LiveIn(Do(lim, h, s, step), owner, phases);
    if step.id in after {
      assert Within(after - {step.id}, before);
      WithinButOne(after, before, step.id);
    } else {
      assert Within(after, before);
      WithinBounds(after, before);
    }
  }

  /** Restores so far, and the bytes they brought back. */
  function Restores(steps: seq<Step>): nat {
    if steps == [] then 0 else Restores(Front(steps)) + if Last(steps).Restore? then 1 else 0
  }

  ghost function RestoredBytes(lim: Limits, h: Hash, steps: seq<Step>): nat {
    if steps == [] then 0
    else
      var s := Run(lim, h, Front(steps));
      RestoredBytes(lim, h, Front(steps)) +
      if Last(steps).Restore? && Last(steps).id in s.rows then s.rows[Last(steps).id].payload.size else 0
  }

  lemma CountStep(lim: Limits, h: Hash, s: State, step: Step, owner: string, slack: nat)
    requires Inv(h, s) && lim.maxFiles != 0
    requires |LiveIn(s, owner, {Counted, Done})| <= lim.maxFiles + slack
    ensures |LiveIn(Do(lim, h, s, step), owner, {Counted, Done})| <=
            lim.maxFiles + slack + if step.Restore? then 1 else 0
  {
    var s', before := Do(lim, h, s, step), LiveIn(s, owner, {Counted, Done});
    var after := LiveIn(s', owner, {Counted, Done});
    if step.Restore? {
      RestoreAddsOne(lim, h, s, step, owner, {Counted, Done});
    } else if step.CountCheck? {
      CountCheckAdmits(lim, h, s, step, owner);
      if Within(after, before) {
        WithinBounds(after, before);
      } else {
        WithinBounds(after, LiveSizes(s.rows, owner, step.at));
      }
    } else {
      OthersAddNothing(lim, h, s, step, owner, {Counted, Done});
      WithinBounds(after, before);
    }
  }

  lemma CountCheckAdmits(lim: Limits, h: Hash, s: State, step: Step, owner: string)
    requires Inv(h, s) && step.CountCheck? && lim.maxFiles != 0
    ensures var before, after := LiveIn(s, owner, {Counted, Done}), LiveIn(Do(lim, h, s, step), owner, {Counted, Done});
            || Within(after, before)
            || (Within(after, LiveSizes(s.rows, owner, step.at)) && |LiveSizes(s.rows, owner, step.at)| <= lim.maxFiles)
  {
    assert IdInv(h, s, step.id);
  }

  lemma ByteStep(lim: Limits, h: Hash, s: State, step: Step, owner: string, slack: nat)
    requires Inv(h, s) && lim.maxBytes != 0
    requires Sum(LiveIn(s, owner, {Done})) <= lim.maxBytes + slack
    ensures Sum(LiveIn(Do(lim, h, s, step), owner, {Done})) <=
            lim.maxBytes + slack + if step.Restore? && step.id in s.rows then s.rows[step.id].payload.size else 0
  {
    var s', before := Do(lim, h, s, step), LiveIn(s, owner, {Done});
    var after := LiveIn(s', owner, {Done});
    if step.Restore? {
      RestoreAddsOne(lim, h, s, step, owner, {Done});
    } else if step.ByteCheck? {
      ByteCheckAdmits(lim, h, s, step, owner);
      if Within(after, before) {
        WithinBounds(after, before);
      } else {
        WithinBounds(after, LiveSizes(s.rows, owner, step.at));
      }
    } else {
      OthersAddNothing(lim, h, s, step, owner, {Done});
      WithinBounds(after, before);
    }
  }

  lemma ByteCheckAdmits(lim: Limits, h: Hash, s: State, step: Step, owner: string)
    requires Inv(h, s) && step.ByteCheck? && lim.maxBytes != 0
    ensures var before, after := LiveIn(s, owner, {Done}), LiveIn(Do(lim, h, s, step), owner, {Done});
            || Within(after, before)
            || (Within(after, LiveSizes(s.rows, owner, step.at))
                && Sum(LiveSizes(s.rows, owner, step.at)) <= lim.maxBytes)
  {
    assert IdInv(h, s, step.id);
  }

  /** Main result: under any interleaving, the owner's live rows whose creator has passed the recount
      never exceed the file limit by more than the restores made, which check no quota. */
  lemma {:induction false} FilesBounded(lim: Limits, h: Hash, steps: seq<Step>, owner: string)
    requires lim.maxFiles != 0
    ensures |LiveIn(Run(lim, h, steps), owner, {Counted, Done})| <= lim.maxFiles + Restores(steps)
  {
    if steps == [] {
    } else {
      FilesBounded(lim, h, Front(steps), owner);
      RunInv(lim, h, Front(steps));
      CountStep(lim, h, Run(lim, h, Front(steps)), Last(steps), owner, Restores(Front(steps)));
    }
  }

  /** The same for bytes, of rows whose creator has passed both recounts. */
  lemma {:induction false} BytesBounded(lim: Limits, h: Hash, steps: seq<Step>, owner: string)
    requires lim.maxBytes != 0
    ensures Sum(LiveIn(Run(lim, h, steps), owner, {Done})) <= lim.maxBytes + RestoredBytes(lim, h, steps)
  {
    if steps == [] {
    } else {
      BytesBounded(lim, h, Front(steps), owner);
      RunInv(lim, h, Front(steps));
      ByteStep(lim, h, Run(lim, h, Front(steps)), Last(steps), owner, RestoredBytes(lim, h, Front(steps)));
    }
  }

  // ---------- Restores that fit ----------

  /** The guard that restore does not have: a tombstone that would be live again finds room. */
  ghost predicate RestoreFits(lim: Limits, s: State, id: string, owner: string) {
    id in s.rows && s.rows[id].owner == owner && s.rows[id].deletedAt.Some? && !s.rows[id].Expired(s.clock) ==>
      && !NoRoom(lim, s.rows, owner, s.clock)
      && !NoBytes(lim, s.rows, owner, s.rows[id].payload.size, s.clock)
  }

  /** From within the limits, a restore stays within them if and only if it fits. */
  lemma RestoreStepIff(lim: Limits, h: Hash, s: State, id: string, version: nat, owner: string)
    requires !Over(lim, s.rows, owner, s.clock)
    ensures !Over(lim, Do(lim, h, s, Restore(id, version)).rows, owner, s.clock) <==> RestoreFits(lim, s, id, owner)
  {
    var rows := Do(lim, h, s, Restore(id, version)).rows;
    if id in s.rows && s.rows[id].owner == owner && s.rows[id].deletedAt.Some? && !s.rows[id].Expired(s.clock) {
      EntersIff(lim, s.rows, id, rows[id], s.clock);
    } else {
      assert LiveSizes(rows, owner, s.clock) == LiveSizes(s.rows, owner, s.clock);
    }
  }

  /** A run whose restores of the owner's files all fit when they are made. */
  ghost predicate RestoresFit(lim: Limits, h: Hash, steps: seq<Step>, owner: string) {
    steps != [] ==>
      && RestoresFit(lim, h, Front(steps), owner)
      && (Last(steps).Restore? ==> RestoreFits(lim, Run(lim, h, Front(steps)), Last(steps).id, owner))
  }

  lemma {:induction false} NoRestoresFit(lim: Limits, h: Hash, steps: seq<Step>, owner: string)
    requires forall i :: 0 <= i < |steps| ==> !steps[i].Restore?
    ensures RestoresFit(lim, h, steps, owner)
  {
    if steps == [] {
    } else {
      NoRestoresFit(lim, h, Front(steps), owner);
    }
  }

  lemma RestoreLeaves(lim: Limits, h: Hash, s: State, step: Step, owner: string, phases: set<Phase>)
    requires step.Restore?
    ensures var after := LiveIn(Do(lim, h, s, step), owner, phases);
            && Within(after - {step.id}, LiveSizes(s.rows, owner, s.clock))
            && (step.id in after ==> step.id in s.rows && after[step.id] == s.rows[step.id].payload.size
                                     && s.rows[step.id].owner == owner && !s.rows[step.id].Expired(s.clock))
            && (step.id !in after || step.id in LiveIn(s, owner, phases) ==> Within(after, LiveIn(s, owner, phases)))
  {
  }

  /** A restore that fits leaves the protected rows within what there was room for. */
  lemma FittingRestore(lim: Limits, h: Hash, s: State, step: Step, owner: string, phases: set<Phase>)
    requires step.Restore? && RestoreFits(lim, s, step.id, owner)
    ensures var before, after := LiveIn(s, owner, phases), LiveIn(Do(lim, h, s, step), owner, phases);
            || Within(after, before)
            || ((lim.maxFiles != 0 ==> |after| <= lim.maxFiles) && (lim.maxBytes != 0 ==> Sum(after) <= lim.maxBytes))
  {
    var before, after := LiveIn(s, owner, phases), LiveIn(Do(lim, h, s, step), owner, phases);
    RestoreLeaves(lim, h, s, step, owner, phases);
    if step.id in after && step.id !in before {
      WithinButOne(after, LiveSizes(s.rows, owner, s.clock), step.id);
    }
  }

  lemma {:induction false} FilesFit(lim: Limits, h: Hash, steps: seq<Step>, owner: string)
    requires lim.maxFiles != 0 && RestoresFit(lim, h, steps, owner)
    ensures |LiveIn(Run(lim, h, steps), owner, {Counted, Done})| <= lim.maxFiles
  {
    if steps == [] {
    } else {
      var s, step := Run(lim, h, Front(steps)), Last(steps);
      FilesFit(lim, h, Front(steps), owner);
      RunInv(lim, h, Front(steps));
      if step.Restore? {
        FittingRestore(lim, h, s, step, owner, {Counted, Done});
        if Within(LiveIn(Do(lim, h, s, step), owner, {Counted, Done}), LiveIn(s, owner, {Counted, Done})) {
          WithinBounds(LiveIn(Do(lim, h, s, step), owner, {Counted, Done}), LiveIn(s, owner, {Counted, Done}));
        }
      } else {
        CountStep(lim, h, s, step, owner, 0);
      }
    }
  }

  lemma {:induction false} BytesFit(lim: Limits, h: Hash, steps: seq<Step>, owner: string)
    requires lim.maxBytes != 0 && RestoresFit(lim, h, steps, owner)
    ensures Sum(LiveIn(Run(lim, h, steps), owner, {Done})) <= lim.maxBytes
  {
    if steps == [] {
    } else {
      var s, step := Run(lim, h, Front(steps)), Last(steps);
      BytesFit(lim, h, Front(steps), owner);
      RunInv(lim, h, Front(steps));
      if step.Restore? {
        FittingRestore(lim, h, s, step, owner, {Done});
        if Within(LiveIn(Do(lim, h, s, step), owner, {Done}), LiveIn(s, owner, {Done})) {
          WithinBounds(LiveIn(Do(lim, h, s, step), owner, {Done}), LiveIn(s, owner, {Done}));
        }
      } else {
        ByteStep(lim, h, s, step, owner, 0);
      }
    }
  }

  /** Main result: where the owner's restores all fit, both limits hold of what the owner really has
      whenever no call is in flight, however the creators raced. */
  lemma QuotasHoldAtRest(lim: Limits, h: Hash, steps: seq<Step>, owner: string)
    requires RestoresFit(lim, h, steps, owner) && Quiet(Run(lim, h, steps))
    ensures !Over(lim, Run(lim, h, steps).rows, owner, Run(lim, h, steps).clock)
  {
    var s := Run(lim, h, steps);
    RunInv(lim, h, steps);
    forall id | id in s.rows
      ensures id in s.creators && s.creators[id].phase == Done
    {
      assert IdInv(h, s, id);
    }
    assert LiveSizes(s.rows, owner, s.clock) == LiveIn(s, owner, {Done}) == LiveIn(s, owner, {Counted, Done});
    if lim.maxFiles != 0 {
      FilesFit(lim, h, steps, owner);
    }
    if lim.maxBytes != 0 {
      BytesFit(lim, h, steps, owner);
    }
  }

  /** Main result: and one more restore there keeps the limits if and only if it fits as well. */
  lemma RestoreAtRestIff(lim: Limits, h: Hash, steps: seq<Step>, id: string, version: nat, owner: string)
    requires RestoresFit(lim, h, steps, owner) && Quiet(Run(lim, h, steps))
    ensures var t := Run(lim, h, steps + [Restore(id, version)]);
            && Quiet(t)
            && (!Over(lim, t.rows, owner, t.clock) <==> RestoreFits(lim, Run(lim, h, steps), id, owner))
  {
    assert Front(steps + [Restore(id, version)]) == steps;
    QuotasHoldAtRest(lim, h, steps, owner);
    RestoreStepIff(lim, h, Run(lim, h, steps), id, version, owner);
  }

  // ---------- What the guard does not give ----------

  /** Some run ends in `t`. */
  ghost predicate Reachable(lim: Limits, h: Hash, t: State) {
    exists steps :: Run(lim, h, steps) == t
  }

  ghost predicate Kept(lim: Limits, h: Hash, r: State -> bool) {
    forall s, step :: r(s) ==> r(Do(lim, h, s, step))
  }

  lemma ReachableKept(lim: Limits, h: Hash)
    ensures Reachable(lim, h, START)
    ensures Kept(lim, h, t => Reachable(lim, h, t))
  {
    assert Run(lim, h, []) == START;
    forall s, step | Reachable(lim, h, s)
      ensures Reachable(lim, h, Do(lim, h, s, step))
    {
      var steps :| Run(lim, h, steps) == s;
      assert Front(steps + [step]) == steps;
      assert Run(lim, h, steps + [step]) == Do(lim, h, s, step);
    }
  }

  function With(s: State, id: string, c: Creator): State {
    s.(creators := s.creators[id := c])
  }

  lemma Onward(lim: Limits, h: Hash, r: State -> bool, s: State, step: Step, t: State)
    requires Kept(lim, h, r) && r(s) && Do(lim, h, s, step) == t
    ensures r(t)
  {
  }

  /** A step that only moves the creator. */
  lemma Turn(lim: Limits, h: Hash, r: State -> bool, s: State, id: string, c: Creator, step: Step, c': Creator)
    requires Kept(lim, h, r) && r(With(s, id, c)) && Do(lim, h, With(s, id, c), step) == With(With(s, id, c), id, c')
    ensures r(With(s, id, c'))
  {
    assert With(With(s, id, c), id, c') == With(s, id, c');
  }

  lemma ChecksPass(lim: Limits, h: Hash, r: State -> bool, s: State, id: string, u: Upload)
    requires Kept(lim, h, r) && r(s) && id !in s.creators && u.kind == Whole && Measured(u)
    requires !NoRoom(lim, s.rows, u.owner, s.clock) && !NoBytes(lim, s.rows, u.owner, u.size, s.clock)
    ensures r(With(s, id, Creator(u, Begun, Passed)))
  {
    Onward(lim, h, r, s, Begin(id, u), With(s, id, Creator(u, Begun, Nothing)));
    Turn(lim, h, r, s, id, Creator(u, Begun, Nothing), PreCount(id, s.clock), Creator(u, Begun, CountOk));
    Turn(lim, h, r, s, id, Creator(u, Begun, CountOk), PreBytes(id, s.clock), Creator(u, Begun, Passed));
  }

  function WithRow(h: Hash, s: State, id: string, u: Upload): State {
    s.(rows := s.rows[id := RowFor(h, id, u, s.clock)], blobs := s.blobs[id := u.data])
  }

  lemma IsPublished(lim: Limits, h: Hash, r: State -> bool, s: State, id: string, u: Upload)
    requires Kept(lim, h, r) && r(With(s, id, Creator(u, Begun, Passed))) && u.idem.None?
    ensures r(With(WithRow(h, s, id, u), id, Creator(u, Published, Passed)))
  {
    var t := s.(blobs := s.blobs[id := u.data]);
    var began, stored, published := Creator(u, Begun, Passed), Creator(u, Stored, Passed),
        Creator(u, Published, Passed);
    assert With(s, id, began).creators[id := stored] == t.creators[id := stored];
    Onward(lim, h, r, With(s, id, began), PutBlob(id), With(t, id, stored));
    assert With(t, id, stored).creators[id := published] == s.creators[id := published];
    Onward(lim, h, r, With(t, id, stored), Publish(id), With(WithRow(h, s, id, u), id, published));
  }

  lemma RecountsPass(lim: Limits, h: Hash, r: State -> bool, s: State, id: string, u: Upload)
    requires Kept(lim, h, r) && r(With(s, id, Creator(u, Published, Passed)))
    requires !Over(lim, s.rows, u.owner, s.clock)
    ensures r(With(s, id, Creator(u, Done, Passed)))
  {
    Turn(lim, h, r, s, id, Creator(u, Published, Passed), CountCheck(id, s.clock), Creator(u, Counted, Passed));
    Turn(lim, h, r, s, id, Creator(u, Counted, Passed), ByteCheck(id, s.clock), Creator(u, Done, Passed));
  }

  /** An upload on its own that finds room goes through. */
  lemma AloneSucceeds(lim: Limits, h: Hash, r: State -> bool, s: State, id: string, u: Upload)
    requires Kept(lim, h, r) && r(s) && id !in s.creators && id !in s.rows
    requires u.kind == Whole && Measured(u) && u.idem.None?
    requires !NoRoom(lim, s.rows, u.owner, s.clock) && !NoBytes(lim, s.rows, u.owner, u.size, s.clock)
    ensures r(Uploaded(h, s, id, u))
  {
    ChecksPass(lim, h, r, s, id, u);
    IsPublished(lim, h, r, s, id, u);
    OneMore(s.rows, RowFor(h, id, u, s.clock), u.owner, s.clock);
    RecountsPass(lim, h, r, WithRow(h, s, id, u), id, u);
  }

  function Uploaded(h: Hash, s: State, id: string, u: Upload): State {
    With(WithRow(h, s, id, u), id, Creator(u, Done, Passed))
  }

  function Marked(s: State, id: string, version: nat, deleted: Option<Time>): State
    requires id in s.rows
  {
    s.(rows := s.rows[id := s.rows[id].(version := version, deletedAt := deleted)])
  }

  /** Ids that differ in length. */
  function Id(k: nat): string {
    seq(k, i => 'f')
  }

  // ---------- Filling up with files of one byte ----------

  predicate OneByte(u: Upload) {
    u.kind == Whole && u.size == |u.data| == 1 && u.idem.None? && u.expiresAt.None?
  }

  predicate Limited(lim: Limits) {
    lim.maxFiles != 0 || lim.maxBytes != 0
  }

  /** How many such files the limits admit. */
  function Capacity(lim: Limits): nat {
    if lim.maxFiles == 0 || (lim.maxBytes != 0 && lim.maxBytes < lim.maxFiles) then lim.maxBytes else lim.maxFiles
  }

  ghost predicate Counts(rows: Rows, owner: string, k: nat) {
    |LiveSizes(rows, owner, 0)| == k == Sum(LiveSizes(rows, owner, 0))
  }

  lemma CapacityIs(lim: Limits, rows: Rows, owner: string, k: nat)
    requires Limited(lim) && Counts(rows, owner, k)
    ensures k < Capacity(lim) ==> !NoRoom(lim, rows, owner, 0) && !NoBytes(lim, rows, owner, 1, 0)
    ensures k > Capacity(lim) ==> Over(lim, rows, owner, 0)
  {
  }

  lemma CountsMore(rows: Rows, id: string, row: FileRow, k: nat)
    requires Counts(rows, row.owner, k) && id !in LiveSizes(rows, row.owner, 0) && row.Live(0) && row.payload.size == 1
    ensures Counts(rows[id := row], row.owner, k + 1)
  {
    var before := LiveSizes(rows, row.owner, 0);
    EntrySizes(before, id, 1);
    assert LiveSizes(rows[id := row], row.owner, 0) == before[id := 1];
  }

  lemma CountsLess(rows: Rows, id: string, row: FileRow, k: nat)
    requires Counts(rows, row.owner, k) && id in LiveSizes(rows, row.owner, 0) && LiveSizes(rows, row.owner, 0)[id] == 1
    requires !row.Live(0)
    ensures k > 0 && Counts(rows[id := row], row.owner, k - 1)
  {
    var before, after := LiveSizes(rows, row.owner, 0), LiveSizes(rows[id := row], row.owner, 0);
    EntrySizes(after, id, 1);
    assert before == after[id := 1];
  }

  /** At rest at time 0, and no id of `n` characters or more is in use. */
  ghost predicate Settled(s: State, n: nat) {
    && s.clock == 0 && Quiet(s)
    && forall id :: id in s.rows || id in s.creators ==> |id| < n
  }

  lemma OneMoreUpload(lim: Limits, h: Hash, r: State -> bool, s: State, u: Upload, k: nat, n: nat)
    requires Kept(lim, h, r) && r(s) && OneByte(u) && Limited(lim)
    requires Settled(s, n) && Counts(s.rows, u.owner, k) && k < Capacity(lim)
    ensures r(Uploaded(h, s, Id(n), u)) && Settled(Uploaded(h, s, Id(n), u), n + 1)
    ensures Counts(Uploaded(h, s, Id(n), u).rows, u.owner, k + 1)
  {
    assert |Id(n)| == n;
    CapacityIs(lim, s.rows, u.owner, k);
    AloneSucceeds(lim, h, r, s, Id(n), u);
    CountsMore(s.rows, Id(n), RowFor(h, Id(n), u, 0), k);
  }

  ghost predicate FirstIs(h: Hash, s: State, u: Upload) {
    Id(0) in s.rows && s.rows[Id(0)] == RowFor(h, Id(0), u, 0)
  }

  lemma {:induction false} Fills(lim: Limits, h: Hash, r: State -> bool, u: Upload, k: nat) returns (s: State)
    requires Kept(lim, h, r) && r(START) && OneByte(u) && Limited(lim) && 0 < k <= Capacity(lim)
    ensures r(s) && Settled(s, k) && Counts(s.rows, u.owner, k) && FirstIs(h, s, u)
  {
    if k == 1 {
      OneMoreUpload(lim, h, r, START, u, 0, 0);
      s := Uploaded(h, START, Id(0), u);
    } else {
      var before := Fills(lim, h, r, u, k - 1);
      OneMoreUpload(lim, h, r, before, u, k - 1, k - 1);
      s := Uploaded(h, before, Id(k - 1), u);
      assert |Id(0)| == 0 && |Id(k - 1)| == k - 1;
    }
  }

  /** The first file, deleted and restored. */
  lemma DeletesFirst(lim: Limits, h: Hash, r: State -> bool, s: State, u: Upload, k: nat, n: nat)
    requires Kept(lim, h, r) && r(s) && Settled(s, n) && Counts(s.rows, u.owner, k) && FirstIs(h, s, u) && OneByte(u)
    ensures k > 0 && r(Marked(s, Id(0), 2, Some(0))) && Settled(Marked(s, Id(0), 2, Some(0)), n)
    ensures Counts(Marked(s, Id(0), 2, Some(0)).rows, u.owner, k - 1)
  {
    Onward(lim, h, r, s, SoftDelete(Id(0), 2), Marked(s, Id(0), 2, Some(0)));
    CountsLess(s.rows, Id(0), s.rows[Id(0)].(version := 2, deletedAt := Some(0)), k);
  }

  lemma RestoresFirst(lim: Limits, h: Hash, r: State -> bool, s: State, u: Upload, k: nat, n: nat)
    requires Kept(lim, h, r) && r(s) && Settled(s, n) && Counts(s.rows, u.owner, k) && OneByte(u)
    requires Id(0) in s.rows && s.rows[Id(0)] == RowFor(h, Id(0), u, 0).(version := 2, deletedAt := Some(0))
    ensures r(Marked(s, Id(0), 3, None)) && Settled(Marked(s, Id(0), 3, None), n)
    ensures Counts(Marked(s, Id(0), 3, None).rows, u.owner, k + 1)
  {
    Onward(lim, h, r, s, Restore(Id(0), 3), Marked(s, Id(0), 3, None));
    CountsMore(s.rows, Id(0), s.rows[Id(0)].(version := 3, deletedAt := None), k);
  }

  /** Under any limit: fill it with files of one byte, delete one, upload another in its place, restore
      the first. At rest, and over the limit. */
  lemma RestoreExceedsQuota(lim: Limits, h: Hash, u: Upload)
    requires Limited(lim) && OneByte(u)
    ensures exists t :: Reachable(lim, h, t) && Quiet(t) && Over(lim, t.rows, u.owner, t.clock)
  {
    var r, n := (t => Reachable(lim, h, t)), Capacity(lim);
    ReachableKept(lim, h);
    var full := Fills(lim, h, r, u, n);
    DeletesFirst(lim, h, r, full, u, n, n);
    var gone := Marked(full, Id(0), 2, Some(0));
    OneMoreUpload(lim, h, r, gone, u, n - 1, n);
    var refilled := Uploaded(h, gone, Id(n), u);
    assert |Id(0)| == 0 && |Id(n)| == n;
    RestoresFirst(lim, h, r, refilled, u, n, n + 1);
    CapacityIs(lim, Marked(refilled, Id(0), 3, None).rows, u.owner, n + 1);
  }
}
