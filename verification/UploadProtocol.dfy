/** One upload session under any interleaving of finalize calls, chunk puts, cancels, clean-ups and
    stale "expired" writes. No lock is assumed: the per-session lock gives none across calls. */
module UploadProtocol {
  import opened Prelude
  import opened UploadLayout

  type Hash = Bytes -> string
  type Pid = string

  /** What a session fixes at creation. */
  datatype Session = Session(total: nat, chunkSize: nat, checksum: Option<string>, expiresAt: nat)

  /** Where a finalize call stands. */
  datatype Phase =
    | Begun        // called
    | Fetched      // holds the shared session object
    | SawActive    // read status "active"
    | SawExpired   // read an expired clock; about to write "expired"
    | NotExpired   // about to try the compare-and-set
    | Won          // moved the status from active to finalizing
    | Laying       // walking the layout
    | Streaming    // reading the chunks of the layout
    | Stored       // blob written
    | Matched      // checksum accepted
    | Published    // file row inserted
    | DropRow      // over quota: row to be deleted
    | DropBlob     // blob to be deleted
    | Reopening    // about to write "active"
    | Accepted     // passed the post-write check
    | Closed       // wrote "finalized": the call will return the file
    | Ended        // raised

  datatype Call = Call(phase: Phase, offset: nat, layout: seq<nat>, next: nat, buffer: Bytes)

  datatype Row = Row(size: nat, sha256: string)

  /** `present` is membership in the repository; `status` is the shared object's field, which outlives
      it. Chunk puts that passed the existence check wait in `puts`. Blobs and rows are by call. */
  datatype State = State(
    clock: nat, present: bool, status: Status, chunks: Chunks, puts: multiset<(nat, Bytes)>,
    calls: map<Pid, Call>, blobs: map<Pid, Bytes>, rows: map<Pid, Row>)

  const START := State(0, true, Active, map[], multiset{}, map[], map[], map[])

  /** The actions of one finalize call. */
  datatype Act =
    | Fetch
    | ReadStatus
    | ReadClock
    | WriteExpired
    | CompareAndSet
    | FetchAgain
    | LayNext
    | StreamNext
    | Raise          // any exception between the compare-and-set and the blob write
    | PutBlob
    | CompareChecksum
    | InsertRow(ok: bool)
    | Recount(over: bool)
    | DeleteRow
    | DeleteBlob
    | WriteActive
    | WriteFinalized

  datatype Step =
    | Tick(to: nat)
    | Finalize(p: Pid)
    | By(p: Pid, act: Act)
    | ChunkCheck(o: nat, data: Bytes)
    | ChunkPut(o: nat, data: Bytes)
    | ChunkDelete(o: nat)
    | SessionDelete
    | StaleExpired
    | PurgeFile(p: Pid)

  // ---------- One action of one call ----------

  function To(c: Call, phase: Phase): Call {
    c.(phase := phase)
  }

  /** The call after an action it can take in its phase; other actions leave it as it is. */
  function Moved(u: Session, h: Hash, s: State, c: Call, act: Act): Call {
    match (c.phase, act)
    case (Begun, Fetch) => To(c, if s.present then Fetched else Ended)
    case (Fetched, ReadStatus) => To(c, if s.status == Active then SawActive else Ended)
    case (SawActive, ReadClock) => To(c, if u.expiresAt <= s.clock then SawExpired else NotExpired)
    case (SawExpired, WriteExpired) => To(c, Ended)
    case (NotExpired, CompareAndSet) => To(c, if s.present && s.status == Active then Won else Ended)
    case (Won, FetchAgain) => To(c, if s.present then Laying else Ended)
    case (Laying, LayNext) =>
      if c.offset >= u.total then To(c, Streaming)
      else if c.offset !in s.chunks || s.chunks[c.offset] == [] || c.offset + |s.chunks[c.offset]| > u.total
          then To(c, Ended)
      else c.(layout := c.layout + [c.offset], offset := c.offset + |s.chunks[c.offset]|)
    case (Streaming, StreamNext) =>
      if c.next >= |c.layout| then c
      else if c.layout[c.next] !in s.chunks then To(c, Ended)
      else c.(buffer := c.buffer + s.chunks[c.layout[c.next]], next := c.next + 1)
    case (Won, Raise) => To(c, Ended)
    case (Laying, Raise) => To(c, Ended)
    case (Streaming, Raise) => To(c, Ended)
    case (Streaming, PutBlob) => if c.next == |c.layout| then To(c, Stored) else c
    case (Stored, CompareChecksum) =>
      To(c, if ChecksumRefused(u.checksum, h(c.buffer)) then DropBlob else Matched)
    case (Matched, InsertRow(ok)) => To(c, if ok then Published else DropBlob)
    case (Published, Recount(over)) => To(c, if over then DropRow else Accepted)
    case (DropRow, DeleteRow) => To(c, DropBlob)
    case (DropBlob, DeleteBlob) => To(c, Reopening)
    case (Reopening, WriteActive) => To(c, Ended)
    case (Accepted, WriteFinalized) => To(c, Closed)
    case _ => c
  }

  function StatusAfter(s: State, c: Call, c': Call, act: Act): Status {
    match (c.phase, act)
    case (SawExpired, WriteExpired) => Expired
    case (NotExpired, CompareAndSet) => if c'.phase == Won then Finalizing else s.status
    case (Reopening, WriteActive) => Active
    case (Accepted, WriteFinalized) => Finalized
    case _ => s.status
  }

  function BlobsAfter(s: State, p: Pid, c: Call, c': Call): map<Pid, Bytes> {
    if c.phase == Streaming && c'.phase == Stored then s.blobs[p := c.buffer]
    else if c.phase == DropBlob && c'.phase == Reopening then s.blobs - {p}
    else s.blobs
  }

  function RowsAfter(u: Session, h: Hash, s: State, p: Pid, c: Call, c': Call): map<Pid, Row> {
    if c.phase == Matched && c'.phase == Published then s.rows[p := Row(u.total, h(c.buffer))]
    else if c.phase == DropRow && c'.phase == DropBlob then s.rows - {p}
    else s.rows
  }

  function DoCall(u: Session, h: Hash, s: State, p: Pid, act: Act): State {
    if p !in s.calls then s
    else
      var c := s.calls[p];
      var c' := Moved(u, h, s, c, act);
      s.(calls := s.calls[p := c'], status := StatusAfter(s, c, c', act),
         blobs := BlobsAfter(s, p, c, c'), rows := RowsAfter(u, h, s, p, c, c'))
  }

  /** One atomic step; a step that is not enabled changes nothing, so every sequence is a run. */
  function Do(u: Session, h: Hash, s: State, step: Step): State {
    match step
    case Tick(to) => if s.clock <= to then s.(clock := to) else s
    case Finalize(p) => if p in s.calls then s else s.(calls := s.calls[p := Call(Begun, 0, [], 0, [])])
    case By(p, act) => DoCall(u, h, s, p, act)
    case ChunkCheck(o, data) =>
      if o !in s.chunks && Acceptable(o, data, u.total, u.chunkSize) then s.(puts := s.puts + multiset{(o, data)})
          else s
    case ChunkPut(o, data) =>
      if (o, data) in s.puts then s.(puts := s.puts - multiset{(o, data)}, chunks := s.chunks[o := data]) else s
    case ChunkDelete(o) => s.(chunks := s.chunks - {o})
    case SessionDelete => s.(present := false)
    case StaleExpired => if u.expiresAt <= s.clock then s.(status := Expired) else s
    case PurgeFile(p) => if p in s.rows then s.(rows := s.rows - {p}, blobs := s.blobs - {p}) else s
  }

  function After(u: Session, h: Hash, s: State, steps: seq<Step>): State {
    if steps == [] then s else Do(u, h, After(u, h, s, Front(steps)), Last(steps))
  }

  function Run(u: Session, h: Hash, steps: seq<Step>): State {
    After(u, h, START, steps)
  }

  // ---------- Single winner ----------

  /** Past the compare-and-set, and not gone without a result. */
  predicate Past(phase: Phase) {
    phase !in {Begun, Fetched, SawActive, SawExpired, NotExpired, Ended}
  }

  predicate MayHaveRow(phase: Phase) {
    phase in {Published, DropRow, Accepted, Closed}
  }

  ghost predicate AloneInv(s: State) {
    && (forall p :: p in s.calls && Past(s.calls[p].phase) ==> s.status != Active)
    && (forall p, q :: p in s.calls && q in s.calls && Past(s.calls[p].phase) && Past(s.calls[q].phase) ==> p == q)
    && (forall p :: p in s.rows ==> p in s.calls && MayHaveRow(s.calls[p].phase))
  }

  /** How one action can move a call and the status together. */
  lemma ActCases(u: Session, h: Hash, s: State, c: Call, act: Act)
    ensures var c' := Moved(u, h, s, c, act);
            var st := StatusAfter(s, c, c', act);
            && (Past(c'.phase) && !Past(c.phase) ==> s.status == Active && st == Finalizing)
            && (Past(c'.phase) && Past(c.phase) ==> st == s.status || st == Finalized)
            && (!Past(c'.phase) && !Past(c.phase) ==> st == s.status || st == Expired)
            && (MayHaveRow(c'.phase) || !MayHaveRow(c.phase) || (c.phase == DropRow && c'.phase == DropBlob))
            && (c'.phase == Published && c.phase != Published ==> c.phase == Matched)
  {
  }

  lemma AloneMoves(s: State, p: Pid, c: Call, c': Call, st: Status, blobs: map<Pid, Bytes>, rows: map<Pid, Row>)
    requires AloneInv(s) && p in s.calls && s.calls[p] == c
    requires Past(c'.phase) && !Past(c.phase) ==> s.status == Active && st == Finalizing
    requires Past(c'.phase) && Past(c.phase) ==> st == s.status || st == Finalized
    requires !Past(c'.phase) && !Past(c.phase) ==> st == s.status || st == Expired
    requires forall q :: q in rows && q != p ==> q in s.rows
    requires p in rows ==> MayHaveRow(c'.phase)
    ensures AloneInv(s.(calls := s.calls[p := c'], status := st, blobs := blobs, rows := rows))
  {
  }

  lemma CallKeepsAlone(u: Session, h: Hash, s: State, p: Pid, act: Act)
    requires AloneInv(s)
    ensures AloneInv(DoCall(u, h, s, p, act))
  {
    if p in s.calls {
      var c := s.calls[p];
      var c' := Moved(u, h, s, c, act);
      ActCases(u, h, s, c, act);
      AloneMoves(s, p, c, c', StatusAfter(s, c, c', act), BlobsAfter(s, p, c, c'), RowsAfter(u, h, s, p, c, c'));
    }
  }

  lemma StepKeepsAlone(u: Session, h: Hash, s: State, step: Step)
    requires AloneInv(s)
    ensures AloneInv(Do(u, h, s, step))
  {
    match step
    case By(p, act) => CallKeepsAlone(u, h, s, p, act);
    case _ =>
  }

  lemma {:induction false} RunAlone(u: Session, h: Hash, steps: seq<Step>)
    ensures AloneInv(Run(u, h, steps))
  {
    if steps == [] {
    } else {
      RunAlone(u, h, Front(steps));
      StepKeepsAlone(u, h, Run(u, h, Front(steps)), Last(steps));
    }
  }

  /** A call that closed stays closed, so the calls closed at the end are all that ever succeeded. */
  lemma ClosedForGood(u: Session, h: Hash, s: State, step: Step, p: Pid)
    requires p in s.calls && s.calls[p].phase == Closed
    ensures p in Do(u, h, s, step).calls && Do(u, h, s, step).calls[p] == s.calls[p]
  {
  }

  /** Main result: over every interleaving at most one finalize of the session ever succeeds, at most
      one of its file rows exists at any time, and while the status reads "active" there is neither
      a row nor a call past the compare-and-set. */
  lemma SingleWinner(u: Session, h: Hash, steps: seq<Step>)
    ensures var s := Run(u, h, steps);
            && (forall p, q ::
                  p in s.calls && q in s.calls && s.calls[p].phase == Closed == s.calls[q].phase ==> p == q)
            && |s.rows| <= 1
            && (s.status == Active ==> s.rows == map[] && forall p :: p in s.calls ==> !Past(s.calls[p].phase))
  {
    var s := Run(u, h, steps);
    RunAlone(u, h, steps);
    if p :| p in s.rows {
      assert s.rows.Keys == {p};
      assert |s.rows| == |s.rows.Keys|;
    }
  }

  // ---------- What gets published ----------

  /** What a proof about published bytes follows: which chunk may stand at an offset, of which one
      length (0 where any will do), and what the first `n` bytes of such chunks may join to. */
  datatype Content = Content(
    total: nat, len: nat -> nat, good: (nat, Bytes) -> bool, joined: (nat, Bytes) -> bool)

  /** Joining keeps up with the walk, and every offset the walk by `len` passes has its one length. */
  ghost predicate Coherent(x: Content) {
    && x.joined(0, [])
    && (forall n: nat, b: Bytes, data: Bytes :: x.joined(n, b) && x.good(n, data) ==> x.joined(n + |data|, b + data))
    && (0 < x.total ==> x.len(0) != 0)
    && (forall o: nat :: x.len(o) != 0 && o + x.len(o) < x.total ==> x.len(o + x.len(o)) != 0)
  }

  ghost predicate Faithful(x: Content, o: nat, data: Bytes) {
    x.good(o, data) && (x.len(o) != 0 ==> |data| == x.len(o))
  }

  /** The chunk puts that the checks let through. */
  ghost predicate FaithfulSteps(u: Session, x: Content, steps: seq<Step>) {
    forall i :: 0 <= i < |steps| && steps[i].ChunkCheck? && Acceptable(steps[i].o, steps[i].data, u.total, u.chunkSize)
                ==> Faithful(x, steps[i].o, steps[i].data)
  }

  ghost predicate FaithfulData(s: State, x: Content) {
    && (forall o :: o in s.chunks ==> Faithful(x, o, s.chunks[o]))
    && (forall put :: put in s.puts ==> Faithful(x, put.0, put.1))
  }

  /** The layout is the walk by `len` from 0, up to `end`. */
  ghost predicate Tiles(layout: seq<nat>, len: nat -> nat, end: nat) {
    && (forall i :: 0 <= i < |layout| ==> layout[i] == if i == 0 then 0 else layout[i - 1] + len(layout[i - 1]))
    && (forall i :: 0 <= i < |layout| ==> len(layout[i]) != 0)
    && end == if layout == [] then 0 else layout[|layout| - 1] + len(layout[|layout| - 1])
  }

  /** Where the walk stands before entry `i` of the layout. */
  function StartOf(layout: seq<nat>, end: nat, i: nat): nat {
    if i < |layout| then layout[i] else end
  }

  ghost predicate Reads(c: Call, x: Content) {
    && Tiles(c.layout, x.len, c.offset)
    && c.offset <= x.total
    && c.next <= |c.layout|
    && x.joined(StartOf(c.layout, c.offset, c.next), c.buffer)
  }

  ghost predicate CallInv(c: Call, x: Content) {
    match c.phase
    case Begun => c == Call(Begun, 0, [], 0, [])
    case Fetched => c == Call(Fetched, 0, [], 0, [])
    case SawActive => c == Call(SawActive, 0, [], 0, [])
    case SawExpired => true
    case NotExpired => c == Call(NotExpired, 0, [], 0, [])
    case Won => c == Call(Won, 0, [], 0, [])
    case Laying => c.next == 0 && Reads(c, x)
    case Streaming => c.offset == x.total && Reads(c, x)
    case Ended => true
    case _ => x.joined(x.total, c.buffer)
  }

  lemma TilesExtend(layout: seq<nat>, len: nat -> nat, end: nat)
    requires Tiles(layout, len, end) && len(end) != 0
    ensures Tiles(layout + [end], len, end + len(end))
  {
  }

  lemma LayKeeps(u: Session, h: Hash, s: State, c: Call, x: Content)
    requires c.phase == Laying && CallInv(c, x) && FaithfulData(s, x) && u.total == x.total && Coherent(x)
    ensures CallInv(Moved(u, h, s, c, LayNext), x)
  {
    if c.offset < u.total && c.offset in s.chunks {
      assert x.len(c.offset) != 0 by {
        if c.layout != [] {
          assert x.len(c.layout[|c.layout| - 1]) != 0;
        }
      }
      TilesExtend(c.layout, x.len, c.offset);
      assert Faithful(x, c.offset, s.chunks[c.offset]);
    }
  }

  lemma StreamKeeps(u: Session, h: Hash, s: State, c: Call, x: Content)
    requires c.phase == Streaming && CallInv(c, x) && FaithfulData(s, x) && Coherent(x)
    ensures CallInv(Moved(u, h, s, c, StreamNext), x)
  {
    if c.next < |c.layout| && c.layout[c.next] in s.chunks {
      var o: nat := c.layout[c.next];
      assert Faithful(x, o, s.chunks[o]);
      assert StartOf(c.layout, c.offset, c.next + 1) == o + x.len(o);
    }
  }

  lemma CallStepKeeps(u: Session, h: Hash, s: State, c: Call, act: Act, x: Content)
    requires CallInv(c, x) && FaithfulData(s, x) && u.total == x.total && Coherent(x)
    ensures CallInv(Moved(u, h, s, c, act), x)
  {
    if c.phase == Laying && act.LayNext? {
      LayKeeps(u, h, s, c, x);
    } else if c.phase == Streaming && act.StreamNext? {
      StreamKeeps(u, h, s, c, x);
    }
  }

  ghost predicate BlobsInv(s: State, x: Content) {
    && (forall p :: p in s.blobs ==> x.joined(x.total, s.blobs[p]))
    && (forall p :: p in s.rows ==> p in s.blobs && s.rows[p].size == x.total)
    && (forall p :: p in s.calls && s.calls[p].phase in {Stored, Matched} ==> p in s.blobs)
  }

  ghost predicate FidelityInv(s: State, x: Content) {
    FaithfulData(s, x) && CallsInv(s, x) && BlobsInv(s, x)
  }

  lemma StepKeepsData(u: Session, h: Hash, s: State, step: Step, x: Content)
    requires FaithfulData(s, x)
    requires step.ChunkCheck? && Acceptable(step.o, step.data, u.total, u.chunkSize) ==> Faithful(x, step.o, step.data)
    ensures FaithfulData(Do(u, h, s, step), x)
  {
  }

  ghost predicate CallsInv(s: State, x: Content) {
    forall p :: p in s.calls ==> CallInv(s.calls[p], x)
  }

  lemma StepKeepsCalls(u: Session, h: Hash, s: State, step: Step, x: Content)
    requires CallsInv(s, x) && FaithfulData(s, x) && u.total == x.total && Coherent(x)
    ensures CallsInv(Do(u, h, s, step), x)
  {
    if step.By? && step.p in s.calls {
      CallStepKeeps(u, h, s, s.calls[step.p], step.act, x);
    }
  }

  /** How an action that touches a blob or a row moves the call. */
  lemma BlobCases(u: Session, h: Hash, s: State, c: Call, act: Act, x: Content)
    requires CallInv(c, x) && u.total == x.total
    ensures var c' := Moved(u, h, s, c, act);
            && (c'.phase in {Stored, Matched} ==> c.phase in {Stored, Matched} || c.phase == Streaming)
            && (c.phase == Streaming && c'.phase == Stored ==> x.joined(x.total, c.buffer))
            && (c.phase == Streaming ==> c'.phase != Matched)
  {
  }

  lemma CallKeepsBlobs(u: Session, h: Hash, s: State, p: Pid, act: Act, x: Content)
    requires BlobsInv(s, x) && CallsInv(s, x) && AloneInv(s) && u.total == x.total
    ensures BlobsInv(DoCall(u, h, s, p, act), x)
  {
    if p in s.calls {
      var c := s.calls[p];
      BlobCases(u, h, s, c, act, x);
      BlobMoves(u, h, s, p, c, Moved(u, h, s, c, act), StatusAfter(s, c, Moved(u, h, s, c, act), act), x);
    }
  }

  /** The blob and row maps after a call moved from `c` to `c'`. */
  lemma BlobMoves(u: Session, h: Hash, s: State, p: Pid, c: Call, c': Call, st: Status, x: Content)
    requires BlobsInv(s, x) && AloneInv(s) && u.total == x.total && p in s.calls && s.calls[p] == c
    requires c'.phase in {Stored, Matched} ==> c.phase in {Stored, Matched} || c.phase == Streaming
    requires c.phase == Streaming && c'.phase == Stored ==> x.joined(x.total, c.buffer)
    requires c.phase == Streaming ==> c'.phase != Matched
    ensures BlobsInv(s.(calls := s.calls[p := c'], status := st,
                        blobs := BlobsAfter(s, p, c, c'), rows := RowsAfter(u, h, s, p, c, c')), x)
  {
  }

  lemma StepKeepsBlobs(u: Session, h: Hash, s: State, step: Step, x: Content)
    requires BlobsInv(s, x) && CallsInv(s, x) && AloneInv(s) && u.total == x.total
    ensures BlobsInv(Do(u, h, s, step), x)
  {
    if step.By? {
      CallKeepsBlobs(u, h, s, step.p, step.act, x);
    } else if step.PurgeFile? && step.p in s.rows {
      assert s.calls[step.p].phase !in {Stored, Matched};
    }
  }

  lemma {:induction false} RunFidelity(u: Session, h: Hash, steps: seq<Step>, x: Content)
    requires FaithfulSteps(u, x, steps) && u.total == x.total && Coherent(x)
    ensures FidelityInv(Run(u, h, steps), x)
  {
    if steps == [] {
    } else {
      RunFidelity(u, h, Front(steps), x);
      RunAlone(u, h, Front(steps));
      var s := Run(u, h, Front(steps));
      StepKeepsData(u, h, s, Last(steps), x);
      StepKeepsCalls(u, h, s, Last(steps), x);
      StepKeepsBlobs(u, h, s, Last(steps), x);
    }
  }

  // ---------- The bytes of D ----------

  /** The bytes of D at offset `o`. */
  predicate SliceAt(d: Bytes, o: nat, data: Bytes) {
    o + |data| <= |d| && data == d[o..o + |data|]
  }

  /** Slices of D, which join to its prefixes. */
  function SlicesOfD(d: Bytes, len: nat -> nat): Content {
    Content(|d|, len, (o: nat, data: Bytes) => SliceAt(d, o, data), (n: nat, b: Bytes) => n <= |d| && b == d[..n])
  }

  /** Chunks of any content: only the length of what they join to is known. */
  function LengthsOnly(total: nat, len: nat -> nat): Content {
    Content(total, len, (o: nat, data: Bytes) => true, (n: nat, b: Bytes) => |b| == n)
  }

  ghost predicate Covers(total: nat, len: nat -> nat) {
    && (0 < total ==> len(0) != 0)
    && (forall o: nat :: len(o) != 0 && o + len(o) < total ==> len(o + len(o)) != 0)
  }

  lemma SlicesCohere(d: Bytes, len: nat -> nat)
    requires Covers(|d|, len)
    ensures Coherent(SlicesOfD(d, len))
  {
    var x := SlicesOfD(d, len);
    forall n: nat, b: Bytes, data: Bytes | x.joined(n, b) && x.good(n, data)
      ensures x.joined(n + |data|, b + data)
    {
      assert d[..n + |data|] == d[..n] + d[n..n + |data|];
    }
  }

  lemma LengthsCohere(total: nat, len: nat -> nat)
    requires Covers(total, len)
    ensures Coherent(LengthsOnly(total, len))
  {
  }

  /** Main result: if every chunk put carried the bytes of D at its offset, one length per offset, then
      under every interleaving each published file is D, with the size and digest of D. */
  lemma PublishesD(u: Session, h: Hash, steps: seq<Step>, d: Bytes, len: nat -> nat)
    requires FaithfulSteps(u, SlicesOfD(d, len), steps) && u.total == |d| && Covers(|d|, len)
    ensures var s := Run(u, h, steps);
            forall p :: p in s.rows ==> p in s.blobs && s.blobs[p] == d && s.rows[p] == Row(|d|, h(d))
  {
    SlicesCohere(d, len);
    RunFidelity(u, h, steps, SlicesOfD(d, len));
    RowDigests(u, h, steps);
    assert d[..|d|] == d;
  }

  /** A published row states the size its blob has. */
  ghost predicate SizesAgree(s: State) {
    forall p :: p in s.rows ==> p in s.blobs && |s.blobs[p]| == s.rows[p].size
  }

  /** One length per offset is enough for that, whatever bytes the chunks carried. */
  lemma PublishesSizes(u: Session, h: Hash, steps: seq<Step>, len: nat -> nat)
    requires FaithfulSteps(u, LengthsOnly(u.total, len), steps) && Covers(u.total, len)
    ensures SizesAgree(Run(u, h, steps))
  {
    LengthsCohere(u.total, len);
    RunFidelity(u, h, steps, LengthsOnly(u.total, len));
  }

  // ---------- A declared checksum guards every interleaving ----------

  /** What one call has stored, and its row, have the digest that was checked. */
  ghost predicate DigestAt(u: Session, h: Hash, s: State, p: Pid) {
    && (p in s.calls && s.calls[p].phase in {Stored, Matched} ==> p in s.blobs && s.blobs[p] == s.calls[p].buffer)
    && (p in s.calls && s.calls[p].phase == Matched ==> !ChecksumRefused(u.checksum, h(s.calls[p].buffer)))
    && (p in s.rows ==>
          p in s.blobs && s.rows[p].sha256 == h(s.blobs[p]) && !ChecksumRefused(u.checksum, h(s.blobs[p])))
  }

  ghost predicate DigestInv(u: Session, h: Hash, s: State) {
    forall p :: DigestAt(u, h, s, p)
  }

  lemma DigestMovesAt(u: Session, h: Hash, s: State, p: Pid, c: Call, c': Call, st: Status, q: Pid)
    requires DigestAt(u, h, s, q) && AloneInv(s) && p in s.calls && s.calls[p] == c
    requires c'.phase == Stored ==> c.phase in {Stored, Streaming} && c'.buffer == c.buffer
    requires c'.phase == Matched ==>
               c.phase in {Stored, Matched} && c'.buffer == c.buffer && !ChecksumRefused(u.checksum, h(c.buffer))
    ensures DigestAt(u, h, s.(calls := s.calls[p := c'], status := st,
                              blobs := BlobsAfter(s, p, c, c'), rows := RowsAfter(u, h, s, p, c, c')), q)
  {
  }

  lemma DigestCases(u: Session, h: Hash, s: State, c: Call, act: Act)
    ensures var c' := Moved(u, h, s, c, act);
            && (c'.phase == Stored ==> c.phase in {Stored, Streaming} && c'.buffer == c.buffer)
            && (c'.phase == Matched ==>
                c == c' || (c.phase == Stored && c'.buffer == c.buffer && !ChecksumRefused(u.checksum, h(c.buffer))))
  {
  }

  lemma DigestStep(u: Session, h: Hash, s: State, step: Step)
    requires DigestInv(u, h, s) && AloneInv(s)
    ensures DigestInv(u, h, Do(u, h, s, step))
  {
    forall p
      ensures DigestAt(u, h, Do(u, h, s, step), p)
    {
      assert DigestAt(u, h, s, p);
      DigestStepAt(u, h, s, step, p);
    }
  }

  lemma DigestStepAt(u: Session, h: Hash, s: State, step: Step, p: Pid)
    requires DigestAt(u, h, s, p) && AloneInv(s)
    ensures DigestAt(u, h, Do(u, h, s, step), p)
  {
    if step.By? {
      DigestCall(u, h, s, step.p, step.act, p);
    }
  }

  lemma DigestCall(u: Session, h: Hash, s: State, p: Pid, act: Act, q: Pid)
    requires DigestAt(u, h, s, q) && AloneInv(s)
    ensures DigestAt(u, h, DoCall(u, h, s, p, act), q)
  {
    if p in s.calls {
      var c' := Moved(u, h, s, s.calls[p], act);
      DigestCases(u, h, s, s.calls[p], act);
      if p == q || c'.phase !in {Stored, Matched} {
        DigestMovesAt(u, h, s, p, s.calls[p], c', StatusAfter(s, s.calls[p], c', act), q);
      }
    }
  }

  lemma {:induction false} RunDigest(u: Session, h: Hash, steps: seq<Step>)
    ensures DigestInv(u, h, Run(u, h, steps))
  {
    if steps == [] {
    } else {
      RunDigest(u, h, Front(steps));
      RunAlone(u, h, Front(steps));
      DigestStep(u, h, Run(u, h, Front(steps)), Last(steps));
    }
  }

  lemma RowDigests(u: Session, h: Hash, steps: seq<Step>)
    ensures var s := Run(u, h, steps);
            forall p :: p in s.rows ==>
              p in s.blobs && s.rows[p].sha256 == h(s.blobs[p]) && !ChecksumRefused(u.checksum, h(s.blobs[p]))
  {
    RunDigest(u, h, steps);
    var s := Run(u, h, steps);
    forall p | p in s.rows
      ensures p in s.blobs && s.rows[p].sha256 == h(s.blobs[p]) && !ChecksumRefused(u.checksum, h(s.blobs[p]))
    {
      assert DigestAt(u, h, s, p);
    }
  }

  /** Whatever the chunk puts carried and however they raced: a published file has the digest its row
      states, and when the session declared the digest of D, the file is D (for a digest without
      collisions). */
  lemma ChecksumPublishesD(u: Session, h: Hash, steps: seq<Step>, d: Bytes)
    ensures var s := Run(u, h, steps);
            forall p :: p in s.rows ==> p in s.blobs && s.rows[p].sha256 == h(s.blobs[p])
    ensures var s := Run(u, h, steps);
            (u.checksum == Some(h(d)) && h(d) != "" && (forall x :: Lower(h(x)) == Lower(h(d)) ==> x == d)) ==>
              forall p :: p in s.rows ==> s.blobs[p] == d
  {
    RowDigests(u, h, steps);
  }

  // ---------- When a failed finalize can be retried ----------

  /** No call is past the compare-and-set and the status is not active. */
  ghost predicate Dead(s: State) {
    s.status != Active && forall p :: p in s.calls ==> !Past(s.calls[p].phase)
  }

  /** A finalize that has won and then raises leaves a retry possible exactly when it goes through the
      roll-back that writes "active"; every earlier failure, a missing chunk among them, kills the
      session. */
  lemma RetryIffReopened(u: Session, h: Hash, s: State, p: Pid, act: Act)
    requires AloneInv(s) && p in s.calls && Past(s.calls[p].phase)
    requires DoCall(u, h, s, p, act).calls[p].phase == Ended
    ensures DoCall(u, h, s, p, act).status == Active <==> s.calls[p].phase == Reopening
    ensures s.calls[p].phase != Reopening ==> Dead(DoCall(u, h, s, p, act))
  {
  }

  lemma DeadCases(u: Session, h: Hash, s: State, c: Call, act: Act)
    requires s.status != Active && !Past(c.phase)
    ensures var c' := Moved(u, h, s, c, act); !Past(c'.phase) && StatusAfter(s, c, c', act) != Active
  {
  }

  lemma DeadStep(u: Session, h: Hash, s: State, step: Step)
    requires Dead(s)
    ensures Dead(Do(u, h, s, step))
  {
    if step.By? && step.p in s.calls {
      DeadCases(u, h, s, s.calls[step.p], step.act);
    }
  }

  /** A dead session never succeeds: no later finalize gets past the compare-and-set. */
  lemma {:induction false} DeadForGood(u: Session, h: Hash, s: State, steps: seq<Step>)
    requires Dead(s)
    ensures Dead(After(u, h, s, steps))
  {
    if steps == [] {
    } else {
      DeadForGood(u, h, s, Front(steps));
      DeadStep(u, h, After(u, h, s, Front(steps)), Last(steps));
    }
  }
}
