/** Which upload sessions publish the right bytes under every race of chunk puts, with no checksum
    declared: the exact condition, and the run that breaks the others. */
module UploadRaces {
  import opened Prelude
  import opened UploadLayout
  import opened UploadProtocol

  // ---------- Which sessions are safe without a checksum ----------

  ghost predicate SlicesSent(d: Bytes, steps: seq<Step>) {
    forall i :: 0 <= i < |steps| && steps[i].ChunkCheck? ==> SliceAt(d, steps[i].o, steps[i].data)
  }

  ghost predicate PublishedAre(d: Bytes, s: State) {
    forall p :: p in s.rows ==> p in s.blobs && s.blobs[p] == d && s.rows[p].size == |d|
  }

  /** Some offset on the walk by chunk_size accepts two lengths: chunk_size, or all that is left. */
  ghost predicate Ambiguous(total: nat, chunkSize: nat) {
    exists k: nat :: TwoLengths(total, chunkSize, chunkSize * k)
  }

  predicate TwoLengths(total: nat, chunkSize: nat, o: nat) {
    o + chunkSize < total <= o + MAX_CHUNK
  }

  /** The one acceptable length at a multiple of chunk_size. */
  function OnlyLength(total: nat, chunkSize: nat, o: nat): nat
    requires 0 < chunkSize
  {
    if o % chunkSize != 0 || total <= o then 0 else if o + chunkSize <= total then chunkSize else total - o
  }

  lemma OnlyLengthCovers(total: nat, chunkSize: nat)
    requires 0 < chunkSize
    ensures Covers(total, (o: nat) => OnlyLength(total, chunkSize, o))
  {
    forall o: nat | o % chunkSize == 0
      ensures (o + chunkSize) % chunkSize == 0
    {
      NextMultiple(chunkSize, o / chunkSize);
      NoRemainder(chunkSize, o / chunkSize + 1, (o + chunkSize) / chunkSize, (o + chunkSize) % chunkSize);
    }
  }

  lemma NoRemainder(n: nat, q: nat, q': nat, r: nat)
    requires n * q == n * q' + r && r < n
    ensures r == 0
  {
    if q <= q' {
      TimesOrdered(n, q, q');
    } else {
      TimesOrdered(n, q' + 1, q);
      NextMultiple(n, q');
    }
  }

  lemma TimesOrdered(n: nat, a: nat, b: nat)
    requires a <= b
    ensures n * a <= n * b
  {
    if a < b {
      TimesOrdered(n, a, b - 1);
      NextMultiple(n, b - 1);
    }
  }

  lemma NextMultiple(n: nat, k: nat)
    ensures n * (k + 1) == n * k + n
  {
  }

  lemma HasOnlyLength(total: nat, chunkSize: nat, o: nat, data: Bytes)
    requires 0 < chunkSize && !Ambiguous(total, chunkSize) && Acceptable(o, data, total, chunkSize)
    ensures OnlyLength(total, chunkSize, o) != 0 ==> |data| == OnlyLength(total, chunkSize, o)
  {
    if o % chunkSize == 0 {
      assert o == chunkSize * (o / chunkSize);
      assert !TwoLengths(total, chunkSize, chunkSize * (o / chunkSize));
    }
  }

  lemma UnambiguousSteps(u: Session, x: Content, steps: seq<Step>)
    requires 0 < u.chunkSize && !Ambiguous(u.total, u.chunkSize)
    requires x.len == ((o: nat) => OnlyLength(u.total, u.chunkSize, o))
    requires forall i :: 0 <= i < |steps| && steps[i].ChunkCheck? ==> x.good(steps[i].o, steps[i].data)
    ensures FaithfulSteps(u, x, steps)
  {
    forall i | 0 <= i < |steps| && steps[i].ChunkCheck? && Acceptable(steps[i].o, steps[i].data, u.total, u.chunkSize)
      ensures Faithful(x, steps[i].o, steps[i].data)
    {
      HasOnlyLength(u.total, u.chunkSize, steps[i].o, steps[i].data);
    }
  }

  lemma UnambiguousPublishesD(u: Session, h: Hash, steps: seq<Step>, d: Bytes)
    requires 0 < u.chunkSize && u.total == |d| && !Ambiguous(u.total, u.chunkSize) && SlicesSent(d, steps)
    ensures PublishedAre(d, Run(u, h, steps))
  {
    var len := (o: nat) => OnlyLength(u.total, u.chunkSize, o);
    OnlyLengthCovers(u.total, u.chunkSize);
    UnambiguousSteps(u, SlicesOfD(d, len), steps);
    PublishesD(u, h, steps, d, len);
  }

  lemma UnambiguousSizes(u: Session, h: Hash, steps: seq<Step>)
    requires 0 < u.chunkSize && !Ambiguous(u.total, u.chunkSize)
    ensures SizesAgree(Run(u, h, steps))
  {
    var len := (o: nat) => OnlyLength(u.total, u.chunkSize, o);
    OnlyLengthCovers(u.total, u.chunkSize);
    UnambiguousSteps(u, LengthsOnly(u.total, len), steps);
    PublishesSizes(u, h, steps, len);
  }

  // ---------- A run that publishes something else ----------

  /** Some run whose chunk puts all carry slices of D ends in `t`. */
  ghost predicate Reachable(u: Session, h: Hash, d: Bytes, t: State) {
    exists steps :: SlicesSent(d, steps) && Run(u, h, steps) == t
  }

  /** `r` holds of the start and is kept by every step that sends a slice of D. The lemmas below need
      no more of `Reachable`. */
  ghost predicate Kept(u: Session, h: Hash, d: Bytes, r: State -> bool) {
    forall s: State, step: Step :: r(s) && (step.ChunkCheck? ==> SliceAt(d, step.o, step.data)) ==> r(Do(u, h, s, step))
  }

  lemma ReachableKept(u: Session, h: Hash, d: Bytes)
    ensures Reachable(u, h, d, START)
    ensures Kept(u, h, d, t => Reachable(u, h, d, t))
  {
    assert SlicesSent(d, []) && Run(u, h, []) == START;
    forall s: State, step: Step | Reachable(u, h, d, s) && (step.ChunkCheck? ==> SliceAt(d, step.o, step.data))
      ensures Reachable(u, h, d, Do(u, h, s, step))
    {
      var steps :| SlicesSent(d, steps) && Run(u, h, steps) == s;
      var more := steps + [step];
      assert Front(more) == steps && Last(more) == step;
      assert SlicesSent(d, more) && Run(u, h, more) == Do(u, h, s, step);
    }
  }

  lemma Onward(u: Session, h: Hash, d: Bytes, r: State -> bool, s: State, step: Step, t: State)
    requires Kept(u, h, d, r) && r(s) && Do(u, h, s, step) == t
    requires step.ChunkCheck? ==> SliceAt(d, step.o, step.data)
    ensures r(t)
  {
  }

  /** One chunk put with nothing in between. */
  lemma PutAlone(u: Session, h: Hash, d: Bytes, r: State -> bool, s: State, o: nat, data: Bytes)
    requires Kept(u, h, d, r) && r(s) && o !in s.chunks
    requires Acceptable(o, data, u.total, u.chunkSize) && SliceAt(d, o, data)
    ensures r(s.(chunks := s.chunks[o := data]))
  {
    var checked := s.(puts := s.puts + multiset{(o, data)});
    Onward(u, h, d, r, s, ChunkCheck(o, data), checked);
    assert checked.puts - multiset{(o, data)} == s.puts;
    Onward(u, h, d, r, checked, ChunkPut(o, data), s.(chunks := s.chunks[o := data]));
  }

  ghost predicate AcceptableSlices(u: Session, d: Bytes, c: Chunks) {
    forall o :: o in c ==> Acceptable(o, c[o], u.total, u.chunkSize) && SliceAt(d, o, c[o])
  }

  /** Any acceptable slices of D can be stored. */
  lemma {:induction false} Filled(u: Session, h: Hash, d: Bytes, r: State -> bool, s: State, c: Chunks)
    requires Kept(u, h, d, r) && r(s) && s.chunks == map[] && AcceptableSlices(u, d, c)
    ensures r(s.(chunks := c))
    decreases |c|
  {
    if c == map[] {
      assert s.(chunks := c) == s;
    } else {
      var o: nat :| o in c;
      Filled(u, h, d, r, s, c - {o});
      PutAlone(u, h, d, r, s.(chunks := c - {o}), o, c[o]);
      assert (c - {o})[o := c[o]] == c;
    }
  }

  /** `s` with call `p` at `c`. */
  function With(s: State, p: Pid, c: Call): State {
    s.(calls := s.calls[p := c])
  }

  /** One action that touches neither status nor blobs nor rows. */
  lemma Turn(u: Session, h: Hash, d: Bytes, r: State -> bool, s: State, p: Pid, c: Call, act: Act, c': Call)
    requires Kept(u, h, d, r) && r(With(s, p, c))
    requires Moved(u, h, With(s, p, c), c, act) == c'
    requires StatusAfter(With(s, p, c), c, c', act) == s.status
    requires BlobsAfter(With(s, p, c), p, c, c') == s.blobs && RowsAfter(u, h, With(s, p, c), p, c, c') == s.rows
    ensures r(With(s, p, c'))
  {
    assert With(s, p, c).calls[p := c'] == s.calls[p := c'];
    Onward(u, h, d, r, With(s, p, c), By(p, act), With(s, p, c'));
  }

  const FRESH_CALL := Call(Begun, 0, [], 0, [])

  lemma Starts(u: Session, h: Hash, d: Bytes, r: State -> bool, s: State, p: Pid)
    requires Kept(u, h, d, r) && r(s) && p !in s.calls && s.present && s.status == Active
    ensures r(With(s, p, To(FRESH_CALL, SawActive)))
  {
    Onward(u, h, d, r, s, Finalize(p), With(s, p, FRESH_CALL));
    Turn(u, h, d, r, s, p, FRESH_CALL, Fetch, To(FRESH_CALL, Fetched));
    Turn(u, h, d, r, s, p, To(FRESH_CALL, Fetched), ReadStatus, To(FRESH_CALL, SawActive));
  }

  lemma Swaps(u: Session, h: Hash, d: Bytes, r: State -> bool, s: State, p: Pid)
    requires Kept(u, h, d, r) && r(With(s, p, To(FRESH_CALL, NotExpired))) && s.present && s.status == Active
    ensures r(With(s.(status := Finalizing), p, To(FRESH_CALL, Won)))
  {
    assert With(s, p, To(FRESH_CALL, NotExpired)).calls[p := To(FRESH_CALL, Won)] == s.calls[p := To(FRESH_CALL, Won)];
    Onward(u, h, d, r, With(s, p, To(FRESH_CALL, NotExpired)), By(p, CompareAndSet),
        With(s.(status := Finalizing), p, To(FRESH_CALL, Won)));
  }

  /** A finalize with no rival gets past the compare-and-set. */
  lemma Wins(u: Session, h: Hash, d: Bytes, r: State -> bool, s: State, p: Pid)
    requires Kept(u, h, d, r) && r(s) && p !in s.calls && s.present && s.status == Active && s.clock < u.expiresAt
    ensures r(With(s.(status := Finalizing), p, Call(Laying, 0, [], 0, [])))
  {
    Starts(u, h, d, r, s, p);
    Turn(u, h, d, r, s, p, To(FRESH_CALL, SawActive), ReadClock, To(FRESH_CALL, NotExpired));
    Swaps(u, h, d, r, s, p);
    Turn(u, h, d, r, s.(status := Finalizing), p, To(FRESH_CALL, Won), FetchAgain, To(FRESH_CALL, Laying));
  }

  lemma LaysOne(u: Session, h: Hash, d: Bytes, r: State -> bool, s: State, p: Pid, o: nat, done: seq<nat>)
    requires Kept(u, h, d, r) && r(With(s, p, Call(Laying, o, done, 0, [])))
    requires o < u.total && o in s.chunks && s.chunks[o] != [] && o + |s.chunks[o]| <= u.total
    ensures r(With(s, p, Call(Laying, o + |s.chunks[o]|, done + [o], 0, [])))
  {
    Turn(u, h, d, r, s, p, Call(Laying, o, done, 0, []), LayNext, Call(Laying, o + |s.chunks[o]|, done + [o], 0, []));
  }

  lemma LaidOut(u: Session, h: Hash, d: Bytes, r: State -> bool, s: State, p: Pid, done: seq<nat>)
    requires Kept(u, h, d, r) && r(With(s, p, Call(Laying, u.total, done, 0, [])))
    ensures r(With(s, p, Call(Streaming, u.total, done, 0, [])))
  {
    Turn(u, h, d, r, s, p, Call(Laying, u.total, done, 0, []), LayNext, Call(Streaming, u.total, done, 0, []));
  }

  lemma LayoutHead(c: Chunks, total: nat, o: nat, rest: seq<nat>)
    requires Layout(c, total, o) == Ok(rest) && o < total
    ensures o in c && c[o] != [] && o + |c[o]| <= total && rest != [] && rest[0] == o
    ensures Layout(c, total, o + |c[o]|) == Ok(rest[1..])
  {
  }

  /** Undisturbed, the layout loop computes `Layout`. */
  lemma {:induction false} LaysOut(u: Session, h: Hash, d: Bytes, r: State -> bool, s: State, p: Pid, o: nat,
      done: seq<nat>, rest: seq<nat>)
    requires Kept(u, h, d, r) && r(With(s, p, Call(Laying, o, done, 0, []))) && o <= u.total
    requires Layout(s.chunks, u.total, o) == Ok(rest)
    ensures r(With(s, p, Call(Streaming, u.total, done + rest, 0, [])))
    decreases u.total - o
  {
    if o == u.total {
      assert done + rest == done;
      LaidOut(u, h, d, r, s, p, done);
    } else {
      LayoutHead(s.chunks, u.total, o, rest);
      LaysOne(u, h, d, r, s, p, o, done);
      LaysOut(u, h, d, r, s, p, o + |s.chunks[o]|, done + [o], rest[1..]);
      Regroup(done, rest);
    }
  }

  lemma Regroup(done: seq<nat>, rest: seq<nat>)
    requires rest != []
    ensures done + [rest[0]] + rest[1..] == done + rest
  {
  }

  lemma StreamsOne(u: Session, h: Hash, d: Bytes, r: State -> bool, s: State, p: Pid, end: nat, layout: seq<nat>,
      n: nat, buffer: Bytes)
    requires Kept(u, h, d, r) && r(With(s, p, Call(Streaming, end, layout, n, buffer)))
    requires n < |layout| && layout[n] in s.chunks
    ensures r(With(s, p, Call(Streaming, end, layout, n + 1, buffer + s.chunks[layout[n]])))
  {
    Turn(u, h, d, r, s, p, Call(Streaming, end, layout, n, buffer), StreamNext,
         Call(Streaming, end, layout, n + 1, buffer + s.chunks[layout[n]]));
  }

  /** Undisturbed, the streaming loop reads the chunks of the layout, in order. */
  lemma {:induction false} Streams(u: Session, h: Hash, d: Bytes, r: State -> bool, s: State, p: Pid, end: nat,
      layout: seq<nat>, n: nat)
    requires Kept(u, h, d, r) && r(With(s, p, Call(Streaming, end, layout, 0, []))) && n <= |layout|
    requires AllStored(s.chunks, layout)
    ensures r(With(s, p, Call(Streaming, end, layout, n, Join(Assembled(s.chunks, layout[..n])))))
  {
    if n > 0 {
      Streams(u, h, d, r, s, p, end, layout, n - 1);
      var before, last := Assembled(s.chunks, layout[..n - 1]), s.chunks[layout[n - 1]];
      assert Assembled(s.chunks, layout[..n]) == before + [last];
      JoinAppend(before, last);
      StreamsOne(u, h, d, r, s, p, end, layout, n - 1, Join(before));
    } else {
      assert Assembled(s.chunks, layout[..0]) == [];
    }
  }

  lemma StoresBlob(u: Session, h: Hash, d: Bytes, r: State -> bool, s: State, p: Pid, c: Call)
    requires Kept(u, h, d, r) && r(With(s, p, c)) && c.phase == Streaming && c.next == |c.layout|
    ensures r(With(s.(blobs := s.blobs[p := c.buffer]), p, To(c, Stored)))
  {
    var t := s.(blobs := s.blobs[p := c.buffer]);
    assert With(s, p, c).calls[p := To(c, Stored)] == t.calls[p := To(c, Stored)];
    Onward(u, h, d, r, With(s, p, c), By(p, PutBlob), With(t, p, To(c, Stored)));
  }

  lemma InsertsRow(u: Session, h: Hash, d: Bytes, r: State -> bool, s: State, p: Pid, c: Call)
    requires Kept(u, h, d, r) && r(With(s, p, c)) && c.phase == Matched
    ensures r(With(s.(rows := s.rows[p := Row(u.total, h(c.buffer))]), p, To(c, Published)))
  {
    var t := s.(rows := s.rows[p := Row(u.total, h(c.buffer))]);
    assert With(s, p, c).calls[p := To(c, Published)] == t.calls[p := To(c, Published)];
    Onward(u, h, d, r, With(s, p, c), By(p, InsertRow(true)), With(t, p, To(c, Published)));
  }

  lemma Matches(u: Session, h: Hash, d: Bytes, r: State -> bool, s: State, p: Pid, c: Call)
    requires Kept(u, h, d, r) && r(With(s, p, c)) && c.phase == Stored && u.checksum.None?
    ensures r(With(s, p, To(c, Matched)))
  {
    Turn(u, h, d, r, s, p, c, CompareChecksum, To(c, Matched));
  }

  /** Undisturbed, what was streamed is published. */
  lemma Publishes(u: Session, h: Hash, d: Bytes, r: State -> bool, s: State, p: Pid, c: Call) returns (t: State)
    requires Kept(u, h, d, r) && r(With(s, p, c)) && c.phase == Streaming && c.next == |c.layout| && u.checksum.None?
    ensures r(t) && p in t.rows && p in t.blobs && t.blobs[p] == c.buffer && t.rows[p].size == u.total
  {
    StoresBlob(u, h, d, r, s, p, c);
    var s1 := s.(blobs := s.blobs[p := c.buffer]);
    Matches(u, h, d, r, s1, p, To(c, Stored));
    InsertsRow(u, h, d, r, s1, p, To(To(c, Stored), Matched));
    t := With(s1.(rows := s1.rows[p := Row(u.total, h(c.buffer))]), p, To(To(To(c, Stored), Matched), Published));
  }

  /** The chunks of an upload in steps of chunk_size. */
  function Aligned(d: Bytes, chunkSize: nat): Chunks
    requires 0 < chunkSize
  {
    map o: nat | o < |d| && o % chunkSize == 0 :: d[o..o + OnlyLength(|d|, chunkSize, o)]
  }

  lemma AlignedAt(d: Bytes, chunkSize: nat, k: nat)
    requires 0 < chunkSize && chunkSize * k < |d|
    ensures chunkSize * k in Aligned(d, chunkSize)
    ensures chunkSize * k + chunkSize <= |d| ==> |Aligned(d, chunkSize)[chunkSize * k]| == chunkSize
  {
    var o := chunkSize * k;
    NoRemainder(chunkSize, k, o / chunkSize, o % chunkSize);
  }

  lemma AlignedSlices(u: Session, d: Bytes)
    requires 0 < u.chunkSize <= MAX_CHUNK && u.total == |d|
    ensures AcceptableSlices(u, d, Aligned(d, u.chunkSize))
  {
  }

  lemma AlignedLayout(u: Session, d: Bytes) returns (layout: seq<nat>)
    requires 0 < u.chunkSize <= MAX_CHUNK && u.total == |d|
    ensures AcceptableSlices(u, d, Aligned(d, u.chunkSize))
    ensures Layout(Aligned(d, u.chunkSize), u.total, 0) == Ok(layout)
    ensures AllStored(Aligned(d, u.chunkSize), layout) && Join(Assembled(Aligned(d, u.chunkSize), layout)) == d
  {
    var c := Aligned(d, u.chunkSize);
    AlignedSlices(u, d);
    forall m: nat | u.chunkSize * m < u.total
      ensures u.chunkSize * m in c
    {
      AlignedAt(d, u.chunkSize, m);
    }
    AlignedUploadFinalizes(c, u.total, u.chunkSize);
    Fidelity(c, d, u.chunkSize);
    layout := Layout(c, u.total, 0).value;
  }

  /** The layout of an aligned upload passes through every multiple of chunk_size. */
  lemma {:induction false} Visits(d: Bytes, chunkSize: nat, o: nat, j: nat, k: nat, layout: seq<nat>)
    requires 0 < chunkSize && j <= k
    ensures chunkSize * k < |d| && o == chunkSize * j && Layout(Aligned(d, chunkSize), |d|, o) == Ok(layout) ==>
              chunkSize * k in layout
    decreases k - j
  {
    TimesOrdered(chunkSize, j, k);
    if chunkSize * k < |d| && o == chunkSize * j && Layout(Aligned(d, chunkSize), |d|, o) == Ok(layout) {
      LayoutHead(Aligned(d, chunkSize), |d|, o, layout);
      if j < k {
        NextMultiple(chunkSize, j);
        TimesOrdered(chunkSize, j + 1, k);
        AlignedAt(d, chunkSize, j);
        Visits(d, chunkSize, o + chunkSize, j + 1, k, layout[1..]);
      }
    }
  }

  /** A longer chunk in the layout makes a longer file. */
  lemma {:induction false} Longer(c: Chunks, layout: seq<nat>, o: nat, data: Bytes)
    requires AllStored(c, layout) && o in c && |c[o]| < |data|
    ensures |Join(Assembled(c, layout))| + (if o in layout then 1 else 0) <= |Join(Assembled(c[o := data], layout))|
  {
    if layout == [] {
    } else {
      Longer(c, layout[1..], o, data);
      assert Assembled(c, layout)[1..] == Assembled(c, layout[1..]);
      assert Assembled(c[o := data], layout)[1..] == Assembled(c[o := data], layout[1..]);
    }
  }

  /** The aligned upload of D, a finalize that has laid it out, and a second put at an offset with two
      lengths that passed its existence check before the first was stored: the file is longer than D. */
  lemma Misassembles(u: Session, h: Hash, d: Bytes, k: nat, p: Pid) returns (t: State)
    requires 0 < u.chunkSize <= MAX_CHUNK && u.total == |d| && u.checksum.None? && 0 < u.expiresAt
    requires TwoLengths(u.total, u.chunkSize, u.chunkSize * k)
    ensures Reachable(u, h, d, t) && !PublishedAre(d, t) && !SizesAgree(t)
  {
    var o, c := u.chunkSize * k, Aligned(d, u.chunkSize);
    var rest := d[o..];
    var r := (x: State) => Reachable(u, h, d, x);
    ReachableKept(u, h, d);
    var layout := AlignedLayout(u, d);
    Visits(d, u.chunkSize, 0, 0, k, layout);
    AlignedAt(d, u.chunkSize, k);
    Longer(c, layout, o, rest);
    t := RaceAt(u, h, d, r, p, c, layout, o, rest);
  }

  lemma RaceAt(u: Session, h: Hash, d: Bytes, r: State -> bool, p: Pid, c: Chunks, layout: seq<nat>, o: nat,
      data: Bytes)
    returns (t: State)
    requires Kept(u, h, d, r) && r(START) && u.checksum.None? && 0 < u.expiresAt
    requires AcceptableSlices(u, d, c) && Layout(c, u.total, 0) == Ok(layout) && AllStored(c, layout)
    requires Acceptable(o, data, u.total, u.chunkSize) && SliceAt(d, o, data)
    ensures r(t) && p in t.rows && p in t.blobs && t.blobs[p] == Join(Assembled(c[o := data], layout))
    ensures t.rows[p].size == u.total
  {
    var s1 := START.(puts := multiset{(o, data)});
    Onward(u, h, d, r, START, ChunkCheck(o, data), s1);
    Filled(u, h, d, r, s1, c);
    var s2 := s1.(chunks := c);
    Wins(u, h, d, r, s2, p);
    var s3 := s2.(status := Finalizing);
    LaysOut(u, h, d, r, s3, p, 0, [], layout);
    assert [] + layout == layout;
    var call := Call(Streaming, u.total, layout, 0, []);
    var s4 := s3.(puts := multiset{}, chunks := c[o := data]);
    Onward(u, h, d, r, With(s3, p, call), ChunkPut(o, data), With(s4, p, call));
    Streams(u, h, d, r, s4, p, u.total, layout, |layout|);
    assert layout[..|layout|] == layout;
    t := Publishes(u, h, d, r, s4, p, Call(Streaming, u.total, layout, |layout|, Join(Assembled(s4.chunks, layout))));
  }

  /** Main result: without a declared checksum, every run whose puts all carry slices of D publishes
      nothing but D, if and only if no offset on the walk accepts two lengths. */
  lemma UncheckedFidelityIff(u: Session, h: Hash, d: Bytes)
    requires 0 < u.chunkSize <= MAX_CHUNK && u.total == |d| && u.checksum.None? && 0 < u.expiresAt
    ensures (forall steps :: SlicesSent(d, steps) ==> PublishedAre(d, Run(u, h, steps))) <==>
            !Ambiguous(u.total, u.chunkSize)
  {
    if Ambiguous(u.total, u.chunkSize) {
      var k: nat :| TwoLengths(u.total, u.chunkSize, u.chunkSize * k);
      var t := Misassembles(u, h, d, k, "");
      var steps :| SlicesSent(d, steps) && Run(u, h, steps) == t;
      assert !PublishedAre(d, Run(u, h, steps));
    } else {
      forall steps | SlicesSent(d, steps)
        ensures PublishedAre(d, Run(u, h, steps))
      {
        UnambiguousPublishesD(u, h, steps, d);
      }
    }
  }

  /** Main result: without a declared checksum, the size in a published row is that of its blob on every
      run, whatever bytes the chunks carry, if and only if no offset on the walk accepts two lengths. */
  lemma RowSizesAgreeIff(u: Session, h: Hash)
    requires 0 < u.chunkSize <= MAX_CHUNK && u.checksum.None? && 0 < u.expiresAt
    ensures (forall steps :: SizesAgree(Run(u, h, steps))) <==> !Ambiguous(u.total, u.chunkSize)
  {
    if Ambiguous(u.total, u.chunkSize) {
      var k: nat :| TwoLengths(u.total, u.chunkSize, u.chunkSize * k);
      var d: Bytes := seq(u.total, i => 0);
      var t := Misassembles(u, h, d, k, "");
      var steps :| SlicesSent(d, steps) && Run(u, h, steps) == t;
      assert !SizesAgree(Run(u, h, steps));
    } else {
      forall steps
        ensures SizesAgree(Run(u, h, steps))
      {
        UnambiguousSizes(u, h, steps);
      }
    }
  }

  // ---------- A failure that kills the session ----------

  /** A finalize with no rival, of a session whose first chunk is missing: it ends with the session dead,
      so no later finalize succeeds (`UploadProtocol.DeadForGood`). */
  lemma MissingChunkKills(u: Session, h: Hash, d: Bytes, p: Pid)
    requires 0 < u.total && 0 < u.expiresAt
    ensures exists steps :: SlicesSent(d, steps) && Dead(Run(u, h, steps))
  {
    var r := (x: State) => Reachable(u, h, d, x);
    ReachableKept(u, h, d);
    Wins(u, h, d, r, START, p);
    var s, c := START.(status := Finalizing), Call(Laying, 0, [], 0, []);
    Turn(u, h, d, r, s, p, c, LayNext, To(c, Ended));
    var t := With(s, p, To(c, Ended));
    assert Dead(t);
    var steps :| SlicesSent(d, steps) && Run(u, h, steps) == t;
    assert Dead(Run(u, h, steps));
  }
}
