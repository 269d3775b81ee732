/** `received_bytes` under racing chunk puts: each put stores its chunk, then counts along the walk one
    chunk at a time, then writes what it counted. */
module UploadMeter {
  import opened Prelude
  import opened UploadLayout
  import opened UploadProtocol
  import opened UploadRaces

  datatype Put =
    | Checked(o: nat, data: Bytes)  // found the offset free
    | Counting(offset: nat)         // chunk stored; walking
    | Counted(n: nat)               // about to write
    | Done

  datatype Meter = Meter(chunks: Chunks, value: nat, puts: map<nat, Put>)

  const EMPTY := Meter(map[], 0, map[])

  datatype Action = Check(p: nat, o: nat, data: Bytes) | Store(p: nat) | CountNext(p: nat) | Write(p: nat)

  /** One chunk further, or the count. */
  function Further(c: Chunks, total: nat, offset: nat): Put {
    if offset < total && offset in c && c[offset] != [] then Counting(offset + |c[offset]|)
    else Counted(if offset < total then offset else total)
  }

  function At(s: Meter, p: nat, put: Put): Meter {
    s.(puts := s.puts[p := put])
  }

  function Act(total: nat, chunkSize: nat, s: Meter, a: Action): Meter {
    match a
    case Check(p, o, data) =>
      if p !in s.puts && o !in s.chunks && Acceptable(o, data, total, chunkSize) then At(s, p, Checked(o, data)) else s
    case Store(p) =>
      if p in s.puts && s.puts[p].Checked?
      then At(s, p, Counting(0)).(chunks := s.chunks[s.puts[p].o := s.puts[p].data]) else s
    case CountNext(p) =>
      if p in s.puts && s.puts[p].Counting? then At(s, p, Further(s.chunks, total, s.puts[p].offset)) else s
    case Write(p) =>
      if p in s.puts && s.puts[p].Counted? then At(s, p, Done).(value := s.puts[p].n) else s
  }

  function Played(total: nat, chunkSize: nat, actions: seq<Action>): Meter {
    if actions == [] then EMPTY else Act(total, chunkSize, Played(total, chunkSize, Front(actions)), Last(actions))
  }

  ghost predicate AtRest(s: Meter) {
    forall p :: p in s.puts ==> s.puts[p].Done?
  }

  // ---------- A count is the walk at the moment it stops ----------

  /** Every chunk on the walk by `len` has the length `len` gives. */
  ghost predicate Fits(c: Chunks, len: nat -> nat) {
    forall o :: o in c && len(o) != 0 ==> |c[o]| == len(o)
  }

  ghost predicate OnWalk(total: nat, len: nat -> nat, o: nat) {
    o < total ==> len(o) != 0
  }

  /** The walk over more chunks goes on from where the walk over fewer ended. */
  lemma {:induction false} WalkResumes(c: Chunks, c': Chunks, total: nat, len: nat -> nat, o: nat)
    requires Covers(total, len) && Fits(c, len) && Fits(c', len) && c.Keys <= c'.Keys && OnWalk(total, len, o)
    ensures WalkEnd(c', total, o) == WalkEnd(c', total, WalkEnd(c, total, o))
            && OnWalk(total, len, WalkEnd(c, total, o))
    decreases if o < total then total - o else 0
  {
    if o < total && o in c && c[o] != [] {
      assert o in c' && |c'[o]| == |c[o]| == len(o);
      WalkResumes(c, c', total, len, o + |c[o]|);
    }
  }

  /** The put that counts has so far followed the walk from 0. */
  ghost predicate Follows(c: Chunks, total: nat, len: nat -> nat, put: Put) {
    match put
    case Checked(o, data) => data != [] && (len(o) != 0 ==> |data| == len(o))
    case Counting(offset) => OnWalk(total, len, offset) && WalkEnd(c, total, 0) == WalkEnd(c, total, offset)
    case Counted(n) => n <= Received(c, total)
    case Done => true
  }

  ghost predicate NotAhead(s: Meter, total: nat, len: nat -> nat) {
    && Fits(s.chunks, len) && s.value <= Received(s.chunks, total)
    && forall p :: p in s.puts ==> Follows(s.chunks, total, len, s.puts[p])
  }

  lemma StoredFollows(c: Chunks, c': Chunks, total: nat, len: nat -> nat, put: Put)
    requires Covers(total, len) && Fits(c, len) && Fits(c', len) && c.Keys <= c'.Keys && Follows(c, total, len, put)
    ensures Follows(c', total, len, put) && Received(c, total) <= Received(c', total)
  {
    WalkResumes(c, c', total, len, 0);
    WalkGrows(c', total, WalkEnd(c, total, 0));
    if put.Counting? {
      WalkResumes(c, c', total, len, put.offset);
    }
  }

  lemma FurtherFollows(c: Chunks, total: nat, len: nat -> nat, offset: nat)
    requires Covers(total, len) && Fits(c, len) && Follows(c, total, len, Counting(offset))
    ensures Follows(c, total, len, Further(c, total, offset))
    ensures Further(c, total, offset).Counted? ==> Further(c, total, offset).n == Received(c, total)
  {
  }

  lemma ActNotAhead(total: nat, chunkSize: nat, len: nat -> nat, s: Meter, a: Action)
    requires Covers(total, len) && NotAhead(s, total, len)
    requires a.Check? && Acceptable(a.o, a.data, total, chunkSize) && len(a.o) != 0 ==> |a.data| == len(a.o)
    ensures NotAhead(Act(total, chunkSize, s, a), total, len)
  {
    var s' := Act(total, chunkSize, s, a);
    if a.Store? && s' != s {
      forall p | p in s.puts
        ensures Follows(s'.chunks, total, len, s.puts[p]) && Received(s.chunks, total) <= Received(s'.chunks, total)
      {
        StoredFollows(s.chunks, s'.chunks, total, len, s.puts[p]);
      }
    } else if a.CountNext? && s' != s {
      FurtherFollows(s.chunks, total, len, s.puts[a.p].offset);
    }
  }

  lemma {:induction false} NeverAhead(total: nat, chunkSize: nat, actions: seq<Action>)
    requires 0 < chunkSize && !Ambiguous(total, chunkSize)
    ensures NotAhead(Played(total, chunkSize, actions), total, (o: nat) => OnlyLength(total, chunkSize, o))
  {
    OnlyLengthCovers(total, chunkSize);
    if actions == [] {
    } else {
      var len := (o: nat) => OnlyLength(total, chunkSize, o);
      NeverAhead(total, chunkSize, Front(actions));
      var a := Last(actions);
      if a.Check? && Acceptable(a.o, a.data, total, chunkSize) {
        HasOnlyLength(total, chunkSize, a.o, a.data);
      }
      ActNotAhead(total, chunkSize, len, Played(total, chunkSize, Front(actions)), a);
    }
  }

  // ---------- Reaching a state ----------

  /** `r` holds at the start and is kept by every action. */
  ghost predicate KeptByAll(total: nat, chunkSize: nat, r: Meter -> bool) {
    r(EMPTY) && forall s, a :: r(s) ==> r(Act(total, chunkSize, s, a))
  }

  ghost predicate Reached(total: nat, chunkSize: nat, t: Meter) {
    exists actions :: Played(total, chunkSize, actions) == t
  }

  lemma ReachedClosed(total: nat, chunkSize: nat)
    ensures KeptByAll(total, chunkSize, t => Reached(total, chunkSize, t))
  {
    assert Played(total, chunkSize, []) == EMPTY;
    forall s, a | Reached(total, chunkSize, s)
      ensures Reached(total, chunkSize, Act(total, chunkSize, s, a))
    {
      var actions :| Played(total, chunkSize, actions) == s;
      assert Front(actions + [a]) == actions;
      assert Played(total, chunkSize, actions + [a]) == Act(total, chunkSize, s, a);
    }
  }

  lemma Then(total: nat, chunkSize: nat, r: Meter -> bool, s: Meter, a: Action, t: Meter)
    requires KeptByAll(total, chunkSize, r) && r(s) && Act(total, chunkSize, s, a) == t
    ensures r(t)
  {
  }

  lemma ChecksAndStores(total: nat, chunkSize: nat, r: Meter -> bool, s: Meter, p: nat, o: nat, data: Bytes)
    requires KeptByAll(total, chunkSize, r) && r(s) && p !in s.puts && o !in s.chunks
    requires Acceptable(o, data, total, chunkSize)
    ensures r(At(s.(chunks := s.chunks[o := data]), p, Counting(0)))
  {
    Then(total, chunkSize, r, s, Check(p, o, data), At(s, p, Checked(o, data)));
    assert At(s, p, Checked(o, data)).puts[p := Counting(0)] == s.puts[p := Counting(0)];
    Then(total, chunkSize, r, At(s, p, Checked(o, data)), Store(p),
        At(s.(chunks := s.chunks[o := data]), p, Counting(0)));
  }

  /** Undisturbed, a count ends at the walk's end. */
  lemma {:induction false} CountsOut(total: nat, chunkSize: nat, r: Meter -> bool, s: Meter, p: nat, offset: nat)
    requires KeptByAll(total, chunkSize, r) && r(At(s, p, Counting(offset)))
    ensures var e := WalkEnd(s.chunks, total, offset); r(At(s, p, Counted(if e < total then e else total)))
    decreases if offset < total then total - offset else 0
  {
    var next := Further(s.chunks, total, offset);
    assert At(s, p, Counting(offset)).puts[p := next] == s.puts[p := next];
    Then(total, chunkSize, r, At(s, p, Counting(offset)), CountNext(p), At(s, p, next));
    if next.Counting? {
      CountsOut(total, chunkSize, r, s, p, next.offset);
    }
  }

  lemma Writes(total: nat, chunkSize: nat, r: Meter -> bool, s: Meter, p: nat, n: nat)
    requires KeptByAll(total, chunkSize, r) && r(At(s, p, Counted(n)))
    ensures r(At(s.(value := n), p, Done))
  {
    assert At(s, p, Counted(n)).puts[p := Done] == s.puts[p := Done];
    Then(total, chunkSize, r, At(s, p, Counted(n)), Write(p), At(s.(value := n), p, Done));
  }

  // ---------- One put with nothing in between ----------

  /** Whatever the meter read before, it is exact after. */
  lemma PutAloneMeters(total: nat, chunkSize: nat, r: Meter -> bool, s: Meter, p: nat, o: nat, data: Bytes)
    requires KeptByAll(total, chunkSize, r) && r(s) && p !in s.puts && o !in s.chunks
    requires Acceptable(o, data, total, chunkSize)
    ensures var c := s.chunks[o := data]; r(At(s.(chunks := c, value := Received(c, total)), p, Done))
  {
    var t := s.(chunks := s.chunks[o := data]);
    ChecksAndStores(total, chunkSize, r, s, p, o, data);
    CountsOut(total, chunkSize, r, t, p, 0);
    Writes(total, chunkSize, r, t, p, Received(t.chunks, total));
  }

  // ---------- When the meter is exact at rest ----------

  function Zeros(n: nat): Bytes {
    seq(n, i => 0)
  }

  /** The last byte arrives first and is counted as nothing, the first chunk is counted and written, and
      only then the older count is written. */
  lemma StaleAtRest(total: nat, chunkSize: nat, r: Meter -> bool) returns (t: Meter)
    requires KeptByAll(total, chunkSize, r) && 2 <= total && 0 < chunkSize <= MAX_CHUNK
    ensures r(t) && AtRest(t) && t.value == 0 < Received(t.chunks, total)
  {
    var a, b := Zeros(if total <= chunkSize then total else chunkSize), Zeros(1);
    var s1 := EMPTY.(chunks := map[total - 1 := b]);
    assert EMPTY.chunks[total - 1 := b] == s1.chunks;
    ChecksAndStores(total, chunkSize, r, EMPTY, 1, total - 1, b);
    CountsOut(total, chunkSize, r, s1, 1, 0);
    var s2 := At(s1, 1, Counted(0));
    PutAloneMeters(total, chunkSize, r, s2, 0, 0, a);
    var c := s2.chunks[0 := a];
    var s3 := At(s2.(chunks := c, value := Received(c, total)), 0, Done);
    assert At(s3, 1, Counted(0)).puts == s3.puts;
    Writes(total, chunkSize, r, s3, 1, 0);
    t := At(s3.(value := 0), 1, Done);
    WalkGrows(c, total, |a|);
  }

  /** With one byte to come, every count after the one possible chunk is 1. */
  ghost predicate OneByte(s: Meter, total: nat) {
    && (forall o :: o in s.chunks ==> o == 0 && |s.chunks[o]| == 1 == total)
    && (forall p :: p in s.puts ==>
          match s.puts[p]
          case Checked(o, data) => o == 0 && |data| == 1 == total
          case Counting(offset) => 0 in s.chunks && offset <= 1
          case Counted(n) => 0 in s.chunks && n == 1
          case Done => 0 in s.chunks && s.value == 1)
    && (0 in s.chunks ==> exists p :: p in s.puts && !s.puts[p].Checked?)
    && (s.value == 0 || s.value == 1)
    && (0 !in s.chunks ==> s.value == 0)
  }

  lemma ActOneByte(total: nat, chunkSize: nat, s: Meter, a: Action)
    requires OneByte(s, total) && total <= 1
    ensures OneByte(Act(total, chunkSize, s, a), total)
  {
    var s' := Act(total, chunkSize, s, a);
    if !a.Check? && s' != s {
      assert !s'.puts[a.p].Checked?;
    }
  }

  lemma {:induction false} RunOneByte(total: nat, chunkSize: nat, actions: seq<Action>)
    requires total <= 1
    ensures OneByte(Played(total, chunkSize, actions), total)
  {
    if actions == [] {
    } else {
      RunOneByte(total, chunkSize, Front(actions));
      ActOneByte(total, chunkSize, Played(total, chunkSize, Front(actions)), Last(actions));
    }
  }

  /** Main result: whenever no put is in flight the meter equals the walk, on every run of racing puts,
      if and only if the upload has at most one byte. */
  lemma ExactAtRestIff(total: nat, chunkSize: nat)
    requires 0 < chunkSize <= MAX_CHUNK
    ensures (forall actions :: AtRest(Played(total, chunkSize, actions)) ==>
            ExactAfter(total, chunkSize, actions)) <==> total <= 1
  {
    if 2 <= total {
      ReachedClosed(total, chunkSize);
      var t := StaleAtRest(total, chunkSize, t => Reached(total, chunkSize, t));
      var actions :| Played(total, chunkSize, actions) == t;
      assert !ExactAfter(total, chunkSize, actions);
    } else {
      forall actions | AtRest(Played(total, chunkSize, actions))
        ensures ExactAfter(total, chunkSize, actions)
      {
        RunOneByte(total, chunkSize, actions);
        OneByteExact(total, Played(total, chunkSize, actions));
      }
    }
  }

  ghost predicate ExactAfter(total: nat, chunkSize: nat, actions: seq<Action>) {
    var s := Played(total, chunkSize, actions);
    s.value == Received(s.chunks, total)
  }

  lemma OneByteExact(total: nat, s: Meter)
    requires OneByte(s, total) && AtRest(s)
    ensures s.value == Received(s.chunks, total)
  {
  }

  // ---------- When the meter can run ahead ----------

  /** Chunks of chunk_size at the first `k` multiples of it. */
  function Grid(chunkSize: nat, k: nat): Chunks {
    if k == 0 then map[] else Grid(chunkSize, k - 1)[chunkSize * (k - 1) := Zeros(chunkSize)]
  }

  lemma {:induction false} GridKeys(chunkSize: nat, k: nat)
    requires 0 < chunkSize
    ensures forall o :: o in Grid(chunkSize, k) ==> o < chunkSize * k && |Grid(chunkSize, k)[o]| == chunkSize
  {
    if k == 0 {
    } else {
      GridKeys(chunkSize, k - 1);
      NextMultiple(chunkSize, k - 1);
    }
  }

  lemma {:induction false} GridHas(chunkSize: nat, k: nat, j: nat)
    requires 0 < chunkSize && j < k
    ensures chunkSize * j in Grid(chunkSize, k)
  {
    if j < k - 1 {
      GridHas(chunkSize, k - 1, j);
    }
  }

  /** Over the grid and one more chunk at its end, the walk from any multiple reaches that end. */
  lemma {:induction false} GridWalk(total: nat, chunkSize: nat, k: nat, j: nat, o: nat, data: Bytes)
    requires 0 < chunkSize && j <= k && chunkSize * k < total && o == chunkSize * j
    ensures var c := Grid(chunkSize, k)[chunkSize * k := data];
            WalkEnd(c, total, o) == WalkEnd(c, total, chunkSize * k)
    decreases k - j
  {
    if j == k {
    } else {
      GridHas(chunkSize, k, j);
      GridKeys(chunkSize, k);
      NextMultiple(chunkSize, j);
      TimesOrdered(chunkSize, j + 1, k);
      GridWalk(total, chunkSize, k, j + 1, o + chunkSize, data);
    }
  }

  lemma {:induction false} Filled(total: nat, chunkSize: nat, r: Meter -> bool, k: nat) returns (s: Meter)
    requires KeptByAll(total, chunkSize, r) && 0 < chunkSize <= MAX_CHUNK && chunkSize * k < total
    ensures r(s) && s.chunks == Grid(chunkSize, k) && AtRest(s) && forall p :: p in s.puts ==> p < k
  {
    s := EMPTY;
    if k == 0 {
    } else {
      NextMultiple(chunkSize, k - 1);
      s := Filled(total, chunkSize, r, k - 1);
      GridKeys(chunkSize, k - 1);
      PutAloneMeters(total, chunkSize, r, s, k - 1, chunkSize * (k - 1), Zeros(chunkSize));
      s := At(s.(chunks := Grid(chunkSize, k), value := Received(Grid(chunkSize, k), total)), k - 1, Done);
    }
  }

  /** Stored after its check, and counted with nothing in between. */
  lemma StoresAndCounts(total: nat, chunkSize: nat, r: Meter -> bool, s: Meter, p: nat, o: nat, data: Bytes)
    requires KeptByAll(total, chunkSize, r) && r(At(s, p, Checked(o, data)))
    ensures var c := s.chunks[o := data]; r(At(s.(chunks := c), p, Counted(Received(c, total))))
  {
    var t := s.(chunks := s.chunks[o := data]);
    assert At(s, p, Checked(o, data)).puts[p := Counting(0)] == s.puts[p := Counting(0)];
    Then(total, chunkSize, r, At(s, p, Checked(o, data)), Store(p), At(t, p, Counting(0)));
    CountsOut(total, chunkSize, r, t, p, 0);
  }

  lemma Reorder(s: Meter, p: nat, x: Put, q: nat, y: Put)
    requires p != q
    ensures At(At(s, p, x), q, y) == At(At(s, q, y), p, x)
  {
    assert At(At(s, p, x), q, y).puts == At(At(s, q, y), p, x).puts;
  }

  /** Two puts of one offset race: `p` stores and counts, then `q` overwrites, counts and writes, and only
      then does `p` write. */
  lemma OverwrittenThenWrites(total: nat, chunkSize: nat, r: Meter -> bool, s: Meter, p: nat, q: nat, o: nat,
      a: Bytes, b: Bytes)
    requires KeptByAll(total, chunkSize, r) && r(s) && p != q && p !in s.puts && q !in s.puts && o !in s.chunks
    requires Acceptable(o, a, total, chunkSize) && Acceptable(o, b, total, chunkSize)
    ensures r(At(At(s.(chunks := s.chunks[o := b], value := Received(s.chunks[o := a], total)), q, Done), p, Done))
  {
    var s1 := At(s, q, Checked(o, b));
    Then(total, chunkSize, r, s, Check(q, o, b), s1);
    Then(total, chunkSize, r, s1, Check(p, o, a), At(s1, p, Checked(o, a)));
    StoresAndCounts(total, chunkSize, r, s1, p, o, a);
    var n, m := Received(s.chunks[o := a], total), Received(s.chunks[o := b], total);
    var s2 := s.(chunks := s.chunks[o := a]);
    Reorder(s2, q, Checked(o, b), p, Counted(n));
    StoresAndCounts(total, chunkSize, r, At(s2, p, Counted(n)), q, o, b);
    assert s.chunks[o := a][o := b] == s.chunks[o := b];
    var s3 := s.(chunks := s.chunks[o := b]);
    Writes(total, chunkSize, r, At(s3, p, Counted(n)), q, m);
    Reorder(s3.(value := m), p, Counted(n), q, Done);
    Writes(total, chunkSize, r, At(s3.(value := m), q, Done), p, n);
  }

  /** The longer chunk is counted before the shorter overwrites it, and written last: at rest the meter
      reads total_size. */
  lemma RunsAhead(total: nat, chunkSize: nat, r: Meter -> bool, k: nat) returns (t: Meter)
    requires KeptByAll(total, chunkSize, r) && 0 < chunkSize <= MAX_CHUNK && TwoLengths(total, chunkSize, chunkSize * k)
    ensures r(t) && AtRest(t) && t.value == total && Received(t.chunks, total) < total
  {
    var o := chunkSize * k;
    var long, short := Zeros(total - o), Zeros(chunkSize);
    var s := Filled(total, chunkSize, r, k);
    GridKeys(chunkSize, k);
    OverwrittenThenWrites(total, chunkSize, r, s, k + 1, k, o, long, short);
    var c, c' := Grid(chunkSize, k)[o := long], Grid(chunkSize, k)[o := short];
    GridWalk(total, chunkSize, k, 0, 0, long);
    assert WalkEnd(c, total, o) == total;
    GridWalk(total, chunkSize, k, 0, 0, short);
    assert WalkEnd(c', total, o) == o + chunkSize;
    t := At(At(s.(chunks := c', value := total), k, Done), k + 1, Done);
  }

  /** Main result: on every run of racing puts the meter never reads more than finalize would find, if
      and only if no offset on the walk accepts two lengths; and no more is true of the runs at rest. */
  lemma NeverAheadIff(total: nat, chunkSize: nat)
    requires 0 < chunkSize <= MAX_CHUNK
    ensures (forall actions :: BehindAfter(total, chunkSize, actions)) <==> !Ambiguous(total, chunkSize)
    ensures (forall actions :: AtRest(Played(total, chunkSize, actions)) ==> BehindAfter(total, chunkSize, actions))
            <==> !Ambiguous(total, chunkSize)
  {
    if Ambiguous(total, chunkSize) {
      var k: nat :| TwoLengths(total, chunkSize, chunkSize * k);
      ReachedClosed(total, chunkSize);
      var t := RunsAhead(total, chunkSize, t => Reached(total, chunkSize, t), k);
      var actions :| Played(total, chunkSize, actions) == t;
      assert AtRest(Played(total, chunkSize, actions)) && !BehindAfter(total, chunkSize, actions);
    } else {
      forall actions
        ensures BehindAfter(total, chunkSize, actions)
      {
        NeverAhead(total, chunkSize, actions);
      }
    }
  }

  ghost predicate BehindAfter(total: nat, chunkSize: nat, actions: seq<Action>) {
    var s := Played(total, chunkSize, actions);
    s.value <= Received(s.chunks, total)
  }
}
