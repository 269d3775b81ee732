/** `_InMemoryStore`: rows by id, with a natural-key index and an idempotency-key index. */
module MemoryStore {
  import opened Prelude
  import opened Domain

  type Natural = (string, string)

  datatype Store<+P> = Store(items: map<string, Row<P>>, natural: map<Natural, string>, idem: map<string, string>)

  /** Python truthiness of an optional key. */
  predicate Truthy(k: Option<string>) {
    k.Some? && k.value != ""
  }

  // ---------- What each call does to the three maps ----------

  function WithIdem<P>(s: Store<P>, row: Row<P>): map<string, string> {
    if Truthy(row.idem) then s.idem[row.idem.value := row.id] else s.idem
  }

  function Created<P>(s: Store<P>, row: Row<P>, slot: Option<Natural>): Result<Store<P>> {
    if row.id in s.items || (slot.Some? && slot.value in s.natural) || (Truthy(row.idem) && row.idem.value in s.idem)
    then Err(Conflict)
    else Ok(Store(s.items[row.id := row],
                  if slot.Some? then s.natural[slot.value := row.id] else s.natural,
                  WithIdem(s, row)))
  }

  /** The row's old slots go, and the new one is taken even from another row. */
  function Rekeyed(natural: map<Natural, string>, id: string, slot: Natural): map<Natural, string> {
    (map k | k in natural && natural[k] != id :: natural[k])[slot := id]
  }

  predicate IdemTaken<P>(s: Store<P>, row: Row<P>) {
    Truthy(row.idem) && row.idem.value in s.idem && s.idem[row.idem.value] != row.id
  }

  /** Row and natural slot are written before the idempotency key is checked. */
  function Updated<P>(s: Store<P>, row: Row<P>, slot: Option<Natural>): (Store<P>, Result<Row<P>>) {
    if row.id !in s.items then (s, Err(NotFound))
    else
      var items := s.items[row.id := row];
      var natural := if slot.Some? then Rekeyed(s.natural, row.id, slot.value) else s.natural;
      if IdemTaken(s, row) then (Store(items, natural, s.idem), Err(Conflict))
      else (Store(items, natural, WithIdem(s, row)), Ok(row))
  }

  function Deleted<P>(s: Store<P>, id: string): Result<Store<P>> {
    if id !in s.items then Err(NotFound)
    else Ok(Store(s.items - {id},
                  map k | k in s.natural && s.natural[k] != id :: s.natural[k],
                  map k | k in s.idem && s.idem[k] != id :: s.idem[k]))
  }

  class InMemoryStore<P> {
    var items: map<string, Row<P>>
    var natural: map<Natural, string>
    var idem: map<string, string>

    function State(): Store<P> reads this { Store(items, natural, idem) }

    constructor ()
      ensures State() == Store(map[], map[], map[])
    {
      items, natural, idem := map[], map[], map[];
    }

    method Create(row: Row<P>, slot: Option<Natural>) returns (r: Result<Row<P>>)
      modifies this
      ensures match Created(old(State()), row, slot)
              case Ok(s) => State() == s && r == Ok(row)
              case Err(e) => State() == old(State()) && r == Err(e)
    {
      if row.id in items {
        return Err(Conflict);
      }
      if slot.Some? && slot.value in natural {
        return Err(Conflict);
      }
      if Truthy(row.idem) && row.idem.value in idem {
        return Err(Conflict);
      }
      items := items[row.id := row];
      if slot.Some? {
        natural := natural[slot.value := row.id];
      }
      if Truthy(row.idem) {
        idem := idem[row.idem.value := row.id];
      }
      r := Ok(row);
    }

    method Update(row: Row<P>, slot: Option<Natural>) returns (r: Result<Row<P>>)
      modifies this
      ensures (State(), r) == Updated(old(State()), row, slot)
    {
      if row.id !in items {
        return Err(NotFound);
      }
      items := items[row.id := row];
      if slot.Some? {
        ReleaseSlots(row.id, slot.value);
        natural := natural[slot.value := row.id];
        assert natural == Rekeyed(old(natural), row.id, slot.value);
      }
      if Truthy(row.idem) {
        if row.idem.value in idem && idem[row.idem.value] != row.id {
          return Err(Conflict);
        }
        idem := idem[row.idem.value := row.id];
      }
      r := Ok(row);
    }

    /** The loop over a snapshot of the slots. */
    method ReleaseSlots(id: string, keep: Natural)
      modifies this`natural
      ensures natural == map k | k in old(natural) && (old(natural)[k] != id || k == keep) :: old(natural)[k]
    {
      var pending := natural.Keys;
      while pending != {}
        invariant pending <= old(natural).Keys
        invariant natural == map k | k in old(natural)
                 && (old(natural)[k] != id || k == keep || k in pending) :: old(natural)[k]
        decreases |pending|
      {
        var k :| k in pending;
        pending := pending - {k};
        if natural[k] == id && k != keep {
          natural := natural - {k};
        }
      }
    }

    method Delete(id: string) returns (r: Result<bool>)
      modifies this
      ensures match Deleted(old(State()), id)
              case Ok(s) => State() == s && r == Ok(true)
              case Err(e) => State() == old(State()) && r == Err(e)
    {
      if id !in items {
        return Err(NotFound);
      }
      natural := map k | k in natural && natural[k] != id :: natural[k];
      idem := map k | k in idem && idem[k] != id :: idem[k];
      items := items - {id};
      r := Ok(true);
    }

    method DropNatural(slot: Natural)
      modifies this`natural
      ensures natural == old(natural) - {slot}
    {
      natural := natural - {slot};
    }
  }

  // ---------- The idempotency index agrees with a scan ----------

  ghost predicate IdsAgree<P>(s: Store<P>) {
    forall id :: id in s.items ==> s.items[id].id == id
  }

  ghost predicate Holds<P>(s: Store<P>, id: string, k: string) {
    id in s.items && k != "" && s.items[id].idem == Some(k)
  }

  /** The index maps a key to a row exactly when that stored row, live or not, holds the key. */
  ghost predicate IdemAgrees<P>(s: Store<P>) {
    forall k, id :: (k in s.idem && s.idem[k] == id) <==> Holds(s, id, k)
  }

  lemma AtMostOneHolder<P>(s: Store<P>, k: string, a: string, b: string)
    requires IdemAgrees(s) && Holds(s, a, k) && Holds(s, b, k)
    ensures a == b
  {
  }

  lemma CreateKeepsIdem<P>(s: Store<P>, row: Row<P>, slot: Option<Natural>)
    requires IdsAgree(s) && IdemAgrees(s) && Created(s, row, slot).Ok?
    ensures IdsAgree(Created(s, row, slot).value) && IdemAgrees(Created(s, row, slot).value)
  {
    var s' := Created(s, row, slot).value;
    forall k, id
      ensures (k in s'.idem && s'.idem[k] == id) <==> Holds(s', id, k)
    {
      assert (k in s.idem && s.idem[k] == id) <==> Holds(s, id, k);
      assert (k in s.idem && s.idem[k] == row.id) <==> Holds(s, row.id, k);
    }
  }

  lemma DeleteKeepsIdem<P>(s: Store<P>, id: string)
    requires IdsAgree(s) && IdemAgrees(s) && Deleted(s, id).Ok?
    ensures IdsAgree(Deleted(s, id).value) && IdemAgrees(Deleted(s, id).value)
    ensures forall k :: Holds(s, id, k) ==> k !in Deleted(s, id).value.idem
  {
    var s' := Deleted(s, id).value;
    forall k, x
      ensures (k in s'.idem && s'.idem[k] == x) <==> Holds(s', x, k)
    {
      assert (k in s.idem && s.idem[k] == x) <==> Holds(s, x, k);
    }
  }

  /** An update succeeds exactly when its key is not another row's; it leaves the index in agreement
      exactly when, besides, the row does not give up a key it held: the old entry stays behind. */
  lemma UpdateKeepsIdemIff<P>(s: Store<P>, row: Row<P>, slot: Option<Natural>)
    requires IdsAgree(s) && IdemAgrees(s) && row.id in s.items
    ensures IdsAgree(Updated(s, row, slot).0)
    ensures IdemAgrees(Updated(s, row, slot).0) <==> !IdemTaken(s, row) && !GivesUpKey(s, row)
    ensures Updated(s, row, slot).1.Ok? <==> !IdemTaken(s, row)
  {
    var s' := Updated(s, row, slot).0;
    if IdemTaken(s, row) {
      var k := row.idem.value;
      assert Holds(s', row.id, k) && s'.idem[k] != row.id;
    } else if GivesUpKey(s, row) {
      var k := s.items[row.id].idem.value;
      assert Holds(s, row.id, k) && !Holds(s', row.id, k) && s'.idem[k] == row.id;
    } else {
      forall k, id
        ensures (k in s'.idem && s'.idem[k] == id) <==> Holds(s', id, k)
      {
        assert (k in s.idem && s.idem[k] == id) <==> Holds(s, id, k);
        assert (k in s.idem && s.idem[k] == row.id) <==> Holds(s, row.id, k);
      }
    }
  }

  predicate GivesUpKey<P>(s: Store<P>, row: Row<P>)
    requires row.id in s.items
  {
    Truthy(s.items[row.id].idem) && row.idem != s.items[row.id].idem
  }
}
