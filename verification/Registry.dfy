/**
 The changelog reader's table registry (reloadState, addNewTable and removeDeletedTables in
 changelog/mysql.go): a mark-and-sweep over per-table lists, reconciled with the rows of the state.
 */
module Registry {
  /** A table of a database, and one output and version of it. */
  datatype Table = Table(db: string, name: string)

  datatype Slot = Slot(table: Table, output: string, version: int)

  /**
   A row of the state for this cluster.  `hasKey` says whether the table has a primary key, `addable`
   whether its encoder, topic name and producer can be created. (Without an encoder there is no schema to look for a
   key in: such a row counts as one with a key that is not addable.)
   */
  datatype Row = Row(id: int, slot: Slot, hasKey: bool, addable: bool)

  /** What is kept for a slot: the id of its row and the producer it writes to. */
  datatype Held = Held(id: int, producer: nat)

  // ---------------------------------------------------------------------------------------------
  // Specification: the registry as a map from slots
  // ---------------------------------------------------------------------------------------------

  /**
   `live` are the slots marked in this reload, `closed` the producers closed so far, `created` how many
   were ever created.
   */
  datatype State = State(held: map<Slot, Held>, live: set<Slot>, closed: multiset<nat>, created: nat)

  /** A row that was removed and registered again under another id only drops the old entry. */
  function MarkRow(s: State, r: Row): State {
    if r.slot in s.held then
      if s.held[r.slot].id != r.id then
        s.(held := s.held - {r.slot}, live := s.live - {r.slot}, closed := s.closed + multiset{s.held[r.slot].producer})
      else
        s.(live := s.live + {r.slot})
    else if r.hasKey && r.addable then
      s.(held := s.held[r.slot := Held(r.id, s.created)], live := s.live + {r.slot}, created := s.created + 1)
    else s
  }

  predicate Fails(s: State, r: Row) {
    r.slot !in s.held && r.hasKey && !r.addable
  }

  /** The marking loop: the state it leaves, and whether it went through all rows. */
  function Mark(s: State, rows: seq<Row>): (State, bool)
    decreases |rows|
  {
    if rows == [] then (s, true)
    else if Fails(s, rows[0]) then (s, false)
    else Mark(MarkRow(s, rows[0]), rows[1..])
  }

  function ProducersOf(held: map<Slot, Held>, slots: set<Slot>): set<nat> {
    set slot | slot in slots && slot in held :: held[slot].producer
  }

  /** The sweep drops everything not marked, closing each producer once, and unmarks the rest. */
  ghost predicate Swept(s: State, t: State) {
    && t.held == (map slot | slot in s.held && slot in s.live :: s.held[slot])
    && t.live == {} && t.created == s.created
    && forall p: nat :: t.closed[p] == s.closed[p] + (if p in ProducersOf(s.held, s.held.Keys - s.live) then 1 else 0)
  }

  // ---------------------------------------------------------------------------------------------
  // What holds between reloads
  // ---------------------------------------------------------------------------------------------

  /** No producer is shared, and every producer ever created is either held or was closed exactly once. */
  ghost predicate Accounted(s: State) {
    && (forall a, b :: a in s.held && b in s.held && a != b ==> s.held[a].producer != s.held[b].producer)
    && (forall p: nat :: s.closed[p] + (if p in ProducersOf(s.held, s.held.Keys) then 1 else 0) == if p < s.created then 1 else 0)
    && s.live <= s.held.Keys
  }

  /** The state table has unique ids and unique (db, table, output, version) within a cluster and input. */
  ghost predicate ProperRows(rows: seq<Row>) {
    forall i, j :: 0 <= i < j < |rows| ==> rows[i].slot != rows[j].slot && rows[i].id != rows[j].id
  }

  lemma HeldProducer(s: State, p: nat)
    ensures p in ProducersOf(s.held, s.held.Keys) <==> exists slot :: slot in s.held && s.held[slot].producer == p
  {
  }

  lemma DropKeepsAccounts(s: State, slot: Slot)
    requires Accounted(s) && slot in s.held
    ensures Accounted(s.(held := s.held - {slot}, live := s.live - {slot}, closed := s.closed + multiset{s.held[slot].producer}))
  {
    var dropped := s.held[slot].producer;
    var t := s.(held := s.held - {slot}, live := s.live - {slot}, closed := s.closed + multiset{dropped});
    forall p: nat
      ensures p in ProducersOf(t.held, t.held.Keys) <==> p in ProducersOf(s.held, s.held.Keys) && p != dropped
    {
      HeldProducer(s, p);
      HeldProducer(t, p);
      assert forall x :: x in s.held && x != slot ==> x in t.held && t.held[x] == s.held[x];
    }
    HeldProducer(s, dropped);
  }

  lemma AddKeepsAccounts(s: State, slot: Slot, id: int)
    requires Accounted(s) && slot !in s.held
    ensures Accounted(s.(held := s.held[slot := Held(id, s.created)], live := s.live + {slot}, created := s.created + 1))
  {
    var t := s.(held := s.held[slot := Held(id, s.created)], live := s.live + {slot}, created := s.created + 1);
    forall p: nat
      ensures p in ProducersOf(t.held, t.held.Keys) <==> p in ProducersOf(s.held, s.held.Keys) || p == s.created
    {
      HeldProducer(s, p);
      HeldProducer(t, p);
      assert forall x :: x in s.held ==> x in t.held && t.held[x] == s.held[x];
      assert t.held[slot].producer == s.created;
    }
    forall x | x in s.held
      ensures s.held[x].producer < s.created
    {
      HeldProducer(s, s.held[x].producer);
    }
  }

  lemma MarkRowKeepsAccounts(s: State, r: Row)
    requires Accounted(s)
    ensures Accounted(MarkRow(s, r))
  {
    if r.slot in s.held && s.held[r.slot].id != r.id {
      DropKeepsAccounts(s, r.slot);
    } else if r.slot !in s.held && r.hasKey && r.addable {
      AddKeepsAccounts(s, r.slot, r.id);
    }
  }

  lemma {:induction false} MarkKeepsAccounts(s: State, rows: seq<Row>)
    requires Accounted(s)
    ensures Accounted(Mark(s, rows).0)
    decreases |rows|
  {
    if rows != [] && !Fails(s, rows[0]) {
      MarkRowKeepsAccounts(s, rows[0]);
      MarkKeepsAccounts(MarkRow(s, rows[0]), rows[1..]);
    }
  }

  lemma SweepKeepsAccounts(s: State, t: State)
    requires Accounted(s) && Swept(s, t)
    ensures Accounted(t)
  {
    forall p
      ensures p in ProducersOf(s.held, s.held.Keys) <==>
        p in ProducersOf(t.held, t.held.Keys) || p in ProducersOf(s.held, s.held.Keys - s.live)
      ensures !(p in ProducersOf(t.held, t.held.Keys) && p in ProducersOf(s.held, s.held.Keys - s.live))
    {
      if p in ProducersOf(s.held, s.held.Keys) {
        var slot :| slot in s.held && s.held[slot].producer == p;
        if slot in s.live {
          assert slot in t.held && t.held[slot].producer == p;
        } else {
          assert slot in s.held.Keys - s.live;
        }
      }
    }
  }

  // ---------------------------------------------------------------------------------------------
  // What a reload leaves, in closed form
  // ---------------------------------------------------------------------------------------------

  /** A row's slot is held after marking when it already was under this id, or is new and can be ingested. */
  predicate Kept(s: State, r: Row) {
    if r.slot in s.held then s.held[r.slot].id == r.id else r.hasKey
  }

  ghost predicate RowFor(rows: seq<Row>, slot: Slot, r: Row) {
    r in rows && r.slot == slot
  }

  /** What marking does to one slot, given the row that names it, if any. */
  lemma {:induction false} MarkedSlot(s: State, rows: seq<Row>, slot: Slot)
    requires ProperRows(rows) && Mark(s, rows).1
    ensures var t := Mark(s, rows).0;
      && (forall r :: RowFor(rows, slot, r) ==>
            && (slot in t.held <==> Kept(s, r))
            && (slot in t.held ==> t.held[slot].id == r.id && slot in t.live)
            && (slot in t.held && slot in s.held ==> t.held[slot] == s.held[slot]))
      && ((forall r :: r in rows ==> r.slot != slot) ==>
            && (slot in t.held <==> slot in s.held) && (slot in t.live <==> slot in s.live)
            && (slot in t.held ==> t.held[slot] == s.held[slot]))
    decreases |rows|
  {
    if rows != [] {
      assert rows[0] in rows && forall r :: r in rows[1..] ==> r in rows;
      assert forall r :: r in rows ==> r == rows[0] || r in rows[1..];
      var rest := rows[1..];
      MarkedSlot(MarkRow(s, rows[0]), rest, slot);
      if rows[0].slot == slot {
        forall r | r in rest
          ensures r.slot != slot
        {
          var k :| 0 <= k < |rest| && rest[k] == r;
          assert rows[k + 1] == r;
        }
        forall r | RowFor(rows, slot, r)
          ensures r == rows[0]
        {
        }
      }
    }
  }

  /** Marking goes through all rows exactly when every table with a key that is not held yet can be added. */
  lemma {:induction false} MarksAllExactlyWhen(s: State, rows: seq<Row>)
    requires ProperRows(rows)
    ensures Mark(s, rows).1 <==> forall r :: r in rows && r.slot !in s.held && r.hasKey ==> r.addable
    decreases |rows|
  {
    if rows != [] {
      var first, rest := rows[0], rows[1..];
      assert first in rows && forall r :: r in rows <==> r == first || r in rest;
      if first.slot in s.held || !first.hasKey || first.addable {
        var t := MarkRow(s, first);
        MarksAllExactlyWhen(t, rest);
        forall r | r in rest
          ensures r.slot in t.held <==> r.slot in s.held
        {
          var k :| 0 <= k < |rest| && rest[k] == r;
          assert rows[k + 1] == r;
        }
      }
    }
  }

  /**
   A reload goes through and leaves something to read exactly when every table with a key that is not held yet can be
   added, and some row is kept. A table without a key stops nothing.
   */
  lemma ReloadSucceedsExactlyWhen(s: State, rows: seq<Row>, t: State)
    requires ProperRows(rows) && s.live == {} && (Mark(s, rows).1 ==> Swept(Mark(s, rows).0, t))
    ensures Mark(s, rows).1 && t.held != map[]
       <==> (forall r :: r in rows && r.slot !in s.held && r.hasKey ==> r.addable) && exists r :: r in rows && Kept(s, r)
  {
    MarksAllExactlyWhen(s, rows);
    if Mark(s, rows).1 {
      ReloadReconciles(s, rows, t);
      if t.held != map[] {
        var slot :| slot in t.held;
        var r :| RowFor(rows, slot, r) && Kept(s, r);
      }
      if r :| r in rows && Kept(s, r) {
        assert RowFor(rows, r.slot, r);
        assert r.slot in t.held;
      }
    }
  }

  /** A successful reload: all rows marked, the rest swept. */
  ghost predicate Reloaded(s: State, rows: seq<Row>, t: State) {
    s.live == {} && Mark(s, rows).1 && Swept(Mark(s, rows).0, t)
  }

  /**
   After a successful reload every entry belongs to a current row with the same id, under the producer
   it already had if it had one; a row has an entry exactly when Kept says so.
   */
  lemma ReloadReconciles(s: State, rows: seq<Row>, t: State)
    requires ProperRows(rows) && Reloaded(s, rows, t)
    ensures forall slot :: slot in t.held <==> exists r :: RowFor(rows, slot, r) && Kept(s, r)
    ensures forall slot, r :: slot in t.held && RowFor(rows, slot, r) ==>
      t.held[slot].id == r.id && (slot in s.held ==> t.held[slot] == s.held[slot])
    ensures t.live == {}
  {
    forall slot
      ensures slot in t.held <==> exists r :: RowFor(rows, slot, r) && Kept(s, r)
      ensures forall r :: slot in t.held && RowFor(rows, slot, r) ==>
        t.held[slot].id == r.id && (slot in s.held ==> t.held[slot] == s.held[slot])
    {
      MarkedSlot(s, rows, slot);
      if r :| RowFor(rows, slot, r) {
        assert forall q :: RowFor(rows, slot, q) ==> q == r by {
          SameSlotSameRow(rows, slot);
        }
      } else {
        assert forall r :: r in rows ==> r.slot != slot by {
          forall r | r in rows
            ensures r.slot != slot
          {
            assert RowFor(rows, r.slot, r);
          }
        }
      }
    }
  }

  lemma SameSlotSameRow(rows: seq<Row>, slot: Slot)
    requires ProperRows(rows)
    ensures forall a, b :: RowFor(rows, slot, a) && RowFor(rows, slot, b) ==> a == b
  {
    forall a, b | RowFor(rows, slot, a) && RowFor(rows, slot, b)
      ensures a == b
    {
      var i :| 0 <= i < |rows| && rows[i] == a;
      var j :| 0 <= j < |rows| && rows[j] == b;
    }
  }

  /**
   A second reload of the same rows repairs re-registered tables: it leaves exactly the rows whose
   table has a primary key or whose entry was there, under the same id, before the first.
   */
  lemma SecondReloadIsComplete(s: State, rows: seq<Row>, t: State, u: State)
    requires ProperRows(rows) && Reloaded(s, rows, t) && Reloaded(t, rows, u)
    ensures forall slot :: slot in u.held <==>
      exists r :: RowFor(rows, slot, r) && (r.hasKey || (slot in s.held && s.held[slot].id == r.id))
    ensures forall slot, r :: slot in u.held && RowFor(rows, slot, r) ==> u.held[slot].id == r.id
  {
    ReloadReconciles(s, rows, t);
    ReloadReconciles(t, rows, u);
    forall slot
      ensures slot in u.held <==>
        exists r :: RowFor(rows, slot, r) && (r.hasKey || (slot in s.held && s.held[slot].id == r.id))
    {
      SameSlotSameRow(rows, slot);
    }
  }

  /** Once a reload found nothing to repair, reloading the same rows changes nothing. */
  lemma ThirdReloadChangesNothing(s: State, rows: seq<Row>, t: State, u: State, v: State)
    requires ProperRows(rows) && Reloaded(s, rows, t) && Reloaded(t, rows, u) && Reloaded(u, rows, v)
    ensures v.held == u.held
  {
    ReloadReconciles(s, rows, t);
    ReloadReconciles(t, rows, u);
    ReloadReconciles(u, rows, v);
    forall slot
      ensures slot in v.held <==> slot in u.held
      ensures slot in v.held ==> v.held[slot] == u.held[slot]
    {
      SameSlotSameRow(rows, slot);
    }
    assert v.held.Keys == u.held.Keys;
  }
}
