/**
 The registry as changelog/mysql.go keeps it: a map from tables to lists of entries, updated in place
 with swap-removal, and proved against the specification in Registry.
 */
module RegistryTables {
  import opened Registry
  import opened SwapRemoval

  datatype Entry = Entry(id: int, dead: bool, output: string, version: int, producer: nat)

  type Tables = map<Table, seq<Entry>>

  function ListOf(tables: Tables, t: Table): seq<Entry> {
    if t in tables then tables[t] else []
  }

  function SlotOf(t: Table, e: Entry): Slot {
    Slot(t, e.output, e.version)
  }

  /** One entry per slot in each list. */
  ghost predicate DistinctSlots(list: seq<Entry>) {
    forall i, j :: 0 <= i < j < |list| ==> list[i].output != list[j].output || list[i].version != list[j].version
  }

  /** The list of one table holds exactly the slots of that table, with their marks. */
  ghost predicate ListRepresents(list: seq<Entry>, t: Table, held: map<Slot, Held>, live: set<Slot>) {
    && DistinctSlots(list)
    && (forall i :: 0 <= i < |list| ==>
          var e := list[i];
          && SlotOf(t, e) in held && held[SlotOf(t, e)] == Held(e.id, e.producer)
          && (SlotOf(t, e) in live <==> !e.dead))
    && (forall s :: s in held && s.table == t ==> exists i :: 0 <= i < |list| && SlotOf(t, list[i]) == s)
  }

  ghost predicate Represents(tables: Tables, s: State) {
    forall t :: ListRepresents(ListOf(tables, t), t, s.held, s.live)
  }

  /** The producers of a list, which tell its entries apart. */
  function Producers(list: seq<Entry>): (ps: seq<nat>)
    ensures |ps| == |list|
  {
    seq(|list|, i requires 0 <= i < |list| => list[i].producer)
  }

  lemma ProducersSwapOut(list: seq<Entry>, i: nat)
    requires i < |list|
    ensures Producers(SwapOut(list, i)) == SwapOut(Producers(list), i)
  {
  }

  lemma ProducersMarked(list: seq<Entry>, i: nat, dead: bool)
    requires i < |list|
    ensures Producers(list[i := list[i].(dead := dead)]) == Producers(list)
  {
  }

  /** Swap-removal leaves the list of its table without the slot of the removed entry. */
  lemma SwapOutRepresents(list: seq<Entry>, i: nat, t: Table, held: map<Slot, Held>, live: set<Slot>)
    requires ListRepresents(list, t, held, live) && i < |list|
    ensures ListRepresents(SwapOut(list, i), t, held - {SlotOf(t, list[i])}, live - {SlotOf(t, list[i])})
  {
    var r, slot := SwapOut(list, i), SlotOf(t, list[i]);
    forall x | x in held && x != slot && x.table == t
      ensures exists m :: 0 <= m < |r| && SlotOf(t, r[m]) == x
    {
      var k :| 0 <= k < |list| && SlotOf(t, list[k]) == x;
      assert SlotOf(t, r[if k == |list| - 1 then i else k]) == x;
    }
    forall m | 0 <= m < |r|
      ensures SlotOf(t, r[m]) in held - {slot} && (held - {slot})[SlotOf(t, r[m])] == Held(r[m].id, r[m].producer)
      ensures SlotOf(t, r[m]) in live - {slot} <==> !r[m].dead
    {
      SwapOutAt(list, i, m);
      var k := if m == i then |list| - 1 else m;
      assert r[m] == list[k];
    }
    forall m, n | 0 <= m < n < |r|
      ensures r[m].output != r[n].output || r[m].version != r[n].version
    {
      SwapOutAt(list, i, m);
      SwapOutAt(list, i, n);
    }
  }

  /** Swap-removal drops one slot of one table and disturbs no other. */
  lemma RemoveRepresents(tables: Tables, s: State, t: Table, i: nat, tables': Tables, s': State)
    requires Represents(tables, s) && i < |ListOf(tables, t)|
    requires var slot := SlotOf(t, ListOf(tables, t)[i]);
      s'.held == s.held - {slot} && s'.live == s.live - {slot}
    requires forall u :: ListOf(tables', u) == if u == t then SwapOut(ListOf(tables, t), i) else ListOf(tables, u)
    ensures Represents(tables', s')
  {
    forall u
      ensures ListRepresents(ListOf(tables', u), u, s'.held, s'.live)
    {
      assert ListRepresents(ListOf(tables, u), u, s.held, s.live);
      if u == t {
        SwapOutRepresents(ListOf(tables, t), i, t, s.held, s.live);
      }
    }
  }

  lemma SetDeadRepresents(tables: Tables, s: State, t: Table, i: nat, dead: bool, tables': Tables, s': State)
    requires Represents(tables, s) && i < |ListOf(tables, t)|
    requires var slot := SlotOf(t, ListOf(tables, t)[i]);
      s'.held == s.held && s'.live == if dead then s.live - {slot} else s.live + {slot}
    requires tables' == tables[t := ListOf(tables, t)[i := ListOf(tables, t)[i].(dead := dead)]]
    ensures Represents(tables', s')
  {
    forall u
      ensures ListRepresents(ListOf(tables', u), u, s'.held, s'.live)
    {
      assert ListRepresents(ListOf(tables, u), u, s.held, s.live);
      if u == t {
        MarkedListRepresents(ListOf(tables, t), t, s.held, s.live, i, dead);
      }
    }
  }

  lemma MarkedListRepresents(list: seq<Entry>, t: Table, held: map<Slot, Held>, live: set<Slot>, i: nat, dead: bool)
    requires ListRepresents(list, t, held, live) && i < |list|
    ensures ListRepresents(list[i := list[i].(dead := dead)], t, held,
      if dead then live - {SlotOf(t, list[i])} else live + {SlotOf(t, list[i])})
  {
    var marked := list[i := list[i].(dead := dead)];
    forall x | x in held && x.table == t
      ensures exists m :: 0 <= m < |marked| && SlotOf(t, marked[m]) == x
    {
      var k :| 0 <= k < |list| && SlotOf(t, list[k]) == x;
      assert SlotOf(t, marked[k]) == x;
    }
  }

  lemma AppendRepresents(tables: Tables, s: State, t: Table, e: Entry, s': State)
    requires Represents(tables, s) && !e.dead && SlotOf(t, e) !in s.held
    requires s'.held == s.held[SlotOf(t, e) := Held(e.id, e.producer)] && s'.live == s.live + {SlotOf(t, e)}
    ensures Represents(tables[t := ListOf(tables, t) + [e]], s')
  {
    var tables' := tables[t := ListOf(tables, t) + [e]];
    forall u
      ensures ListRepresents(ListOf(tables', u), u, s'.held, s'.live)
    {
      assert ListRepresents(ListOf(tables, u), u, s.held, s.live);
      if u == t {
        var list, list' := ListOf(tables, t), ListOf(tables', t);
        forall x | x in s'.held && x.table == t
          ensures exists m :: 0 <= m < |list'| && SlotOf(t, list'[m]) == x
        {
          if x == SlotOf(t, e) {
            assert SlotOf(t, list'[|list|]) == x;
          } else {
            var k :| 0 <= k < |list| && SlotOf(t, list[k]) == x;
            assert SlotOf(t, list'[k]) == x;
          }
        }
      }
    }
  }

  // ---------------------------------------------------------------------------------------------
  // The sweep, one entry at a time
  // ---------------------------------------------------------------------------------------------

  /** The sweep of `start` with the slots in `todo` still to be visited. */
  ghost predicate Sweeping(start: State, s: State, todo: set<Slot>) {
    && todo <= start.held.Keys
    && s.held == (map x | x in start.held && (x in start.live || x in todo) :: start.held[x])
    && s.live == start.live * todo
    && s.created == start.created
    && forall p: nat :: s.closed[p] ==
         start.closed[p] + (if p in ProducersOf(start.held, start.held.Keys - start.live - todo) then 1 else 0)
  }

  lemma SweepDead(start: State, s: State, todo: set<Slot>, slot: Slot)
    requires Accounted(start) && Sweeping(start, s, todo) && slot in todo && slot !in start.live
    ensures slot in s.held
    ensures Sweeping(start, s.(held := s.held - {slot}, closed := s.closed + multiset{s.held[slot].producer}), todo - {slot})
  {
    var gone, gone' := start.held.Keys - start.live - todo, start.held.Keys - start.live - (todo - {slot});
    assert gone' == gone + {slot};
    var p := start.held[slot].producer;
    assert p !in ProducersOf(start.held, gone);
    assert ProducersOf(start.held, gone') == ProducersOf(start.held, gone) + {p};
  }

  lemma SweepLive(start: State, s: State, todo: set<Slot>, slot: Slot)
    requires Sweeping(start, s, todo) && slot in todo && slot in start.live
    ensures Sweeping(start, s.(live := s.live - {slot}), todo - {slot})
  {
    assert start.held.Keys - start.live - todo == start.held.Keys - start.live - (todo - {slot});
    var s' := s.(live := s.live - {slot});
    assert s'.held == (map x | x in start.held && (x in start.live || x in todo - {slot}) :: start.held[x]);
  }

  lemma EntryIsHeld(tables: Tables, s: State, t: Table, i: nat)
    requires Represents(tables, s) && i < |ListOf(tables, t)|
    ensures var e := ListOf(tables, t)[i];
      && SlotOf(t, e) in s.held && s.held[SlotOf(t, e)] == Held(e.id, e.producer)
      && (SlotOf(t, e) in s.live <==> !e.dead) && DistinctSlots(ListOf(tables, t))
  {
    assert ListRepresents(ListOf(tables, t), t, s.held, s.live);
  }

  lemma MarkInSweep(start: State, s: State, todo: set<Slot>, slot: Slot)
    requires Sweeping(start, s, todo) && slot in todo
    ensures slot in s.live <==> slot in start.live
  {
  }

  lemma SweepDone(start: State, s: State)
    requires Sweeping(start, s, {}) && start.live <= start.held.Keys
    ensures Swept(start, s)
    ensures |s.held| == |start.live|
  {
    assert start.held.Keys - start.live - {} == start.held.Keys - start.live;
    assert s.held.Keys == start.live;
    assert |s.held| == |s.held.Keys|;
  }

  /** A list visited up to entry i: the slots after it are those still to do. */
  ghost predicate Visiting(list: seq<Entry>, t: Table, i: nat, todo: set<Slot>) {
    && (forall k :: 0 <= k < |list| && k < i ==> SlotOf(t, list[k]) !in todo)
    && (forall k :: i <= k < |list| ==> SlotOf(t, list[k]) in todo)
  }

  lemma VisitStart(tables: Tables, s: State, t: Table, todo: set<Slot>)
    requires Represents(tables, s) && forall x :: x in s.held && x.table == t ==> x in todo
    ensures Visiting(ListOf(tables, t), t, 0, todo)
  {
    assert ListRepresents(ListOf(tables, t), t, s.held, s.live);
  }

  /** A list visited to its end leaves nothing of its table to do. */
  lemma VisitEnd(tables: Tables, s: State, t: Table, todo: set<Slot>)
    requires Represents(tables, s) && todo <= s.held.Keys && Visiting(ListOf(tables, t), t, |ListOf(tables, t)|, todo)
    ensures forall x :: x in todo ==> x.table != t
  {
    assert ListRepresents(ListOf(tables, t), t, s.held, s.live);
  }

  lemma HeldTablesAreNamed(tables: Tables, s: State)
    requires Represents(tables, s)
    ensures forall x :: x in s.held ==> x.table in tables
  {
    forall x | x in s.held
      ensures x.table in tables
    {
      assert ListRepresents(ListOf(tables, x.table), x.table, s.held, s.live);
    }
  }

  lemma SweepStart(s: State)
    requires Accounted(s)
    ensures Sweeping(s, s, s.held.Keys)
  {
    assert ProducersOf(s.held, s.held.Keys - s.live - s.held.Keys) == {};
  }

  lemma TodoIsHeld(start: State, s: State, todo: set<Slot>)
    requires Sweeping(start, s, todo)
    ensures todo <= s.held.Keys <= start.held.Keys
  {
  }

  lemma VisitDead(list: seq<Entry>, t: Table, i: nat, todo: set<Slot>)
    requires DistinctSlots(list) && i < |list| && Visiting(list, t, i, todo)
    ensures Visiting(SwapOut(list, i), t, i, todo - {SlotOf(t, list[i])})
  {
    forall m | 0 <= m < |list| - 1
      ensures SlotOf(t, SwapOut(list, i)[m]) in todo - {SlotOf(t, list[i])} <==> m >= i
    {
      SwapOutAt(list, i, m);
    }
  }

  lemma VisitLive(list: seq<Entry>, t: Table, i: nat, todo: set<Slot>)
    requires DistinctSlots(list) && i < |list| && Visiting(list, t, i, todo)
    ensures Visiting(list[i := list[i].(dead := true)], t, i + 1, todo - {SlotOf(t, list[i])})
  {
  }

  lemma EmptyRegistry()
    ensures Accounted(State(map[], {}, multiset{}, 0)) && Represents(map[], State(map[], {}, multiset{}, 0))
  {
    var empty: map<Slot, Held> := map[];
    assert empty.Keys == {} && ProducersOf(empty, {}) == {};
  }

  /** Live slots already visited. */
  function Visited(start: State, todo: set<Slot>): set<Slot> {
    start.live - todo
  }

  lemma VisitOne(start: State, todo: set<Slot>, slot: Slot)
    requires slot in todo
    ensures |Visited(start, todo - {slot})| == |Visited(start, todo)| + (if slot in start.live then 1 else 0)
  {
    if slot in start.live {
      assert Visited(start, todo - {slot}) == Visited(start, todo) + {slot};
    } else {
      assert Visited(start, todo - {slot}) == Visited(start, todo);
    }
  }

  class TableRegistry {
    var tables: Tables
    var closed: seq<nat>
    var created: nat
    ghost var state: State

    ghost predicate Valid()
      reads this
    {
      && Represents(tables, state) && Accounted(state)
      && state.closed == multiset(closed) && state.created == created
    }

    constructor ()
      ensures Valid() && state == State(map[], {}, multiset{}, 0)
    {
      tables, closed, created := map[], [], 0;
      state := State(map[], {}, multiset{}, 0);
      new;
      EmptyRegistry();
    }

    method CloseProducer(producer: nat)
      modifies this`closed
      ensures closed == old(closed) + [producer]
    {
      closed := closed + [producer];
    }

    method AddNewTable(r: Row) returns (ok: bool)
      requires Valid() && r.slot !in state.held
      modifies this
      ensures Valid() && (ok <==> !r.hasKey || r.addable)
      ensures state == if ok then MarkRow(old(state), r) else old(state)
    {
      if !r.hasKey {
        return true;
      }
      if !r.addable {
        return false;
      }
      var e := Entry(r.id, false, r.slot.output, r.slot.version, created);
      MarkRowKeepsAccounts(state, r);
      AppendRepresents(tables, state, r.slot.table, e, MarkRow(state, r));
      tables := tables[r.slot.table := ListOf(tables, r.slot.table) + [e]];
      created := created + 1;
      state := MarkRow(state, r);
      return true;
    }

    /** The entry of a row's version and output in the list of its table, or the length of the list. */
    method FindEntry(r: Row) returns (j: nat)
      requires Valid()
      ensures j <= |ListOf(tables, r.slot.table)|
      ensures j < |ListOf(tables, r.slot.table)| ==> SlotOf(r.slot.table, ListOf(tables, r.slot.table)[j]) == r.slot
      ensures j == |ListOf(tables, r.slot.table)| ==> r.slot !in state.held
    {
      var t := r.slot.table;
      var list := ListOf(tables, t);
      j := 0;
      while j < |list| && (list[j].version != r.slot.version || list[j].output != r.slot.output)
        invariant 0 <= j <= |list|
        invariant forall k :: 0 <= k < j ==> SlotOf(t, list[k]) != r.slot
      {
        j := j + 1;
      }
      assert ListRepresents(list, t, state.held, state.live);
    }

    /** An entry of the row's slot: dropped if the row was registered again, else marked. */
    method ReconcileEntry(r: Row, j: nat)
      requires Valid() && j < |ListOf(tables, r.slot.table)|
      requires SlotOf(r.slot.table, ListOf(tables, r.slot.table)[j]) == r.slot
      modifies this
      ensures Valid() && r.slot in old(state).held && state == MarkRow(old(state), r)
      ensures var was := old(ListOf(tables, r.slot.table));
        Producers(ListOf(tables, r.slot.table))
          == if was[j].id != r.id then SwapOut(Producers(was), j) else Producers(was)
    {
      hide Represents, Accounted, ListRepresents, DistinctSlots, Producers, SwapOut;
      var t := r.slot.table;
      var list := ListOf(tables, t);
      EntryIsHeld(tables, state, t, j);
      ProducersMarked(list, j, false);
      MarkRowKeepsAccounts(state, r);
      ghost var next := MarkRow(state, r);
      ghost var before := tables;
      if list[j].id != r.id {
        CloseProducer(list[j].producer);
        tables := tables[t := SwapOut(list, j)];
        ProducersSwapOut(list, j);
        RemoveRepresents(before, state, t, j, tables, next);
      } else {
        tables := tables[t := list[j := list[j].(dead := false)]];
        SetDeadRepresents(before, state, t, j, false, tables, next);
      }
      state := next;
    }

    /** The body of reloadState's loop. */
    method ReloadRow(r: Row) returns (ok: bool)
      requires Valid()
      modifies this
      ensures Valid() && (ok <==> r.slot in old(state).held || !r.hasKey || r.addable)
      ensures state == if ok then MarkRow(old(state), r) else old(state)
    {
      var j := FindEntry(r);
      if j < |ListOf(tables, r.slot.table)| {
        ReconcileEntry(r, j);
        return true;
      } else {
        ok := AddNewTable(r);
      }
    }

    /** What the sweep keeps while it goes through the lists. */
    ghost predicate Consistent()
      reads this
    {
      Represents(tables, state) && state.closed == multiset(closed) && state.created == created
    }

    /** One step of the sweep: a dead entry goes and its producer is closed, a live one is unmarked. */
    method SweepEntry(t: Table, i: nat, ghost start: State, ghost todo: set<Slot>) returns (kept: bool)
      requires Consistent() && Accounted(start) && Sweeping(start, state, todo)
      requires i < |ListOf(tables, t)| && Visiting(ListOf(tables, t), t, i, todo)
      modifies this
      ensures Consistent()
      ensures var slot := SlotOf(t, old(ListOf(tables, t))[i]);
        && slot in todo && Sweeping(start, state, todo - {slot})
        && kept == (slot in start.live)
        && Visiting(ListOf(tables, t), t, if kept then i + 1 else i, todo - {slot})
        && |ListOf(tables, t)| == |old(ListOf(tables, t))| - (if kept then 0 else 1)
      ensures Producers(ListOf(tables, t))
           == if kept then Producers(old(ListOf(tables, t))) else SwapOut(Producers(old(ListOf(tables, t))), i)
    {
      hide Sweeping, Accounted, Represents, DistinctSlots, ListRepresents, Producers, SwapOut;
      var list := tables[t];
      var e := list[i];
      ghost var slot, before, was := SlotOf(t, e), tables, state;
      EntryIsHeld(tables, state, t, i);
      MarkInSweep(start, state, todo, slot);
      kept := !e.dead;
      if e.dead {
        CloseProducer(e.producer);
        SweepDead(start, state, todo, slot);
        state := state.(held := state.held - {slot}, closed := state.closed + multiset{e.producer});
        tables := tables[t := SwapOut(list, i)];
        if |SwapOut(list, i)| == 0 {
          tables := tables - {t};
        }
        RemoveRepresents(before, was, t, i, tables, state);
        VisitDead(list, t, i, todo);
        ProducersSwapOut(list, i);
      } else {
        SweepLive(start, state, todo, slot);
        state := state.(live := state.live - {slot});
        tables := tables[t := list[i := e.(dead := true)]];
        SetDeadRepresents(before, was, t, i, true, tables, state);
        VisitLive(list, t, i, todo);
        ProducersMarked(list, i, true);
      }
    }

    /** The sweep over one table's list. */
    method SweepTable(t: Table, ghost start: State, ghost todo: set<Slot>, count0: nat)
      returns (count: nat, ghost rest: set<Slot>, ghost picks: seq<nat>)
      requires Consistent() && Accounted(start) && Sweeping(start, state, todo) && count0 == |Visited(start, todo)|
      requires forall s :: s in state.held && s.table == t ==> s in todo
      modifies this
      ensures Consistent() && Sweeping(start, state, rest) && count == |Visited(start, rest)|
      ensures rest == set s | s in todo && s.table != t
      ensures Producers(ListOf(tables, t)) == SwapOuts(Producers(old(ListOf(tables, t))), picks)
    {
      hide Sweeping, Represents, Accounted, ListRepresents, SwapOuts, SwapOut, Producers;
      count, rest, picks := count0, todo, [];
      NoSwapOuts(Producers(ListOf(tables, t)));
      var i := 0;
      VisitStart(tables, state, t, todo);
      while i < |ListOf(tables, t)|
        invariant Consistent() && Sweeping(start, state, rest) && count == |Visited(start, rest)|
        invariant rest <= todo && forall s :: s in todo && s.table != t ==> s in rest
        invariant 0 <= i <= |ListOf(tables, t)| && Visiting(ListOf(tables, t), t, i, rest)
        invariant Producers(ListOf(tables, t)) == SwapOuts(Producers(old(ListOf(tables, t))), picks)
        decreases |ListOf(tables, t)| - i
      {
        ghost var slot := SlotOf(t, ListOf(tables, t)[i]);
        var kept := SweepEntry(t, i, start, rest);
        VisitOne(start, rest, slot);
        if kept {
          count := count + 1;
          i := i + 1;
        } else {
          SwapOutsNext(Producers(old(ListOf(tables, t))), picks, i);
          picks := picks + [i];
        }
        rest := rest - {slot};
      }
      TodoIsHeld(start, state, rest);
      VisitEnd(tables, state, t, rest);
    }

    /** Visits every list once, in any order. */
    method SweepTables(names: set<Table>, ghost start: State) returns (count: nat)
      requires Consistent() && Accounted(start) && Sweeping(start, state, start.held.Keys)
      requires forall s :: s in start.held ==> s.table in names
      modifies this
      ensures Consistent() && Sweeping(start, state, {}) && count == |Visited(start, {})|
    {
      ghost var todo := start.held.Keys;
      var left := names;
      count := 0;
      assert Visited(start, todo) == {};
      while left != {}
        invariant Consistent() && Sweeping(start, state, todo) && count == |Visited(start, todo)|
        invariant forall s :: s in todo <==> s in start.held && s.table in left
        decreases left
      {
        var t :| t in left;
        TodoIsHeld(start, state, todo);
        ghost var picks;
        count, todo, picks := SweepTable(t, start, todo, count);
        left := left - {t};
      }
      assert todo == {};
    }

    method RemoveDeletedTables() returns (count: nat)
      requires Valid()
      modifies this
      ensures Valid() && Swept(old(state), state) && count == |state.held|
    {
      ghost var start := state;
      SweepStart(state);
      HeldTablesAreNamed(tables, state);
      count := SweepTables(tables.Keys, start);
      assert Visited(start, {}) == start.live;
      SweepDone(start, state);
      SweepKeepsAccounts(start, state);
    }

    /** True exactly when every new table with a key could be added and some table is left to read. */
    method ReloadState(rows: seq<Row>) returns (ok: bool)
      requires Valid() && state.live == {}
      modifies this
      ensures Valid()
      ensures var (marked, done) := Mark(old(state), rows);
        && (done ==> Reloaded(old(state), rows, state) && ok == (|state.held| > 0))
        && (!done ==> !ok && state == marked)
      ensures ProperRows(rows) ==>
        (ok <==> (forall r :: r in rows && r.slot !in old(state).held && r.hasKey ==> r.addable)
                 && exists r :: r in rows && Kept(old(state), r))
    {
      var i := 0;
      while i < |rows|
        invariant 0 <= i <= |rows| && Valid()
        invariant Mark(old(state), rows) == Mark(state, rows[i..])
      {
        assert rows[i..][0] == rows[i] && rows[i..][1..] == rows[i + 1..];
        var added := ReloadRow(rows[i]);
        if !added {
          if ProperRows(rows) {
            MarksAllExactlyWhen(old(state), rows);
          }
          return false;
        }
        i := i + 1;
      }
      var count := RemoveDeletedTables();
      if ProperRows(rows) {
        ReloadSucceedsExactlyWhen(old(state), rows, state);
      }
      return count != 0;
    }
  }
}
