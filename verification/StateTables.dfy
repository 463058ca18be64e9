/**
 The tables `state` and `columns` of the state database and the operations on registrations (ReplaceSchema,
 RegisterTable and DeregisterTable in state/state.go). A transaction is one step; DeregisterTable runs its two
 statements separately.
 */
module StateTables {
  import opened ColumnFilter
  import opened Options

  datatype TableKey = TableKey(service: string, db: string, table: string)

  /** The first unique key of the table `state`. */
  datatype RowKey = RowKey(table: TableKey, input: string, output: string, version: int)

  datatype StateRow = StateRow(cluster: string, schemaGtid: string, rawSchema: string, outputFormat: string)

  /** `columns` has an entry for the tables with at least one stored column. */
  datatype Db = Db(rows: map<RowKey, StateRow>, columns: map<TableKey, seq<Column>>)

  /** The arguments of ReplaceSchema; no old GTID means that the table is new. */
  datatype Replacement = Replacement(key: RowKey, schema: seq<Column>, oldGtid: string, row: StateRow)

  // ---------------------------------------------------------------------------------------------
  // Statements
  // ---------------------------------------------------------------------------------------------

  /** The columns of the second unique key: the service is replaced by the cluster. */
  predicate SameSlot(a: RowKey, aRow: StateRow, b: RowKey, bRow: StateRow) {
    && aRow.cluster == bRow.cluster && a.table.db == b.table.db && a.table.table == b.table.table
    && a.input == b.input && a.output == b.output && a.version == b.version
  }

  /** Whether an insert violates one of the two unique keys. */
  predicate Duplicate(rows: map<RowKey, StateRow>, key: RowKey, row: StateRow) {
    key in rows || exists other :: other in rows && SameSlot(other, rows[other], key, row)
  }

  function Replaced(columns: map<TableKey, seq<Column>>, k: TableKey, schema: seq<Column>): map<TableKey, seq<Column>> {
    if schema == [] then columns - {k} else columns[k := schema]
  }

  /** What ReplaceSchema leaves behind and returns; without a commit nothing changes. */
  function ReplaceSchema(d: Db, r: Replacement): (Db, bool) {
    if r.oldGtid != "" then
      if r.key !in d.rows then (d, false)
      else if d.rows[r.key].schemaGtid != r.oldGtid then (d, true)
      else if !DistinctColumns(r.schema) then (d, false)
      else
        var row := d.rows[r.key].(schemaGtid := r.row.schemaGtid, rawSchema := r.row.rawSchema);
        (Db(d.rows[r.key := row], Replaced(d.columns, r.key.table, r.schema)), true)
    else if Duplicate(d.rows, r.key, r.row) then (d, true)
    else if !DistinctColumns(r.schema) then (d, false)
    else (Db(d.rows[r.key := r.row], Replaced(d.columns, r.key.table, r.schema)), true)
  }

  /**
   A new registration is stored exactly when its key is new, no table of the cluster is registered under the same
   names, output and version, and no column comes twice; it leaves all other tables as they are.
   */
  lemma RegistersExactlyWhen(d: Db, r: Replacement)
    requires r.oldGtid == "" && r.key !in d.rows
    ensures var (after, ok) := ReplaceSchema(d, r);
      && (r.key in after.rows <==>
            && (forall i, j :: 0 <= i < j < |r.schema| ==> r.schema[i].name != r.schema[j].name)
            && forall other :: other in d.rows ==>
                 || d.rows[other].cluster != r.row.cluster || other.table.db != r.key.table.db
                 || other.table.table != r.key.table.table || other.input != r.key.input
                 || other.output != r.key.output || other.version != r.key.version)
      && (r.key !in after.rows ==> after == d)
      && (r.key in after.rows ==>
            && ok && after.rows == d.rows[r.key := r.row]
            && (forall k :: k != r.key.table ==>
                  (k in after.columns <==> k in d.columns) && (k in d.columns ==> after.columns[k] == d.columns[k]))
            && (r.schema != [] ==> r.key.table in after.columns && after.columns[r.key.table] == r.schema))
  {
    forall other | other in d.rows
      ensures SameSlot(other, d.rows[other], r.key, r.row) <==>
        !(|| d.rows[other].cluster != r.row.cluster || other.table.db != r.key.table.db
          || other.table.table != r.key.table.table || other.input != r.key.input
          || other.output != r.key.output || other.version != r.key.version)
    {
    }
  }

  /**
   A new version of a schema is stored exactly when the version in the state is still the one it was made from, and
   no column comes twice; an older one is passed over with success. It leaves the rest of the row, all other rows and
   the columns of all other tables as they are.
   */
  lemma ReplacesExactlyWhen(d: Db, r: Replacement)
    requires r.oldGtid != "" && r.schema != []
    ensures var (after, ok) := ReplaceSchema(d, r);
      var distinct := forall i, j :: 0 <= i < j < |r.schema| ==> r.schema[i].name != r.schema[j].name;
      var current := r.key in d.rows && d.rows[r.key].schemaGtid == r.oldGtid;
      && (ok <==> r.key in d.rows && (current ==> distinct))
      && (!(current && distinct) ==> after == d)
      && (current && distinct ==>
            && after.rows.Keys == d.rows.Keys
            && after.rows[r.key].schemaGtid == r.row.schemaGtid && after.rows[r.key].rawSchema == r.row.rawSchema
            && after.rows[r.key].cluster == d.rows[r.key].cluster
            && after.rows[r.key].outputFormat == d.rows[r.key].outputFormat
            && (forall other :: other in d.rows && other != r.key ==> after.rows[other] == d.rows[other])
            && after.columns.Keys == d.columns.Keys + {r.key.table} && after.columns[r.key.table] == r.schema
            && forall k :: k in d.columns && k != r.key.table ==> after.columns[k] == d.columns[k])
  {
  }

  predicate Registered(rows: map<RowKey, StateRow>, k: TableKey) {
    exists key :: key in rows && key.table == k
  }

  function DeleteRow(d: Db, key: RowKey): Db {
    d.(rows := d.rows - {key})
  }

  /** The second statement of DeregisterTable leaves the columns of a table that still has a row. */
  function DeleteColumns(d: Db, k: TableKey): Db {
    if Registered(d.rows, k) then d else d.(columns := d.columns - {k})
  }

  /** The state database; MySQL runs every statement and every transaction alone. */
  class StateDb {
    var rows: map<RowKey, StateRow>
    var columns: map<TableKey, seq<Column>>

    ghost function State(): Db
      reads this
    {
      Db(rows, columns)
    }

    constructor ()
      ensures State() == Db(map[], map[])
    {
      rows, columns := map[], map[];
    }

    /** The inserts of one schema: a repeated column name violates the primary key of `columns`. */
    static method InsertColumns(schema: seq<Column>) returns (stored: Option<seq<Column>>)
      ensures stored == if DistinctColumns(schema) then Some(schema) else None
    {
      var inserted: seq<Column> := [];
      var i := 0;
      while i < |schema|
        invariant 0 <= i <= |schema| && inserted == schema[..i] && DistinctColumns(inserted)
      {
        var j := 0;
        while j < i
          invariant 0 <= j <= i && forall l :: 0 <= l < j ==> schema[l].name != schema[i].name
        {
          if schema[j].name == schema[i].name {
            return None;
          }
          j := j + 1;
        }
        inserted := inserted + [schema[i]];
        i := i + 1;
      }
      stored := Some(schema);
    }

    method ReplaceSchemaInPlace(r: Replacement) returns (ok: bool)
      modifies this
      ensures (State(), ok) == ReplaceSchema(old(State()), r)
    {
      hide DistinctColumns, Duplicate;
      var txRows := rows;
      if r.oldGtid != "" {
        if r.key !in rows {
          return false;
        }
        if rows[r.key].schemaGtid != r.oldGtid {
          return true;
        }
        txRows := rows[r.key := rows[r.key].(schemaGtid := r.row.schemaGtid, rawSchema := r.row.rawSchema)];
      } else {
        if Duplicate(rows, r.key, r.row) {
          return true;
        }
        txRows := rows[r.key := r.row];
      }
      var txColumns := columns - {r.key.table};
      var stored := InsertColumns(r.schema);
      if stored.None? {
        return false;
      }
      if stored.value != [] {
        txColumns := txColumns[r.key.table := stored.value];
        assert txColumns == columns[r.key.table := stored.value];
      }
      rows, columns := txRows, txColumns;
      return true;
    }

    /** DeregisterTable when nothing comes between its two statements. */
    method DeregisterTable(key: RowKey)
      modifies this
      ensures State() == DeleteColumns(DeleteRow(old(State()), key), key.table)
    {
      rows := rows - {key};
      if !Registered(rows, key.table) {
        columns := columns - {key.table};
      }
    }
  }

  // ---------------------------------------------------------------------------------------------
  // Interleavings
  // ---------------------------------------------------------------------------------------------

  /**
   `pending` are the tables whose second delete is still to come, one for each call; `abandoned` those with columns
   where it never came, because the process died or the statement failed, and that were neither registered again
   nor cleaned up since. `latest` is the last schema committed.
   */
  datatype System =
    System(db: Db, pending: multiset<TableKey>, abandoned: set<TableKey>, latest: map<TableKey, seq<Column>>)

  datatype Step =
    | Replace(r: Replacement)
    | FirstDelete(key: RowKey)
    | SecondDelete(k: TableKey)
    | Abandon(k: TableKey)

  /** Tables have columns; a second delete belongs to a first one. */
  predicate Enabled(a: System, step: Step) {
    match step
    case Replace(r) => r.schema != []
    case FirstDelete(_) => true
    case SecondDelete(k) => k in a.pending
    case Abandon(k) => k in a.pending
  }

  function Next(a: System, step: Step): System {
    match step
    case Replace(r) =>
      var after := ReplaceSchema(a.db, r).0;
      if after == a.db then a
      else a.(db := after, abandoned := a.abandoned - {r.key.table}, latest := a.latest[r.key.table := r.schema])
    case FirstDelete(key) => a.(db := DeleteRow(a.db, key), pending := a.pending + multiset{key.table})
    case SecondDelete(k) =>
      a.(db := DeleteColumns(a.db, k), pending := a.pending - multiset{k},
         abandoned := if Registered(a.db.rows, k) then a.abandoned else a.abandoned - {k})
    case Abandon(k) =>
      a.(pending := a.pending - multiset{k},
         abandoned := if k in a.db.columns then a.abandoned + {k} else a.abandoned)
  }

  predicate Possible(a: System, steps: seq<Step>)
    decreases |steps|
  {
    steps == [] || (Enabled(a, steps[0]) && Possible(Next(a, steps[0]), steps[1..]))
  }

  function Run(a: System, steps: seq<Step>): System
    decreases |steps|
  {
    if steps == [] then a else Run(Next(a, steps[0]), steps[1..])
  }

  const EMPTY := System(Db(map[], map[]), multiset{}, {}, map[])

  /** Every registered table has its columns. */
  ghost predicate RegisteredHaveColumns(d: Db) {
    forall key :: key in d.rows ==> key.table in d.columns
  }

  /** Columns of a table without a row are there only while a second delete is due or was abandoned. */
  ghost predicate OrphansAreExplained(a: System) {
    && (forall k :: k in a.db.columns ==> Registered(a.db.rows, k) || k in a.pending || k in a.abandoned)
    && (forall k :: k in a.abandoned ==> k in a.db.columns)
  }

  /** Both unique keys of `state` hold; the first one by the type of the map. */
  ghost predicate UniqueSlots(rows: map<RowKey, StateRow>) {
    forall a, b :: a in rows && b in rows && SameSlot(a, rows[a], b, rows[b]) ==> a == b
  }

  /** Stored columns are those of the last committed schema. */
  ghost predicate ColumnsAreLatest(a: System) {
    forall k :: k in a.db.columns ==> k in a.latest && a.db.columns[k] == a.latest[k]
  }

  ghost predicate Inv(a: System) {
    && RegisteredHaveColumns(a.db) && OrphansAreExplained(a)
    && UniqueSlots(a.db.rows) && ColumnsAreLatest(a)
  }

  /** A committed transaction writes one row, in a slot of its own, and the columns of its table. */
  lemma ReplaceWrites(a: System, r: Replacement) returns (row: StateRow)
    requires UniqueSlots(a.db.rows) && r.schema != []
    ensures var b := Next(a, Replace(r));
      b == a || (
        && b.db == Db(a.db.rows[r.key := row], a.db.columns[r.key.table := r.schema])
        && b == System(b.db, a.pending, a.abandoned - {r.key.table}, a.latest[r.key.table := r.schema])
        && forall other :: other in a.db.rows && other != r.key ==> !SameSlot(other, a.db.rows[other], r.key, row))
  {
    hide DistinctColumns;
    row := if r.key in a.db.rows then
             a.db.rows[r.key].(schemaGtid := r.row.schemaGtid, rawSchema := r.row.rawSchema)
           else r.row;
    if r.key in a.db.rows {
      forall other | other in a.db.rows && other != r.key
        ensures !SameSlot(other, a.db.rows[other], r.key, row)
      {
        assert !SameSlot(other, a.db.rows[other], r.key, a.db.rows[r.key]);
      }
    }
  }

  lemma ReplaceExplainsOrphans(a: System, r: Replacement, row: StateRow)
    requires OrphansAreExplained(a)
    ensures OrphansAreExplained(System(Db(a.db.rows[r.key := row], a.db.columns[r.key.table := r.schema]),
      a.pending, a.abandoned - {r.key.table}, a.latest[r.key.table := r.schema]))
  {
    var rows := a.db.rows[r.key := row];
    forall k | k in a.db.columns[r.key.table := r.schema]
      ensures Registered(rows, k) || k in a.pending || k in a.abandoned - {r.key.table}
    {
      if k == r.key.table {
        assert r.key in rows;
      } else if Registered(a.db.rows, k) {
        var key :| key in a.db.rows && key.table == k;
        assert key in rows;
      }
    }
  }

  lemma ReplaceKeepsInv(a: System, r: Replacement)
    requires Inv(a) && r.schema != []
    ensures Inv(Next(a, Replace(r)))
  {
    hide Next, Registered;
    var row := ReplaceWrites(a, r);
    ReplaceExplainsOrphans(a, r, row);
    hide OrphansAreExplained;
  }

  lemma FirstDeleteKeepsInv(a: System, key: RowKey)
    requires Inv(a)
    ensures Inv(Next(a, FirstDelete(key)))
  {
    var b := Next(a, FirstDelete(key));
    forall k | k in b.db.columns
      ensures Registered(b.db.rows, k) || k in b.pending || k in b.abandoned
    {
      if k != key.table && Registered(a.db.rows, k) {
        var other :| other in a.db.rows && other.table == k;
        assert other in b.db.rows;
      }
    }
  }

  lemma SecondDeleteKeepsInv(a: System, k: TableKey)
    requires Inv(a) && k in a.pending
    ensures Inv(Next(a, SecondDelete(k)))
  {
    var b := Next(a, SecondDelete(k));
    assert b.db.rows == a.db.rows;
    forall key | key in b.db.rows
      ensures key.table in b.db.columns
    {
      assert Registered(a.db.rows, key.table);
    }
  }

  lemma StepKeepsInv(a: System, step: Step)
    requires Inv(a) && Enabled(a, step)
    ensures Inv(Next(a, step))
  {
    hide Inv, Next;
    match step
    case Replace(r) => ReplaceKeepsInv(a, r);
    case FirstDelete(key) => FirstDeleteKeepsInv(a, key);
    case SecondDelete(k) => SecondDeleteKeepsInv(a, k);
    case Abandon(k) => AbandonKeepsInv(a, k);
  }

  lemma AbandonKeepsInv(a: System, k: TableKey)
    requires Inv(a) && k in a.pending
    ensures Inv(Next(a, Abandon(k)))
  {
    hide Registered, SameSlot;
  }

  lemma {:induction false} RunKeepsInv(a: System, steps: seq<Step>)
    requires Inv(a) && Possible(a, steps)
    ensures Inv(Run(a, steps))
    decreases |steps|
  {
    hide Inv, Next, Enabled;
    if steps != [] {
      assert Enabled(a, steps[0]);
      StepKeepsInv(a, steps[0]);
      RunKeepsInv(Next(a, steps[0]), steps[1..]);
    }
  }

  /**
   Under any interleaving of registrations, schema replacements and the two statements of deregistrations, what
   is read as the schema of a registered table is the last one committed for it.
   */
  lemma RegisteredTablesHaveTheirSchema(steps: seq<Step>, key: RowKey)
    requires Possible(EMPTY, steps) && key in Run(EMPTY, steps).db.rows
    ensures var a := Run(EMPTY, steps);
      key.table in a.db.columns && key.table in a.latest && a.db.columns[key.table] == a.latest[key.table]
  {
    RunKeepsInv(EMPTY, steps);
  }

  /** With no second delete due, columns are stored exactly for registered tables and for those abandoned. */
  lemma StoredExactlyWhen(steps: seq<Step>, k: TableKey)
    requires Possible(EMPTY, steps) && k !in Run(EMPTY, steps).pending
    ensures var a := Run(EMPTY, steps);
      k in a.db.columns <==> Registered(a.db.rows, k) || k in a.abandoned
  {
    RunKeepsInv(EMPTY, steps);
    var a := Run(EMPTY, steps);
    if Registered(a.db.rows, k) {
      var key :| key in a.db.rows && key.table == k;
    }
  }

  /**
   When two readers of a table replace the schema they both have, the one that comes second changes nothing,
   reports success all the same, and the columns are those of the first; unless the first kept the GTID.
   */
  lemma SecondOfTwoReadersIsSkippedExactlyWhen(d: Db, first: Replacement, second: Replacement)
    requires first.key == second.key && first.oldGtid == second.oldGtid != ""
    requires first.key in d.rows && d.rows[first.key].schemaGtid == first.oldGtid
    requires DistinctColumns(first.schema) && DistinctColumns(second.schema)
    requires first.schema != second.schema && second.schema != []
    ensures var after := ReplaceSchema(d, first).0;
      && ReplaceSchema(after, second).1
      && (ReplaceSchema(after, second).0 == after <==> first.row.schemaGtid != first.oldGtid)
  {
    var after := ReplaceSchema(d, first).0;
    var last := ReplaceSchema(after, second).0;
    if first.row.schemaGtid == first.oldGtid {
      assert last.columns[first.key.table] == second.schema;
      assert first.schema != [] ==> after.columns[first.key.table] == first.schema;
    }
  }

  /** A deregistration that dies between its statements leaves columns without a row. */
  lemma DyingBetweenDeletesLeavesColumns(r: Replacement)
    requires r.schema != [] && DistinctColumns(r.schema) && r.oldGtid == ""
    ensures var a := Run(EMPTY, [Replace(r), FirstDelete(r.key), Abandon(r.key.table)]);
      r.key.table in a.db.columns && !Registered(a.db.rows, r.key.table) && a.pending == multiset{}
  {
    var steps := [Replace(r), FirstDelete(r.key), Abandon(r.key.table)];
    var a1 := Next(EMPTY, steps[0]);
    assert a1.db == Db(map[r.key := r.row], map[r.key.table := r.schema]);
    var a2 := Next(a1, steps[1]);
    assert a2.db.rows == map[];
    assert steps[1..][0] == FirstDelete(r.key) && steps[1..][1..] == [Abandon(r.key.table)];
    assert [Abandon(r.key.table)][1..] == [];
    assert Run(EMPTY, steps) == Run(a2, [Abandon(r.key.table)]) == Next(a2, Abandon(r.key.table));
  }
}
