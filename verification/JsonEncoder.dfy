/** The JSON encoder of one table as an object updated in place (encoder/json.go). */
module JsonEncoder {
  import opened ColumnFilter
  import opened Options

  /** The names of the fields of an output schema. */
  function OutputNames(schema: Event): seq<string> {
    if schema.fields.Some? then NamesOf(schema.fields.value) else []
  }

  lemma GreedyAt(columns: seq<Column>, out: seq<string>, i: nat, m: nat)
    requires i < |columns|
    ensures Greedy(columns, out, i, m)
         == if m < |out| && columns[i].name == out[m] then Greedy(columns, out, i + 1, m + 1)
            else (if columns[i].primary then [] else [i]) + Greedy(columns, out, i + 1, m)
  {
  }

  lemma GreedyEnds(columns: seq<Column>, out: seq<string>, m: nat)
    ensures Greedy(columns, out, |columns|, m) == []
  {
  }

  lemma KeptAt<T>(filter: seq<nat>, xs: seq<T>, i: nat, j: nat)
    requires i < |xs|
    ensures Kept(filter, xs, i, j)
         == if Hit(filter, i, j) then Kept(filter, xs, i + 1, j + 1) else [xs[i]] + Kept(filter, xs, i + 1, j)
  {
  }

  lemma KeptEnds<T>(filter: seq<nat>, xs: seq<T>, j: nat)
    ensures Kept(filter, xs, |xs|, j) == []
  {
  }

  /** What the state has as output schema of the table. */
  datatype Stored = Absent | Undecodable | Decoded(event: Event)

  class JsonEncoder {
    var inSchema: Option<seq<Column>>
    var filter: seq<nat>
    var outSchema: Option<Event>

    constructor ()
      ensures inSchema == None && filter == [] && outSchema == None
    {
      inSchema, filter, outSchema := None, [], None;
    }

    /** filteredField: the cursor moves past an index it finds. */
    static method FilteredField(filter: seq<nat>, i: nat, j: nat) returns (filtered: bool, next: nat)
      ensures filtered == Hit(filter, i, j) && next == if filtered then j + 1 else j
    {
      if j < |filter| && filter[j] == i {
        return true, j + 1;
      }
      return false, j;
    }

    method PrepareFilter()
      requires inSchema.Some?
      modifies this`filter
      ensures filter == if outSchema.None? then old(filter)
                        else Prepared(inSchema.value, OutputNames(outSchema.value), old(filter))
    {
      if outSchema.None? {
        return;
      }
      var columns := inSchema.value;
      var out := OutputNames(outSchema.value);
      var nfiltered := |columns| - |out|;
      if nfiltered == 0 {
        return;
      }
      hide Greedy;
      filter := [];
      var i, j := 0, 0;
      while i < |columns|
        invariant 0 <= j <= i <= |columns|
        invariant filter + Greedy(columns, out, i, i - j) == Greedy(columns, out, 0, 0)
      {
        GreedyAt(columns, out, i, i - j);
        ghost var rest := Greedy(columns, out, i + 1, i - j);
        assert filter + ([i] + rest) == (filter + [i]) + rest && filter + ([] + rest) == filter + rest;
        if i - j >= |out| || columns[i].name != out[i - j] {
          if !columns[i].primary {
            filter := filter + [i];
          }
          j := j + 1;
        }
        i := i + 1;
      }
      GreedyEnds(columns, out, i - j);
    }

    /** UpdateCodec; `schema` is what GetSchema returns, nothing when it fails. */
    method UpdateCodec(schema: Option<seq<Column>>, stored: Stored) returns (ok: bool)
      modifies this
      ensures inSchema == if schema.Some? then schema else old(inSchema)
      ensures outSchema ==
        if schema.Some? && stored.Decoded? && stored.event.kind == Schema then Some(stored.event) else old(outSchema)
      ensures schema.None? || stored.Undecodable? ==> !ok && filter == old(filter)
      ensures schema.Some? && stored.Decoded? && stored.event.kind != Schema ==> ok && filter == old(filter)
      ensures schema.Some? && (stored.Absent? || (stored.Decoded? && stored.event.kind == Schema)) ==>
        && (ok <==> stored.Absent? || stored.event.fields.None? || |stored.event.fields.value| <= |schema.value|)
        && filter == if !ok || outSchema.None? then old(filter)
                     else Prepared(schema.value, OutputNames(outSchema.value), old(filter))
    {
      if schema.None? {
        return false;
      }
      inSchema := schema;
      if stored.Undecodable? {
        return false;
      }
      if stored.Decoded? {
        if stored.event.kind != Schema {
          return true;
        }
        outSchema := Some(stored.event);
        if stored.event.fields.Some? && |schema.value| - |stored.event.fields.value| < 0 {
          return false;
        }
      }
      PrepareFilter();
      return true;
    }

    static method FillCommonFormatKey(row: Option<Row>, columns: seq<Column>) returns (key: seq<Value>)
      requires row.Some? ==> |row.value| >= |columns|
      ensures key == KeyFrom(columns, row, 0)
    {
      key := [];
      var i := 0;
      while i < |columns|
        invariant 0 <= i <= |columns|
        invariant key + KeyFrom(columns, row, i) == KeyFrom(columns, row, 0)
      {
        if columns[i].primary {
          key := key + [if row.None? then Untyped(columns[i].name) else row.value[i]];
        }
        i := i + 1;
      }
    }

    static method FillCommonFormatFields(row: Option<Row>, columns: seq<Column>, filter: seq<nat>)
      returns (fields: seq<Field>)
      requires row.Some? ==> |row.value| >= |columns|
      ensures fields == Kept(filter, AllFields(columns, row), 0, 0)
    {
      hide Kept;
      fields := [];
      ghost var all := AllFields(columns, row);
      var i, j := 0, 0;
      while i < |columns|
        invariant 0 <= i <= |columns|
        invariant fields + Kept(filter, all, i, j) == Kept(filter, all, 0, 0)
      {
        KeptAt(filter, all, i, j);
        var filtered;
        filtered, j := FilteredField(filter, i, j);
        if !filtered {
          var v := if row.None? then Untyped(columns[i].columnType) else row.value[i];
          fields := fields + [Field(columns[i].name, v)];
        }
        i := i + 1;
      }
      KeptEnds(filter, all, j);
    }

    static method ConvertRow(kind: Kind, row: Option<Row>, columns: seq<Column>, seqNo: nat, time: int,
                             filter: seq<nat>) returns (e: Event)
      requires kind != Schema && row.Some? ==> |row.value| >= |columns|
      ensures e == Converted(kind, row, columns, seqNo, time, filter)
    {
      var image := if kind == Schema then None else row;
      var key := FillCommonFormatKey(image, columns);
      e := Event(seqNo, kind, time, key, None);
      if kind != Delete {
        var fields := FillCommonFormatFields(image, columns, filter);
        e := e.(fields := Some(fields));
      }
    }

    static method FilterCommonFormat(filter: seq<nat>, e: Event) returns (r: Event)
      ensures r == Filtered(filter, e)
    {
      if filter == [] || e.fields.None? || e.fields.value == [] {
        return e;
      }
      hide Kept;
      var all, fields := e.fields.value, [];
      var i, j := 0, 0;
      while i < |all|
        invariant 0 <= i <= |all|
        invariant fields + Kept(filter, all, i, j) == Kept(filter, all, 0, 0)
      {
        KeptAt(filter, all, i, j);
        var filtered;
        filtered, j := FilteredField(filter, i, j);
        if !filtered {
          fields := fields + [all[i]];
        }
        i := i + 1;
      }
      KeptEnds(filter, all, j);
      assert fields + [] == fields;
      r := e.(fields := Some(fields));
    }

    /** Row, before it is marshalled. */
    method EncodeRow(kind: Kind, row: Option<Row>, seqNo: nat, time: int) returns (e: Event)
      requires inSchema.Some? && (kind != Schema && row.Some? ==> |row.value| >= |inSchema.value|)
      ensures e == Filtered(filter, Converted(kind, row, inSchema.value, seqNo, time, []))
    {
      RowPathIsEventPath(kind, row, inSchema.value, seqNo, time, filter);
      e := ConvertRow(kind, row, inSchema.value, seqNo, time, filter);
    }

    /** fixFieldTypes on the fields and the key of a decoded event. */
    method FixFieldTypes(e: Event, undecodable: set<(string, string)>) returns (r: Option<Event>)
      ensures r == FixedEvent(inSchema, filter, undecodable, e)
    {
      if inSchema.None? || e.kind == Schema {
        return Some(e);
      }
      var columns := inSchema.value;
      var fixing := Fixing(e.fields, e.key);
      var i, j, k := 0, 0, 0;
      while i < |columns|
        invariant j <= i <= |columns|
        invariant FixFrom(columns, filter, undecodable, fixing, i, j, k)
               == FixFrom(columns, filter, undecodable, Fixing(e.fields, e.key), 0, 0, 0)
      {
        var filtered, next := FilteredField(filter, i, j);
        if !filtered {
          var fixed, k1 := FixColumn(columns[i], i - j, fixing, k, undecodable);
          if fixed.None? {
            return None;
          }
          fixing, k := fixed.value, k1;
        }
        i, j := i + 1, next;
      }
      r := Some(e.(fields := fixing.fields, key := fixing.key));
    }

    static method FixColumn(column: Column, p: nat, e: Fixing, k: nat, undecodable: set<(string, string)>)
      returns (r: Option<Fixing>, k1: nat)
      ensures FixAt(column, p, undecodable, e, k) == if r.None? then None else Some((r.value, k1))
    {
      var fields, key := e.fields, e.key;
      k1 := k;
      if fields.Some? && p < |fields.value| {
        var f := fields.value[p];
        var v := Fixed(f.value, column.dataType, undecodable);
        if v.None? {
          return None, k;
        }
        fields := Some(fields.value[p := f.(value := v.value)]);
      }
      if column.primary && k < |key| {
        var v := Fixed(key[k], column.dataType, undecodable);
        if v.None? {
          return None, k;
        }
        key, k1 := key[k := v.value], k + 1;
      }
      r := Some(Fixing(fields, key));
    }
  }
}
