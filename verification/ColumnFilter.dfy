/**
 The column filter of the JSON encoder: which columns it drops, and why encoding, filtering and decoding agree
 on it (encoder/json.go, filteredField in encoder/encoder.go). Functions on values; class JsonEncoder in
 JsonEncoder.dfy carries the operations out in place.
 */
module ColumnFilter {
  import opened Options

  /** A decoded value is Untyped until the type of its column is applied to it. */
  datatype Value = Null | Untyped(text: string) | Typed(text: string, dataType: string)

  datatype Column = Column(name: string, primary: bool, dataType: string, columnType: string)

  type Row = seq<Value>

  datatype Field = Field(name: string, value: Value)

  datatype Kind = Insert | Delete | Schema

  datatype Event = Event(seqNo: nat, kind: Kind, timestamp: int, key: seq<Value>, fields: Option<seq<Field>>)

  // ---------------------------------------------------------------------------------------------
  // Choosing the columns
  // ---------------------------------------------------------------------------------------------

  /** The columns from the i-th on that prepareFilter filters when m output fields are matched already. */
  function Greedy(columns: seq<Column>, out: seq<string>, i: nat, m: nat): seq<nat>
    requires i <= |columns|
    decreases |columns| - i
  {
    if i == |columns| then []
    else if m < |out| && columns[i].name == out[m] then Greedy(columns, out, i + 1, m + 1)
    else (if columns[i].primary then [] else [i]) + Greedy(columns, out, i + 1, m)
  }

  /** How many output fields are matched before column i is looked at. */
  function Matched(columns: seq<Column>, out: seq<string>, i: nat): (m: nat)
    requires i <= |columns|
    ensures m <= |out|
  {
    if i == 0 then 0
    else
      var m := Matched(columns, out, i - 1);
      if m < |out| && columns[i - 1].name == out[m] then m + 1 else m
  }

  predicate Dropped(columns: seq<Column>, out: seq<string>, i: nat)
    requires i < |columns|
  {
    var m := Matched(columns, out, i);
    !columns[i].primary && !(m < |out| && columns[i].name == out[m])
  }

  ghost predicate Increasing(filter: seq<nat>) {
    forall i, j :: 0 <= i < j < |filter| ==> filter[i] < filter[j]
  }

  lemma GreedyStep(columns: seq<Column>, out: seq<string>, i: nat)
    requires i < |columns|
    ensures Greedy(columns, out, i, Matched(columns, out, i))
         == (if Dropped(columns, out, i) then [i] else [])
            + Greedy(columns, out, i + 1, Matched(columns, out, i + 1))
  {
  }

  lemma PrependKeepsOrder(filter: seq<nat>, i: nat)
    requires Increasing(filter) && forall k: nat :: k in filter ==> i < k
    ensures Increasing([i] + filter) && forall k: nat :: k in [i] + filter <==> k == i || k in filter
  {
    assert forall k :: 0 <= k < |filter| ==> filter[k] in filter;
  }

  /** Greedy lists exactly the dropped columns, in order. */
  lemma {:induction false} GreedyListsDropped(columns: seq<Column>, out: seq<string>, i: nat)
    requires i <= |columns|
    ensures var filter := Greedy(columns, out, i, Matched(columns, out, i));
      && Increasing(filter)
      && forall k: nat :: k in filter <==> i <= k < |columns| && Dropped(columns, out, k)
    decreases |columns| - i
  {
    if i < |columns| {
      hide Dropped, Greedy, Matched, Increasing;
      GreedyListsDropped(columns, out, i + 1);
      GreedyStep(columns, out, i);
      var rest := Greedy(columns, out, i + 1, Matched(columns, out, i + 1));
      PrependKeepsOrder(rest, i);
      assert [] + rest == rest;
    }
  }

  predicate DistinctColumns(columns: seq<Column>) {
    forall i, j :: 0 <= i < j < |columns| ==> columns[i].name != columns[j].name
  }

  ghost predicate DistinctNames(out: seq<string>) {
    forall i, j :: 0 <= i < j < |out| ==> out[i] != out[j]
  }

  /** The filter of these columns for this output: the columns outside the key that the output does not have. */
  ghost predicate RightFilter(columns: seq<Column>, out: seq<string>, filter: seq<nat>) {
    && Increasing(filter)
    && forall k: nat :: k in filter <==> k < |columns| && !columns[k].primary && columns[k].name !in out
  }

  /** Where the elements of `out` stand in the first i columns, in order. */
  ghost predicate Positions(columns: seq<Column>, i: nat, out: seq<string>, positions: seq<nat>) {
    && |positions| == |out| && Increasing(positions)
    && forall p :: 0 <= p < |out| ==> positions[p] < i && positions[p] < |columns| && columns[positions[p]].name == out[p]
  }

  /** Whether `out` is the names of the columns with some of them left out. */
  ghost predicate Subsequence(out: seq<string>, columns: seq<Column>) {
    exists positions :: Positions(columns, |columns|, out, positions)
  }

  /** The fields of the output up to its last one that is a column outside the key. */
  function Needed(columns: seq<Column>, out: seq<string>): (n: nat)
    ensures n <= |out|
  {
    if out == [] then 0
    else if exists k: nat :: k < |columns| && !columns[k].primary && columns[k].name == out[|out| - 1] then |out|
    else Needed(columns, out[..|out| - 1])
  }

  lemma {:induction false} NeededIsLast(columns: seq<Column>, out: seq<string>, k: nat, p: nat)
    requires k < |columns| && !columns[k].primary && p < |out| && columns[k].name == out[p]
    ensures p < Needed(columns, out)
    decreases |out|
  {
    if p < |out| - 1 {
      NeededIsLast(columns, out[..|out| - 1], k, p);
    }
  }

  lemma {:induction false} NeededIsColumn(columns: seq<Column>, out: seq<string>) returns (k: nat)
    requires Needed(columns, out) > 0
    ensures k < |columns| && !columns[k].primary && columns[k].name == out[Needed(columns, out) - 1]
    decreases |out|
  {
    if j: nat :| j < |columns| && !columns[j].primary && columns[j].name == out[|out| - 1] {
      k := j;
    } else {
      k := NeededIsColumn(columns, out[..|out| - 1]);
    }
  }

  // ---------------------------------------------------------------------------------------------
  // When the choice is right
  // ---------------------------------------------------------------------------------------------

  /** Matching greedily finds the longest prefix of the output among the columns seen: it is found, ... */
  lemma {:induction false} MatchedPrefixIsThere(columns: seq<Column>, out: seq<string>, i: nat)
    returns (positions: seq<nat>)
    requires i <= |columns|
    ensures Positions(columns, i, out[..Matched(columns, out, i)], positions)
    decreases i
  {
    if i == 0 {
      positions := [];
    } else {
      positions := MatchedPrefixIsThere(columns, out, i - 1);
      if Matched(columns, out, i) > Matched(columns, out, i - 1) {
        positions := positions + [i - 1];
      }
    }
  }

  lemma {:induction false} MatchedGrows(columns: seq<Column>, out: seq<string>, i: nat, j: nat)
    requires i <= j <= |columns|
    ensures Matched(columns, out, i) <= Matched(columns, out, j)
    decreases j
  {
    if i < j {
      MatchedGrows(columns, out, i, j - 1);
    }
  }

  /** ... and no longer one is there. */
  lemma {:induction false} NoLongerPrefixIsThere(columns: seq<Column>, out: seq<string>, i: nat, p: nat,
                                                 positions: seq<nat>)
    requires i <= |columns| && p <= |out| && Positions(columns, i, out[..p], positions)
    ensures p <= Matched(columns, out, i)
    decreases p
  {
    if p > 0 {
      var q := positions[p - 1];
      assert Positions(columns, q, out[..p - 1], positions[..p - 1]);
      NoLongerPrefixIsThere(columns, out, q, p - 1, positions[..p - 1]);
      MatchedGrows(columns, out, q + 1, i);
    }
  }

  lemma NotMatchedBefore(columns: seq<Column>, out: seq<string>, k: nat)
    requires DistinctColumns(columns) && k < |columns|
    ensures forall p :: 0 <= p < Matched(columns, out, k) ==> out[p] != columns[k].name
  {
    var there := MatchedPrefixIsThere(columns, out, k);
    forall p | 0 <= p < Matched(columns, out, k)
      ensures out[p] != columns[k].name
    {
      assert columns[there[p]].name == out[p];
    }
  }

  /** A column the output has at p is matched when the output up to it is there. */
  lemma WantedColumnIsMatched(columns: seq<Column>, out: seq<string>, k: nat, p: nat, positions: seq<nat>)
    requires DistinctColumns(columns) && k < |columns| && p < |out| && columns[k].name == out[p]
    requires Positions(columns, |columns|, out[..p + 1], positions)
    ensures Matched(columns, out, k) == p
  {
    assert positions[p] == k;
    assert Positions(columns, k, out[..p], positions[..p]);
    NoLongerPrefixIsThere(columns, out, k, p, positions[..p]);
    NotMatchedBefore(columns, out, k);
  }

  lemma PrefixOfPositions(columns: seq<Column>, out: seq<string>, n: nat, p: nat, positions: seq<nat>)
    requires p <= n <= |out| && Positions(columns, |columns|, out[..n], positions)
    ensures Positions(columns, |columns|, out[..p], positions[..p])
  {
  }

  lemma SubsequenceGivesRightFilter(columns: seq<Column>, out: seq<string>, k: nat)
    requires DistinctColumns(columns) && Subsequence(out[..Needed(columns, out)], columns)
    requires k < |columns| && !columns[k].primary
    ensures Dropped(columns, out, k) <==> columns[k].name !in out
  {
    if columns[k].name in out {
      var p: nat :| p < |out| && out[p] == columns[k].name;
      NeededIsLast(columns, out, k, p);
      var n := Needed(columns, out);
      var positions :| Positions(columns, |columns|, out[..n], positions);
      PrefixOfPositions(columns, out, n, p + 1, positions);
      WantedColumnIsMatched(columns, out, k, p, positions[..p + 1]);
    }
  }

  lemma MatchedColumnGivesSubsequence(columns: seq<Column>, out: seq<string>, k: nat)
    requires k < |columns| && Matched(columns, out, k) < |out| && columns[k].name == out[Matched(columns, out, k)]
    ensures Subsequence(out[..Matched(columns, out, k) + 1], columns)
  {
    var positions := MatchedPrefixIsThere(columns, out, k + 1);
    assert Positions(columns, |columns|, out[..Matched(columns, out, k) + 1], positions);
  }

  lemma RightFilterGivesSubsequence(columns: seq<Column>, out: seq<string>)
    requires DistinctNames(out) && RightFilter(columns, out, Greedy(columns, out, 0, 0))
    ensures Subsequence(out[..Needed(columns, out)], columns)
  {
    hide Needed, Greedy, DistinctColumns, Matched, Increasing;
    var n := Needed(columns, out);
    if n == 0 {
      assert Positions(columns, |columns|, out[..n], []) by { EmptyPositions(columns, out); }
    } else {
      var k := NeededIsColumn(columns, out);
      DroppedIsInGreedy(columns, out, k);
      assert columns[k].name in out;
      assert Matched(columns, out, k) == n - 1;
      MatchedColumnGivesSubsequence(columns, out, k);
    }
  }

  lemma EmptyPositions(columns: seq<Column>, out: seq<string>)
    ensures Positions(columns, |columns|, out[..0], [])
  {
  }

  lemma DroppedIsInGreedy(columns: seq<Column>, out: seq<string>, k: nat)
    requires k < |columns|
    ensures k in Greedy(columns, out, 0, 0) <==> Dropped(columns, out, k)
  {
    hide Greedy, Increasing, Dropped;
    GreedyListsDropped(columns, out, 0);
    assert Matched(columns, out, 0) == 0;
  }

  /**
   prepareFilter's choice is right exactly when the output's fields, up to the last one that is a column
   outside the key, keep the order of the columns.
   */
  lemma FilterIsRightExactlyWhen(columns: seq<Column>, out: seq<string>)
    requires DistinctColumns(columns) && DistinctNames(out)
    ensures RightFilter(columns, out, Greedy(columns, out, 0, 0))
       <==> Subsequence(out[..Needed(columns, out)], columns)
  {
    GreedyListsDropped(columns, out, 0);
    if Subsequence(out[..Needed(columns, out)], columns) {
      forall k: nat | k < |columns| && !columns[k].primary
        ensures Dropped(columns, out, k) <==> columns[k].name !in out
      {
        SubsequenceGivesRightFilter(columns, out, k);
      }
    }
    if RightFilter(columns, out, Greedy(columns, out, 0, 0)) {
      RightFilterGivesSubsequence(columns, out);
    }
  }

  /** In particular when the output has some of the columns, in their order. */
  lemma SubsequenceSuffices(columns: seq<Column>, out: seq<string>)
    requires DistinctColumns(columns) && Subsequence(out, columns)
    ensures RightFilter(columns, out, Greedy(columns, out, 0, 0))
  {
    var positions :| Positions(columns, |columns|, out, positions);
    var n := Needed(columns, out);
    assert out[..|out|] == out;
    PrefixOfPositions(columns, out, |out|, n, positions);
    GreedyListsDropped(columns, out, 0);
    forall k: nat | k < |columns| && !columns[k].primary
      ensures Dropped(columns, out, k) <==> columns[k].name !in out
    {
      SubsequenceGivesRightFilter(columns, out, k);
    }
  }

  // ---------------------------------------------------------------------------------------------
  // A filter left over from an earlier schema
  // ---------------------------------------------------------------------------------------------

  /** prepareFilter: with as many columns as output fields the filter is left as it was. */
  function Prepared(columns: seq<Column>, out: seq<string>, before: seq<nat>): seq<nat> {
    if |columns| == |out| then before else Greedy(columns, out, 0, 0)
  }

  lemma {:induction false} IncreasingFillsUp(positions: seq<nat>, n: nat, p: nat)
    requires |positions| == n && Increasing(positions) && forall i :: 0 <= i < n ==> positions[i] < n
    requires p < n
    ensures p <= positions[p] && positions[p] <= p
    decreases p
  {
    LeastValue(positions, p);
    GreatestValue(positions, n, p);
  }

  lemma {:induction false} LeastValue(positions: seq<nat>, p: nat)
    requires Increasing(positions) && p < |positions|
    ensures p <= positions[p]
    decreases p
  {
    if p > 0 {
      LeastValue(positions, p - 1);
    }
  }

  lemma {:induction false} GreatestValue(positions: seq<nat>, n: nat, p: nat)
    requires Increasing(positions) && |positions| == n && p < n && forall i :: 0 <= i < n ==> positions[i] < n
    ensures positions[p] <= p
    decreases n - p
  {
    if p < n - 1 {
      GreatestValue(positions, n, p + 1);
    }
  }

  /** For an output that has some of the columns in order, a prepared filter is wrong exactly when it is stale. */
  lemma PreparedIsRightExactlyWhen(columns: seq<Column>, out: seq<string>, before: seq<nat>)
    requires DistinctColumns(columns) && Subsequence(out, columns)
    ensures RightFilter(columns, out, Prepared(columns, out, before))
       <==> |columns| != |out| || before == []
  {
    if |columns| != |out| {
      SubsequenceSuffices(columns, out);
    } else {
      var positions :| Positions(columns, |columns|, out, positions);
      forall k: nat | k < |columns|
        ensures columns[k].name in out
      {
        IncreasingFillsUp(positions, |columns|, k);
        assert out[k] == columns[k].name;
      }
      if before != [] {
        assert before[0] in before;
      }
    }
  }

  // ---------------------------------------------------------------------------------------------
  // Dropping the filtered fields
  // ---------------------------------------------------------------------------------------------

  /** filteredField: whether index i is filtered when the cursor is at j. */
  predicate Hit(filter: seq<nat>, i: nat, j: nat) {
    j < |filter| && filter[j] == i
  }

  /** What is left of xs from its i-th element on when the cursor is at j. */
  function Kept<T>(filter: seq<nat>, xs: seq<T>, i: nat, j: nat): seq<T>
    requires i <= |xs|
    decreases |xs| - i
  {
    if i == |xs| then []
    else if Hit(filter, i, j) then Kept(filter, xs, i + 1, j + 1)
    else [xs[i]] + Kept(filter, xs, i + 1, j)
  }

  /** The elements from the i-th on whose index is not in the filter. */
  function Others<T>(filter: seq<nat>, xs: seq<T>, i: nat): seq<T>
    requires i <= |xs|
    decreases |xs| - i
  {
    if i == |xs| then [] else (if i in filter then [] else [xs[i]]) + Others(filter, xs, i + 1)
  }

  /** The cursor stands behind the filtered indices below i. */
  ghost predicate CursorAt(filter: seq<nat>, i: nat, j: nat) {
    && j <= |filter|
    && (forall k :: 0 <= k < j ==> filter[k] < i)
    && (forall k :: j <= k < |filter| ==> filter[k] >= i)
  }

  lemma CursorMoves(filter: seq<nat>, i: nat, j: nat)
    requires Increasing(filter) && CursorAt(filter, i, j)
    ensures Hit(filter, i, j) <==> i in filter
    ensures CursorAt(filter, i + 1, if Hit(filter, i, j) then j + 1 else j)
  {
    if i in filter {
      var k :| 0 <= k < |filter| && filter[k] == i;
    }
  }

  /** One pass with a cursor drops exactly the filtered elements. */
  lemma {:induction false} CursorDropsFiltered<T>(filter: seq<nat>, xs: seq<T>, i: nat, j: nat)
    requires i <= |xs| && Increasing(filter) && CursorAt(filter, i, j)
    ensures Kept(filter, xs, i, j) == Others(filter, xs, i)
    decreases |xs| - i
  {
    if i < |xs| {
      CursorMoves(filter, i, j);
      CursorDropsFiltered(filter, xs, i + 1, if Hit(filter, i, j) then j + 1 else j);
    }
  }

  lemma {:induction false} NothingFiltered<T>(xs: seq<T>, i: nat, j: nat)
    requires i <= |xs|
    ensures Kept([], xs, i, j) == xs[i..]
    decreases |xs| - i
  {
    if i < |xs| {
      NothingFiltered(xs, i + 1, j);
    }
  }

  // ---------------------------------------------------------------------------------------------
  // Encoding
  // ---------------------------------------------------------------------------------------------

  /** The field of one column: its value, or its type in a schema event. */
  function FieldOf(column: Column, row: Option<Row>, i: nat): Field
    requires row.Some? ==> i < |row.value|
  {
    Field(column.name, if row.Some? then row.value[i] else Untyped(column.columnType))
  }

  function AllFields(columns: seq<Column>, row: Option<Row>): (fields: seq<Field>)
    requires row.Some? ==> |row.value| >= |columns|
    ensures |fields| == |columns|
    ensures forall i :: 0 <= i < |columns| ==> fields[i] == FieldOf(columns[i], row, i)
  {
    seq(|columns|, i requires 0 <= i < |columns| => FieldOf(columns[i], row, i))
  }

  /** The values of the key columns from the i-th on, or their names in a schema event. */
  function KeyFrom(columns: seq<Column>, row: Option<Row>, i: nat): seq<Value>
    requires i <= |columns| && (row.Some? ==> |row.value| >= |columns|)
    decreases |columns| - i
  {
    if i == |columns| then []
    else
      (if columns[i].primary then [if row.Some? then row.value[i] else Untyped(columns[i].name)] else [])
      + KeyFrom(columns, row, i + 1)
  }

  /** convertRowToCommonFormat: a schema event ignores the row, a delete has no fields. */
  function Converted(kind: Kind, row: Option<Row>, columns: seq<Column>, seqNo: nat, time: int, filter: seq<nat>)
    : Event
    requires kind != Schema && row.Some? ==> |row.value| >= |columns|
  {
    var image := if kind == Schema then None else row;
    Event(seqNo, kind, time, KeyFrom(columns, image, 0),
      if kind == Delete then None else Some(Kept(filter, AllFields(columns, image), 0, 0)))
  }

  /** filterCommonFormat */
  function Filtered(filter: seq<nat>, e: Event): Event {
    if filter == [] || e.fields.None? || e.fields.value == [] then e
    else e.(fields := Some(Kept(filter, e.fields.value, 0, 0)))
  }

  /** Encoding a row gives what filtering its unfiltered event gives, whatever the filter is. */
  lemma RowPathIsEventPath(kind: Kind, row: Option<Row>, columns: seq<Column>, seqNo: nat, time: int, filter: seq<nat>)
    requires kind != Schema && row.Some? ==> |row.value| >= |columns|
    ensures Converted(kind, row, columns, seqNo, time, filter)
         == Filtered(filter, Converted(kind, row, columns, seqNo, time, []))
  {
    var image := if kind == Schema then None else row;
    var all := AllFields(columns, image);
    NothingFiltered(all, 0, 0);
    assert all[0..] == all;
    if filter == [] {
    } else if all == [] {
      assert Kept(filter, all, 0, 0) == [];
    }
  }

  predicate MatchedAt(columns: seq<Column>, out: seq<string>, k: nat)
    requires k < |columns|
  {
    Matched(columns, out, k + 1) > Matched(columns, out, k)
  }

  ghost predicate KeyMatchedFrom(columns: seq<Column>, out: seq<string>, i: nat) {
    forall k: nat :: i <= k < |columns| && columns[k].primary ==> MatchedAt(columns, out, k)
  }

  function NamesOf(fields: seq<Field>): (names: seq<string>)
    ensures |names| == |fields|
    ensures forall i :: 0 <= i < |fields| ==> names[i] == fields[i].name
  {
    seq(|fields|, i requires 0 <= i < |fields| => fields[i].name)
  }

  /** From column i on the surviving fields are those of the output, and the key columns the output does not have. */
  ghost predicate Survivors(columns: seq<Column>, out: seq<string>, kept: seq<Field>, i: nat)
    requires i <= |columns|
  {
    var from, end := Matched(columns, out, i), Matched(columns, out, |columns|);
    && from <= end <= |out| && |kept| >= end - from
    && (|kept| == end - from <==> KeyMatchedFrom(columns, out, i))
    && (KeyMatchedFrom(columns, out, i) ==> NamesOf(kept) == out[from..end])
  }

  lemma KeyMatchedStep(columns: seq<Column>, out: seq<string>, i: nat)
    requires i < |columns|
    ensures KeyMatchedFrom(columns, out, i) <==>
      (columns[i].primary ==> MatchedAt(columns, out, i)) && KeyMatchedFrom(columns, out, i + 1)
  {
    hide MatchedAt;
  }

  lemma DroppedStays(columns: seq<Column>, out: seq<string>, kept: seq<Field>, i: nat)
    requires i < |columns| && Survivors(columns, out, kept, i + 1) && Dropped(columns, out, i)
    ensures Survivors(columns, out, kept, i)
  {
    KeyMatchedStep(columns, out, i);
    hide KeyMatchedFrom;
    assert Matched(columns, out, i + 1) == Matched(columns, out, i);
  }

  lemma KeptIsAdded(columns: seq<Column>, out: seq<string>, kept: seq<Field>, i: nat, field: Field)
    requires i < |columns| && Survivors(columns, out, kept, i + 1) && !Dropped(columns, out, i)
    requires field.name == columns[i].name
    ensures Survivors(columns, out, [field] + kept, i)
  {
    KeyMatchedStep(columns, out, i);
    hide KeyMatchedFrom;
    assert NamesOf([field] + kept) == [field.name] + NamesOf(kept);
    if MatchedAt(columns, out, i) {
      MatchedGrows(columns, out, i + 1, |columns|);
      assert out[Matched(columns, out, i)] == field.name;
    }
  }

  lemma {:induction false} SurvivorsFrom(columns: seq<Column>, out: seq<string>, fields: seq<Field>, i: nat)
    requires i <= |columns| == |fields| && forall k :: 0 <= k < |fields| ==> fields[k].name == columns[k].name
    ensures Survivors(columns, out, Others(Greedy(columns, out, 0, 0), fields, i), i)
    decreases |columns| - i
  {
    if i < |columns| {
      hide Greedy, Survivors, Dropped;
      SurvivorsFrom(columns, out, fields, i + 1);
      DroppedIsInGreedy(columns, out, i);
      var rest := Others(Greedy(columns, out, 0, 0), fields, i + 1);
      if Dropped(columns, out, i) {
        DroppedStays(columns, out, rest, i);
        assert [] + rest == rest;
      } else {
        KeptIsAdded(columns, out, rest, i, fields[i]);
      }
    } else {
      assert out[Matched(columns, out, i)..Matched(columns, out, i)] == [];
    }
  }

  lemma MatchedNothing(columns: seq<Column>, out: seq<string>)
    ensures Matched(columns, out, 0) == 0
  {
  }

  lemma AllOfOutputMatched(columns: seq<Column>, out: seq<string>)
    requires Subsequence(out, columns)
    ensures Matched(columns, out, |columns|) == |out|
  {
    var positions :| Positions(columns, |columns|, out, positions);
    assert out[..|out|] == out;
    NoLongerPrefixIsThere(columns, out, |columns|, |out|, positions);
  }

  lemma MatchedIfWanted(columns: seq<Column>, out: seq<string>, k: nat)
    requires DistinctColumns(columns) && Subsequence(out, columns) && k < |columns|
    ensures MatchedAt(columns, out, k) <==> columns[k].name in out
  {
    if columns[k].name in out {
      var p: nat :| p < |out| && out[p] == columns[k].name;
      var positions :| Positions(columns, |columns|, out, positions);
      assert out[..|out|] == out;
      PrefixOfPositions(columns, out, |out|, p + 1, positions);
      WantedColumnIsMatched(columns, out, k, p, positions[..p + 1]);
    }
  }

  /**
   An insert encoded for an output that has some of the columns in order has exactly the fields of the output, in
   the output's order, when and only when the output has the whole key; otherwise it has key fields besides.
   */
  lemma EncodedFieldsAreOutputExactlyWhen(columns: seq<Column>, out: seq<string>, row: Row, seqNo: nat, time: int)
    requires DistinctColumns(columns) && Subsequence(out, columns) && |row| == |columns|
    ensures NamesOf(Converted(Insert, Some(row), columns, seqNo, time, Greedy(columns, out, 0, 0)).fields.value) == out
       <==> forall k: nat :: k < |columns| && columns[k].primary ==> columns[k].name in out
  {
    hide Greedy, Matched, MatchedAt, Kept, Increasing;
    var filter, fields := Greedy(columns, out, 0, 0), AllFields(columns, Some(row));
    GreedyListsDropped(columns, out, 0);
    MatchedNothing(columns, out);
    CursorDropsFiltered(filter, fields, 0, 0);
    SurvivorsFrom(columns, out, fields, 0);
    AllOfOutputMatched(columns, out);
    forall k: nat | k < |columns|
      ensures MatchedAt(columns, out, k) <==> columns[k].name in out
    {
      MatchedIfWanted(columns, out, k);
    }
    assert out[0..|out|] == out;
  }

  lemma {:induction false} AllMatch(columns: seq<Column>, out: seq<string>, i: nat)
    requires i <= |columns| == |out| && forall k :: 0 <= k < |columns| ==> out[k] == columns[k].name
    ensures Greedy(columns, out, i, i) == []
    decreases |columns| - i
  {
    if i < |columns| {
      AllMatch(columns, out, i + 1);
    }
  }

  /**
   A table's schema event has the name and type of every column, in order, and the names of its key columns; with it
   as output schema nothing is filtered.
   */
  lemma SchemaEventDescribesTable(columns: seq<Column>, row: Option<Row>, seqNo: nat, time: int)
    ensures var e := Converted(Schema, row, columns, seqNo, time, []);
      && e.fields.Some? && |e.fields.value| == |columns|
      && (forall k :: 0 <= k < |columns| ==>
            e.fields.value[k] == Field(columns[k].name, Untyped(columns[k].columnType)))
      && Greedy(columns, NamesOf(e.fields.value), 0, 0) == []
      && forall v :: v in e.key <==> exists k: nat :: k < |columns| && columns[k].primary && v == Untyped(columns[k].name)
  {
    var e := Converted(Schema, row, columns, seqNo, time, []);
    NothingFiltered(AllFields(columns, None), 0, 0);
    AllMatch(columns, NamesOf(e.fields.value), 0);
    SchemaKey(columns, 0);
  }

  lemma {:induction false} SchemaKey(columns: seq<Column>, i: nat)
    requires i <= |columns|
    ensures forall v :: v in KeyFrom(columns, None, i) <==>
      exists k: nat :: i <= k < |columns| && columns[k].primary && v == Untyped(columns[k].name)
    decreases |columns| - i
  {
    if i < |columns| {
      SchemaKey(columns, i + 1);
    }
  }

  // ---------------------------------------------------------------------------------------------
  // Decoding
  // ---------------------------------------------------------------------------------------------

  /** fixField: `undecodable` are the texts that are not what their column's type demands. */
  function Fixed(v: Value, dataType: string, undecodable: set<(string, string)>): Option<Value> {
    match v
    case Untyped(text) => if (text, dataType) in undecodable then None else Some(Typed(text, dataType))
    case _ => Some(v)
  }

  /** The fields and the key of an event while fixFieldTypes goes over the columns; None after an error. */
  datatype Fixing = Fixing(fields: Option<seq<Field>>, key: seq<Value>)

  /** One column: the p-th field and the next key value take its type. */
  function FixAt(column: Column, p: nat, undecodable: set<(string, string)>, e: Fixing, k: nat)
    : (r: Option<(Fixing, nat)>)
  {
    var fields :=
      if e.fields.Some? && p < |e.fields.value| then
        var f := e.fields.value[p];
        match Fixed(f.value, column.dataType, undecodable)
        case None => None
        case Some(v) => Some(Some(e.fields.value[p := f.(value := v)]))
      else Some(e.fields);
    match fields
    case None => None
    case Some(fs) =>
      if column.primary && k < |e.key| then
        match Fixed(e.key[k], column.dataType, undecodable)
        case None => None
        case Some(v) => Some((Fixing(fs, e.key[k := v]), k + 1))
      else Some((Fixing(fs, e.key), k))
  }

  function FixFrom(columns: seq<Column>, filter: seq<nat>, undecodable: set<(string, string)>,
                   e: Fixing, i: nat, j: nat, k: nat): Option<Fixing>
    requires j <= i <= |columns|
    decreases |columns| - i
  {
    if i == |columns| then Some(e)
    else if Hit(filter, i, j) then FixFrom(columns, filter, undecodable, e, i + 1, j + 1, k)
    else
      match FixAt(columns[i], i - j, undecodable, e, k)
      case None => None
      case Some((next, k1)) => FixFrom(columns, filter, undecodable, next, i + 1, j, k1)
  }

  /** fixFieldTypes */
  function FixedEvent(columns: Option<seq<Column>>, filter: seq<nat>, undecodable: set<(string, string)>, e: Event)
    : Option<Event>
  {
    if columns.None? || e.kind == Schema then Some(e)
    else
      match FixFrom(columns.value, filter, undecodable, Fixing(e.fields, e.key), 0, 0, 0)
      case None => None
      case Some(f) => Some(e.(fields := f.fields, key := f.key))
  }

  /** The row with the type of its own column applied to every value that can take it. */
  function TypedRow(columns: seq<Column>, row: Row, undecodable: set<(string, string)>): (typed: Row)
    requires |row| == |columns|
    ensures |typed| == |row|
  {
    seq(|row|, i requires 0 <= i < |row| =>
      match Fixed(row[i], columns[i].dataType, undecodable)
      case Some(v) => v
      case None => row[i])
  }

  /** Whether every value of the event from column i on can take the type of its column. */
  predicate Fixable(columns: seq<Column>, filter: seq<nat>, undecodable: set<(string, string)>,
                    row: Row, withFields: bool, i: nat, j: nat)
    requires i <= |columns| == |row|
    decreases |columns| - i
  {
    if i == |columns| then true
    else if Hit(filter, i, j) then Fixable(columns, filter, undecodable, row, withFields, i + 1, j + 1)
    else
      && (withFields || columns[i].primary ==> Fixed(row[i], columns[i].dataType, undecodable).Some?)
      && Fixable(columns, filter, undecodable, row, withFields, i + 1, j)
  }

  ghost predicate KeepsKey(columns: seq<Column>, filter: seq<nat>) {
    forall i: nat :: i in filter && i < |columns| ==> !columns[i].primary
  }

  /** An event half way: `done` and `key` have their types, the rest is as it was encoded. */
  function HalfFixed(columns: seq<Column>, filter: seq<nat>, row: Row, done: Option<seq<Field>>, key: seq<Value>,
                     i: nat, j: nat): Fixing
    requires i <= |columns| == |row|
  {
    Fixing(
      match done case None => None case Some(d) => Some(d + Kept(filter, AllFields(columns, Some(row)), i, j)),
      key + KeyFrom(columns, Some(row), i))
  }

  lemma FixesField(columns: seq<Column>, filter: seq<nat>, undecodable: set<(string, string)>, row: Row,
                   done: seq<Field>, i: nat, j: nat, v: Value)
    requires j <= i < |columns| == |row| && !Hit(filter, i, j) && |done| == i - j
    ensures var all := AllFields(columns, Some(row));
      var fields := done + Kept(filter, all, i, j);
      && i - j < |fields| && fields[i - j] == all[i]
      && fields[i - j := all[i].(value := v)] == done + [all[i].(value := v)] + Kept(filter, all, i + 1, j)
  {
  }

  lemma FixesKey(columns: seq<Column>, row: Row, key: seq<Value>, i: nat, v: Value)
    requires i < |columns| == |row| && columns[i].primary
    ensures var all := key + KeyFrom(columns, Some(row), i);
      && |key| < |all| && all[|key|] == row[i]
      && all[|key| := v] == key + [v] + KeyFrom(columns, Some(row), i + 1)
  {
  }

  lemma NotInKey(columns: seq<Column>, row: Row, i: nat)
    requires i < |columns| == |row| && !columns[i].primary
    ensures KeyFrom(columns, Some(row), i) == KeyFrom(columns, Some(row), i + 1)
  {
  }

  lemma FixesColumn(columns: seq<Column>, filter: seq<nat>, undecodable: set<(string, string)>, row: Row,
                    done: Option<seq<Field>>, key: seq<Value>, i: nat, j: nat)
    requires j <= i < |columns| == |row| && !Hit(filter, i, j) && (done.Some? ==> |done.value| == i - j)
    ensures var e := HalfFixed(columns, filter, row, done, key, i, j);
      var fixed := Fixed(row[i], columns[i].dataType, undecodable);
      var typed := FieldOf(columns[i], Some(TypedRow(columns, row, undecodable)), i);
      var done1 := if done.Some? then Some(done.value + [typed]) else None;
      var key1 := if columns[i].primary then key + [typed.value] else key;
      FixAt(columns[i], i - j, undecodable, e, |key|) ==
        if (done.Some? || columns[i].primary) && fixed.None? then None
        else Some((HalfFixed(columns, filter, row, done1, key1, i + 1, j), |key1|))
  {
    hide Fixed;
    var fixed := Fixed(row[i], columns[i].dataType, undecodable);
    var v := if fixed.Some? then fixed.value else row[i];
    if done.Some? {
      FixesField(columns, filter, undecodable, row, done.value, i, j, v);
    }
    if columns[i].primary {
      FixesKey(columns, row, key, i, v);
    } else {
      NotInKey(columns, row, i);
    }
    var typed := FieldOf(columns[i], Some(TypedRow(columns, row, undecodable)), i);
    assert typed == AllFields(columns, Some(row))[i].(value := v);
  }

  /** From column i on every field and every key value gets the type of its own column, or there is an error. */
  lemma {:induction false} FixesTheRest(columns: seq<Column>, filter: seq<nat>, undecodable: set<(string, string)>,
                                        row: Row, done: Option<seq<Field>>, key: seq<Value>, i: nat, j: nat)
    requires j <= i <= |columns| == |row| && KeepsKey(columns, filter)
    requires done.Some? ==> |done.value| == i - j
    ensures FixFrom(columns, filter, undecodable, HalfFixed(columns, filter, row, done, key, i, j), i, j, |key|)
         == if Fixable(columns, filter, undecodable, row, done.Some?, i, j)
            then Some(HalfFixed(columns, filter, TypedRow(columns, row, undecodable), done, key, i, j))
            else None
    decreases |columns| - i
  {
    hide FixAt, TypedRow, Fixed;
    if i < |columns| {
      if Hit(filter, i, j) {
        assert filter[j] in filter;
        NotInKey(columns, row, i);
        NotInKey(columns, TypedRow(columns, row, undecodable), i);
        FixesTheRest(columns, filter, undecodable, row, done, key, i + 1, j + 1);
      } else {
        FixesColumn(columns, filter, undecodable, row, done, key, i, j);
        var typed := FieldOf(columns[i], Some(TypedRow(columns, row, undecodable)), i);
        var done1 := if done.Some? then Some(done.value + [typed]) else None;
        var key1 := if columns[i].primary then key + [typed.value] else key;
        FixesTheRest(columns, filter, undecodable, row, done1, key1, i + 1, j);
        NextColumn(columns, filter, TypedRow(columns, row, undecodable), done, key, i, j);
      }
    }
  }

  lemma NextColumn(columns: seq<Column>, filter: seq<nat>, row: Row, done: Option<seq<Field>>, key: seq<Value>,
                   i: nat, j: nat)
    requires j <= i < |columns| == |row| && !Hit(filter, i, j)
    ensures var typed := FieldOf(columns[i], Some(row), i);
      HalfFixed(columns, filter, row, done, key, i, j) ==
      HalfFixed(columns, filter, row, if done.Some? then Some(done.value + [typed]) else None,
        if columns[i].primary then key + [typed.value] else key, i + 1, j)
  {
    var typed := FieldOf(columns[i], Some(row), i);
    var all := AllFields(columns, Some(row));
    if done.Some? {
      assert done.value + Kept(filter, all, i, j) == done.value + [typed] + Kept(filter, all, i + 1, j);
    }
    if columns[i].primary {
      assert key + KeyFrom(columns, Some(row), i) == key + [row[i]] + KeyFrom(columns, Some(row), i + 1);
    } else {
      assert KeyFrom(columns, Some(row), i) == KeyFrom(columns, Some(row), i + 1);
    }
  }

  /** Decoding an event gives the event of the typed row, or fails when that cannot be. */
  lemma DecodesTypedRow(kind: Kind, row: Row, columns: seq<Column>, seqNo: nat, time: int, filter: seq<nat>,
                             undecodable: set<(string, string)>)
    requires kind != Schema && |row| == |columns| && KeepsKey(columns, filter)
    ensures FixedEvent(Some(columns), filter, undecodable, Converted(kind, Some(row), columns, seqNo, time, filter))
         == if Fixable(columns, filter, undecodable, row, kind == Insert, 0, 0)
            then Some(Converted(kind, Some(TypedRow(columns, row, undecodable)), columns, seqNo, time, filter))
            else None
  {
    hide TypedRow, FixFrom, Fixable;
    var done: Option<seq<Field>> := if kind == Insert then Some([]) else None;
    var typed := TypedRow(columns, row, undecodable);
    NothingDone(columns, filter, row, done);
    NothingDone(columns, filter, typed, done);
    FixesTheRest(columns, filter, undecodable, row, done, [], 0, 0);
  }

  lemma NothingDone(columns: seq<Column>, filter: seq<nat>, row: Row, done: Option<seq<Field>>)
    requires |row| == |columns| && (done.Some? ==> done.value == [])
    ensures HalfFixed(columns, filter, row, done, [], 0, 0)
         == Fixing(if done.Some? then Some(Kept(filter, AllFields(columns, Some(row)), 0, 0)) else None,
                   KeyFrom(columns, Some(row), 0))
  {
    assert [] + KeyFrom(columns, Some(row), 0) == KeyFrom(columns, Some(row), 0);
    assert [] + Kept(filter, AllFields(columns, Some(row)), 0, 0) == Kept(filter, AllFields(columns, Some(row)), 0, 0);
  }

  /** Whether a value is a text that is not what its column's type demands. */
  predicate CannotDecode(v: Value, column: Column, undecodable: set<(string, string)>) {
    v.Untyped? && (v.text, column.dataType) in undecodable
  }

  lemma {:induction false} FixableExactlyWhen(columns: seq<Column>, filter: seq<nat>, undecodable: set<(string, string)>,
                                              row: Row, withFields: bool, i: nat, j: nat)
    requires i <= |columns| == |row| && Increasing(filter) && CursorAt(filter, i, j) && KeepsKey(columns, filter)
    ensures Fixable(columns, filter, undecodable, row, withFields, i, j)
       <==> forall k: nat :: i <= k < |columns| && (columns[k].primary || (withFields && k !in filter)) ==>
              !CannotDecode(row[k], columns[k], undecodable)
    decreases |columns| - i
  {
    hide CursorAt, Increasing;
    if i < |columns| {
      CursorMoves(filter, i, j);
      FixableExactlyWhen(columns, filter, undecodable, row, withFields, i + 1, if Hit(filter, i, j) then j + 1 else j);
    }
  }

  /**
   Decoding fails exactly when a surviving field or a key value is a text that does not fit its own column. Else the
   event is that of `typed`, in which every text has the type of its own column and any other value is as it was.
   */
  lemma DecodingPairsColumns(kind: Kind, row: Row, columns: seq<Column>, seqNo: nat, time: int, filter: seq<nat>,
                             undecodable: set<(string, string)>)
    returns (typed: Row)
    requires kind != Schema && |row| == |columns| && KeepsKey(columns, filter) && Increasing(filter)
    ensures var decoded := FixedEvent(Some(columns), filter, undecodable,
                                      Converted(kind, Some(row), columns, seqNo, time, filter));
      && (decoded.None? <==> exists k: nat ::
            && k < |columns| && (columns[k].primary || (kind == Insert && k !in filter))
            && CannotDecode(row[k], columns[k], undecodable))
      && |typed| == |columns|
      && (decoded.Some? ==> decoded == Some(Converted(kind, Some(typed), columns, seqNo, time, filter)))
    ensures forall k: nat :: k < |columns| ==>
      typed[k] == if row[k].Untyped? && !CannotDecode(row[k], columns[k], undecodable)
                  then Typed(row[k].text, columns[k].dataType) else row[k]
  {
    hide FixedEvent, Converted, Increasing, KeepsKey, Fixable;
    typed := TypedRow(columns, row, undecodable);
    assert CursorAt(filter, 0, 0);
    DecodesTypedRow(kind, row, columns, seqNo, time, filter, undecodable);
    FixableExactlyWhen(columns, filter, undecodable, row, kind == Insert, 0, 0);
  }

  /** A right filter keeps the key, so events always carry it whole. */
  lemma RightFilterKeepsKey(columns: seq<Column>, out: seq<string>)
    ensures KeepsKey(columns, Greedy(columns, out, 0, 0))
  {
    GreedyListsDropped(columns, out, 0);
  }
}
