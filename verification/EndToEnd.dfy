/**
 From the rows of the source to the rows of a keyed copy: the encoder's events are those the reader produces, and a
 snapshot with an overlapping stream behind it mirrors the source.
 */
module EndToEnd {
  import opened Convergence
  import Encoder = ColumnFilter
  import opened Options
  import opened RowEvents

  // ---------------------------------------------------------------------------------------------
  // Encoded events
  // ---------------------------------------------------------------------------------------------

  /** Which columns belong to the primary key. */
  function Flags(columns: seq<Encoder.Column>): (primary: Columns)
    ensures |primary| == |columns|
    ensures forall i :: 0 <= i < |columns| ==> primary[i] == columns[i].primary
  {
    seq(|columns|, i requires 0 <= i < |columns| => columns[i].primary)
  }

  function Values(fields: seq<Encoder.Field>): Row {
    seq(|fields|, i requires 0 <= i < |fields| => fields[i].value)
  }

  /** What an encoded event says, its time and the names of its fields apart. */
  function Plain(e: Encoder.Event): Event
    requires e.kind != Encoder.Schema
  {
    Event(if e.kind == Encoder.Insert then Insert else Delete, e.key,
      if e.fields.Some? then Some(Values(e.fields.value)) else None, e.seqNo)
  }

  function Encoded(kind: Kind): Encoder.Kind {
    if kind.Insert? then Encoder.Insert else Encoder.Delete
  }

  lemma {:induction false} KeysAgree(columns: seq<Encoder.Column>, row: Row, i: nat)
    requires |row| == |columns| && i <= |columns|
    ensures Encoder.KeyFrom(columns, Some(row), i) == KeyOf(Flags(columns)[i..], row[i..])
    decreases |columns| - i
  {
    if i < |columns| {
      KeysAgree(columns, row, i + 1);
      assert Flags(columns)[i..][1..] == Flags(columns)[i + 1..] && row[i..][1..] == row[i + 1..];
    }
  }

  /** Without a filter the encoder makes of each row image the event that the reader's translation stands for. */
  lemma EncodedEventIsProduced(columns: seq<Encoder.Column>, c: Change, seqNo: nat, time: int)
    requires |c.row| == |columns|
    ensures Plain(Encoder.Converted(Encoded(c.kind), Some(c.row), columns, seqNo, time, []))
         == EventOf(Flags(columns), c, seqNo)
  {
    KeysAgree(columns, c.row, 0);
    assert Flags(columns)[0..] == Flags(columns) && c.row[0..] == c.row;
    var all := Encoder.AllFields(columns, Some(c.row));
    Encoder.NothingFiltered(all, 0, 0);
    assert all[0..] == all;
    assert Values(all) == c.row;
  }

  // ---------------------------------------------------------------------------------------------
  // The stream as a log
  // ---------------------------------------------------------------------------------------------

  function EditOfChange(primary: Columns, c: Change): Edit
    requires |c.row| == |primary|
  {
    if c.kind.Insert? then Put(KeyOf(primary, c.row), c.row) else Drop(KeyOf(primary, c.row))
  }

  function EditsOfChanges(primary: Columns, changes: seq<Change>): seq<Edit>
    requires WellFormedChanges(primary, changes)
  {
    seq(|changes|, i requires 0 <= i < |changes| => EditOfChange(primary, changes[i]))
  }

  ghost predicate AllWellFormed(primary: Columns, events: seq<RowsEvent>) {
    forall k :: 0 <= k < |events| ==> WellFormed(primary, events[k])
  }

  /** What the events do to the table, whatever numbers they are sent under. */
  function LogOf(primary: Columns, events: seq<RowsEvent>): seq<Edit>
    requires AllWellFormed(primary, events)
    decreases |events|
  {
    if events == [] then []
    else
      assert WellFormed(primary, events[0]);
      EditsOfChanges(primary, Changes(events[0])) + LogOf(primary, events[1..])
  }

  lemma EmittedEdits(primary: Columns, changes: seq<Change>, n: nat)
    requires WellFormedChanges(primary, changes)
    ensures EditsOf(Emitted(primary, changes, n)) == EditsOfChanges(primary, changes)
  {
    hide KeyOf;
  }

  lemma EditsAppend(a: seq<Event>, b: seq<Event>)
    ensures EditsOf(a + b) == EditsOf(a) + EditsOf(b)
  {
  }

  /** All outputs get the same edits. */
  lemma {:induction false} StreamIsLog(primary: Columns, events: seq<RowsEvent>, bases: seq<nat>)
    requires AllWellFormed(primary, events) && |bases| == |events|
    ensures EditsOf(Stream(primary, events, bases)) == LogOf(primary, events)
    decreases |events|
  {
    hide Emitted, EditsOfChanges, EditOf;
    if events != [] {
      assert WellFormed(primary, events[0]);
      var changes := Changes(events[0]);
      var head, tail := Emitted(primary, changes, bases[0]), Stream(primary, events[1..], bases[1..]);
      StreamIsLog(primary, events[1..], bases[1..]);
      EmittedEdits(primary, changes, bases[0]);
      EditsAppend(head, tail);
    }
  }

  lemma {:induction false} LogAppend(primary: Columns, a: seq<RowsEvent>, b: seq<RowsEvent>)
    requires AllWellFormed(primary, a) && AllWellFormed(primary, b)
    ensures AllWellFormed(primary, a + b)
    ensures LogOf(primary, a + b) == LogOf(primary, a) + LogOf(primary, b)
    decreases |a|
  {
    if a == [] {
      assert a + b == b;
    } else {
      assert (a + b)[1..] == a[1..] + b;
      LogAppend(primary, a[1..], b);
    }
  }

  lemma {:induction false} PrefixAllowed(primary: Columns, rows: set<Row>, events: seq<RowsEvent>, k: nat)
    requires AllowedEvents(primary, rows, events) && k <= |events|
    ensures AllowedEvents(primary, rows, events[..k])
    decreases |events|
  {
    hide WellFormed, AllAllowed, ApplyOps, Ops;
    if k > 0 {
      assert events[..k][1..] == events[1..][..k - 1];
      PrefixAllowed(primary, ApplyOps(rows, Ops(events[0])), events[1..], k - 1);
    }
  }

  /** A table that was created empty is, after these events, what their edits make of an empty copy. */
  lemma LogMirrorsSource(primary: Columns, events: seq<RowsEvent>)
    requires AllowedEvents(primary, {}, events)
    ensures AllWellFormed(primary, events)
    ensures Mirrors(primary, Replay(map[], LogOf(primary, events)), SourceAfter({}, events))
  {
    var bases := seq(|events|, _ => 0);
    EveryStreamMirrorsSource(primary, map[], {}, events, bases);
    StreamIsLog(primary, events, bases);
    FoldIsReplay(map[], Stream(primary, events, bases));
  }

  lemma OneMirror(primary: Columns, a: Table, b: Table, rows: set<Row>)
    requires Mirrors(primary, a, rows) && Mirrors(primary, b, rows)
    ensures a == b
  {
    assert forall k :: k in a ==> k in b && a[k] == b[k];
    assert forall k :: k in b ==> k in a;
    assert a.Keys == b.Keys;
  }

  /**
   A snapshot of the source taken after k events, followed by what any output gets of the events from an earlier one
   on, gives a copy that mirrors the source rows after all events.
   */
  lemma SnapshotAndStreamMirrorSource(primary: Columns, events: seq<RowsEvent>, a: nat, k: nat, table: Table,
                                      snapshot: seq<Event>, bases: seq<nat>)
    requires AllowedEvents(primary, {}, events) && a <= k <= |events| && |bases| == |events| - a
    requires Mirrors(primary, table, SourceAfter({}, events[..k])) && SnapshotOf(snapshot, table)
    ensures AllWellFormed(primary, events[a..])
    ensures Mirrors(primary, Fold(map[], snapshot + Stream(primary, events[a..], bases)),
      SourceAfter({}, events))
  {
    hide Mirrors, WellFormed, AllowedEvents, SnapshotOf, SourceAfter, Replay;
    LogMirrorsSource(primary, events);
    PrefixAllowed(primary, {}, events, k);
    LogMirrorsSource(primary, events[..k]);
    var log, start, taken := LogOf(primary, events), LogOf(primary, events[..a]), LogOf(primary, events[..k]);
    assert events == events[..a] + events[a..] == events[..k] + events[k..];
    assert events[..k] == events[..a] + events[a..k];
    LogAppend(primary, events[..a], events[a..]);
    LogAppend(primary, events[..a], events[a..k]);
    LogAppend(primary, events[..k], events[k..]);
    assert log[..|taken|] == taken && log[..|log|] == log;
    OneMirror(primary, table, At(log, |taken|), SourceAfter({}, events[..k]));
    var buffered := Stream(primary, events[a..], bases);
    StreamIsLog(primary, events[a..], bases);
    var segments := [Segment(|start|, |log|)];
    assert segments[1..] == [] && Delivered(log, segments) == log[|start|..] + [];
    BootstrappedStreamConverges(log, segments, |start|, |taken|, |log|, snapshot, buffered);
  }
}
