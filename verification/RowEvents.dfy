/**
 Row events of the binlog and the delete/insert events produced from them (handleRowsEvent,
 handleRowsEventLow and produceRow in changelog/mysql.go, fillCommonFormatKey in encoder/json.go).
 */
module RowEvents {
  import Encoder = ColumnFilter
  import opened Options
  import opened SwapRemoval

  type Value = Encoder.Value

  type Row = seq<Value>

  /** The values of the primary key columns, in column order. */
  type Key = seq<Value>

  datatype Kind = Insert | Delete

  /** One produceRow call: what to do with which row image. */
  datatype Change = Change(kind: Kind, row: Row)

  /** An event as produced; a delete carries no fields. */
  datatype Event = Event(kind: Kind, key: Key, fields: Option<Row>, seqNo: nat)

  /** A rows event; for an update the images come in pairs, before and after. */
  datatype RowsEvent = WriteRows(rows: seq<Row>) | DeleteRows(rows: seq<Row>) | UpdateRows(rows: seq<Row>) | Unsupported

  /** `primary[i]` says whether column i belongs to the primary key. */
  type Columns = seq<bool>

  function KeyOf(primary: Columns, row: Row): Key
    requires |row| == |primary|
  {
    if primary == [] then [] else (if primary[0] then [row[0]] else []) + KeyOf(primary[1..], row[1..])
  }

  /** Row images have a value for every column, and update images come in pairs. */
  ghost predicate WellFormed(primary: Columns, ev: RowsEvent) {
    ev.Unsupported? || (
      && (forall i :: 0 <= i < |ev.rows| ==> |ev.rows[i]| == |primary|)
      && (ev.UpdateRows? ==> |ev.rows| % 2 == 0))
  }

  ghost predicate WellFormedChanges(primary: Columns, changes: seq<Change>) {
    forall i :: 0 <= i < |changes| ==> |changes[i].row| == |primary|
  }

  // ---------------------------------------------------------------------------------------------
  // What is produced
  // ---------------------------------------------------------------------------------------------

  /** An update is a delete of the old image followed by an insert of the new one. */
  function Changes(ev: RowsEvent): (changes: seq<Change>) {
    match ev
    case WriteRows(rows) => seq(|rows|, i requires 0 <= i < |rows| => Change(Insert, rows[i]))
    case DeleteRows(rows) => seq(|rows|, i requires 0 <= i < |rows| => Change(Delete, rows[i]))
    case UpdateRows(rows) =>
      seq(|rows|, i requires 0 <= i < |rows| => Change(if i % 2 == 0 then Delete else Insert, rows[i]))
    case Unsupported => []
  }

  function EventOf(primary: Columns, c: Change, seqNo: nat): Event
    requires |c.row| == |primary|
  {
    Event(c.kind, KeyOf(primary, c.row), if c.kind.Insert? then Some(c.row) else None, seqNo)
  }

  /** The events of these changes when the last number used before them is n. */
  function Emitted(primary: Columns, changes: seq<Change>, n: nat): (events: seq<Event>)
    requires WellFormedChanges(primary, changes)
    ensures |events| == |changes|
    ensures forall i :: 0 <= i < |events| ==> events[i] == EventOf(primary, changes[i], n + 1 + i)
  {
    seq(|changes|, i requires 0 <= i < |changes| => EventOf(primary, changes[i], n + 1 + i))
  }

  /**
   What goes wrong, by the number of the event: `failing` numbers cannot be issued or their event not be encoded,
   events under `unpushed` numbers the pipe does not take, and from `shutdownAt` on the shutdown is seen.
   */
  datatype Faults = Faults(failing: set<nat>, unpushed: set<nat>, shutdownAt: Option<nat>)

  predicate ShuttingDown(faults: Faults, n: nat) {
    faults.shutdownAt.Some? && n >= faults.shutdownAt.value
  }

  /** Numbers for which produceRow returns an error: a failed push is none once the shutdown is seen. */
  predicate Refused(faults: Faults, n: nat) {
    n in faults.failing || (n in faults.unpushed && !ShuttingDown(faults, n))
  }

  /** The events of these that the pipe takes. */
  function Arrived(events: seq<Event>, unpushed: set<nat>): seq<Event> {
    if events == [] then []
    else (if events[0].seqNo in unpushed then [] else [events[0]]) + Arrived(events[1..], unpushed)
  }

  /** The list after what a reload swaps out of it while position i is handled. */
  function Reloaded(order: seq<nat>, reloads: map<nat, seq<nat>>, i: nat): (rest: seq<nat>)
    ensures |rest| <= |order|
  {
    if i in reloads then SwapOuts(order, reloads[i]) else order
  }

  /** The list when the loop over it comes to position i. */
  function OrderAt(order: seq<nat>, reloads: map<nat, seq<nat>>, i: nat): (rest: seq<nat>)
    ensures |rest| <= |order|
  {
    if i == 0 then order else Reloaded(OrderAt(order, reloads, i - 1), reloads, i - 1)
  }

  /** The outputs the loop handles from position i on, with the list as it is then. */
  function Visits(order: seq<nat>, reloads: map<nat, seq<nat>>, i: nat): seq<nat>
    decreases |order| - i
  {
    if i >= |order| then [] else [order[i]] + Visits(Reloaded(order, reloads, i), reloads, i + 1)
  }

  /**
   The reader for one table with several outputs and versions, each with its own stream; `order` is the table's list
   in the registry.
   */
  class Producer {
    const primary: Columns
    var order: seq<nat>
    var outputs: seq<seq<Event>>
    var seqNo: nat

    ghost predicate Valid()
      reads this
    {
      Distinct(order) && forall k :: 0 <= k < |order| ==> order[k] < |outputs|
    }

    constructor (primary: Columns, outputs: nat, seqNo: nat)
      ensures Valid() && this.primary == primary && this.seqNo == seqNo
      ensures this.outputs == seq(outputs, _ => []) && order == seq(outputs, i => i)
    {
      this.primary := primary;
      this.order := seq(outputs, i => i);
      this.outputs := seq(outputs, _ => []);
      this.seqNo := seqNo;
    }

    method ProduceRow(c: Change, i: nat, faults: Faults) returns (ok: bool)
      requires i < |outputs| && |c.row| == |primary|
      modifies this`outputs, this`seqNo
      ensures seqNo == old(seqNo) + 1 && ok == !Refused(faults, seqNo)
      ensures outputs ==
        if ok && seqNo !in faults.unpushed then old(outputs)[i := old(outputs)[i] + [EventOf(primary, c, seqNo)]]
        else old(outputs)
    {
      seqNo := seqNo + 1;
      if seqNo in faults.failing {
        return false;
      }
      var pushed := seqNo !in faults.unpushed;
      if pushed {
        outputs := outputs[i := outputs[i] + [EventOf(primary, c, seqNo)]];
      }
      if ShuttingDown(faults, seqNo) {
        return true;
      }
      return pushed;
    }

    /** WRITE_ROWS: an insert for each image. */
    method ProduceWrites(rows: seq<Row>, i: nat, faults: Faults) returns (ok: bool, ghost done: nat)
      requires i < |outputs| && WellFormed(primary, WriteRows(rows))
      modifies this`outputs, this`seqNo
      ensures ProducedUpTo(primary, old(outputs), outputs, old(seqNo), seqNo, i, Changes(WriteRows(rows)), done, ok, faults)
    {
      ghost var changes := Changes(WriteRows(rows));
      done, ok := 0, true;
      AfterNothing(primary, outputs, seqNo, i, changes, faults.unpushed);
      var k := 0;
      while k < |rows| && ok
        invariant 0 <= k <= |rows| && done <= k && (ok ==> done == k)
        invariant outputs == After(primary, old(outputs), old(seqNo), i, changes, done, faults.unpushed)
        invariant seqNo == old(seqNo) + done + (if ok then 0 else 1)
        invariant NoneRefused(faults, old(seqNo), old(seqNo) + done)
        invariant !ok ==> done < |changes| && Refused(faults, seqNo)
        decreases |rows| - k
      {
        AfterOne(primary, old(outputs), old(seqNo), i, changes, done, faults);
        ok := ProduceRow(Change(Insert, rows[k]), i, faults);
        done := if ok then done + 1 else done;
        k := k + 1;
      }
    }

    /** DELETE_ROWS: a delete for each image. */
    method ProduceDeletes(rows: seq<Row>, i: nat, faults: Faults) returns (ok: bool, ghost done: nat)
      requires i < |outputs| && WellFormed(primary, DeleteRows(rows))
      modifies this`outputs, this`seqNo
      ensures ProducedUpTo(primary, old(outputs), outputs, old(seqNo), seqNo, i, Changes(DeleteRows(rows)), done, ok, faults)
    {
      ghost var changes := Changes(DeleteRows(rows));
      done, ok := 0, true;
      AfterNothing(primary, outputs, seqNo, i, changes, faults.unpushed);
      var k := 0;
      while k < |rows| && ok
        invariant 0 <= k <= |rows| && done <= k && (ok ==> done == k)
        invariant outputs == After(primary, old(outputs), old(seqNo), i, changes, done, faults.unpushed)
        invariant seqNo == old(seqNo) + done + (if ok then 0 else 1)
        invariant NoneRefused(faults, old(seqNo), old(seqNo) + done)
        invariant !ok ==> done < |changes| && Refused(faults, seqNo)
        decreases |rows| - k
      {
        AfterOne(primary, old(outputs), old(seqNo), i, changes, done, faults);
        ok := ProduceRow(Change(Delete, rows[k]), i, faults);
        done := if ok then done + 1 else done;
        k := k + 1;
      }
    }

    /** UPDATE_ROWS: a delete of each before image and an insert of the after image. */
    method ProduceUpdates(rows: seq<Row>, i: nat, faults: Faults) returns (ok: bool, ghost done: nat)
      requires i < |outputs| && WellFormed(primary, UpdateRows(rows))
      modifies this`outputs, this`seqNo
      ensures ProducedUpTo(primary, old(outputs), outputs, old(seqNo), seqNo, i, Changes(UpdateRows(rows)), done, ok, faults)
    {
      hide EventOf, Refused, ShuttingDown, After;
      ghost var changes := Changes(UpdateRows(rows));
      done, ok := 0, true;
      AfterNothing(primary, outputs, seqNo, i, changes, faults.unpushed);
      var k := 0;
      while k < |rows| && ok
        invariant 0 <= k <= |rows| && k % 2 == 0 && done <= k && (ok ==> done == k)
        invariant outputs == After(primary, old(outputs), old(seqNo), i, changes, done, faults.unpushed)
        invariant seqNo == old(seqNo) + done + (if ok then 0 else 1)
        invariant NoneRefused(faults, old(seqNo), old(seqNo) + done)
        invariant !ok ==> done < |changes| && Refused(faults, seqNo)
        decreases |rows| - k
      {
        AfterOne(primary, old(outputs), old(seqNo), i, changes, done, faults);
        ok := ProduceRow(Change(Delete, rows[k]), i, faults);
        done := if ok then done + 1 else done;
        if ok {
          AfterOne(primary, old(outputs), old(seqNo), i, changes, done, faults);
          ok := ProduceRow(Change(Insert, rows[k + 1]), i, faults);
          done := if ok then done + 1 else done;
        }
        k := k + 2;
      }
    }

    /** One event for one output. */
    method HandleRowsEventLow(ev: RowsEvent, i: nat, faults: Faults) returns (ok: bool, ghost done: nat)
      requires i < |outputs| && WellFormed(primary, ev)
      modifies this`outputs, this`seqNo
      ensures ev.Unsupported? ==> !ok && done == 0 && outputs == old(outputs) && seqNo == old(seqNo)
      ensures !ev.Unsupported? ==> ProducedUpTo(primary, old(outputs), outputs, old(seqNo), seqNo, i, Changes(ev), done, ok, faults)
    {
      match ev
      case WriteRows(rows) => ok, done := ProduceWrites(rows, i, faults);
      case DeleteRows(rows) => ok, done := ProduceDeletes(rows, i, faults);
      case UpdateRows(rows) => ok, done := ProduceUpdates(rows, i, faults);
      case Unsupported => ok, done := false, 0;
    }

    /** What a reload does to the list of this table: entries are swapped out one after the other. */
    method SwapOutEntries(picks: seq<nat>)
      modifies this`order
      ensures order == SwapOuts(old(order), picks)
    {
      var i := 0;
      while i < |picks|
        invariant 0 <= i <= |picks| && SwapOuts(old(order), picks) == SwapOuts(order, picks[i..])
      {
        assert picks[i..][0] == picks[i] && picks[i..][1..] == picks[i + 1..];
        if picks[i] < |order| {
          order := SwapOut(order, picks[i]);
        }
        i := i + 1;
      }
    }

    /** What a reload of the state under position i does to the list. */
    method Reload(reloads: map<nat, seq<nat>>, i: nat)
      modifies this`order
      ensures order == Reloaded(old(order), reloads, i)
    {
      if i in reloads {
        SwapOutEntries(reloads[i]);
      }
    }

    /**
     Every output the loop comes to gets what arrives of the event's changes, under numbers of its own; a number may
     make the reader reload its state, which swaps outputs out of the list under the loop. The result is true exactly
     when no number is refused; then all these outputs have every change exactly when no push failed.
     */
    method HandleRowsEvent(ev: RowsEvent, faults: Faults, reloads: map<nat, seq<nat>>)
      returns (ok: bool, ghost at: nat, ghost done: nat)
      requires WellFormed(primary, ev) && Valid()
      modifies this
      ensures Valid() && WellFormedChanges(primary, Changes(ev)) && |outputs| == |old(outputs)|
      ensures var v, n := Visits(old(order), reloads, 0), old(seqNo);
        && (ok <==> v == [] || (!ev.Unsupported? && NoneRefused(faults, n, Base(n, |v|, |Changes(ev)|))))
        && (ok ==> order == OrderAt(old(order), reloads, |v|)
                   && Succeeded(primary, old(outputs), outputs, n, seqNo, Changes(ev), v, faults))
        && (!ok ==> at < |v| && order == OrderAt(old(order), reloads, at + 1)
                    && Stopped(primary, old(outputs), outputs, n, seqNo, ev, v, at, done, faults))
      ensures ok && !NonePushedInVain(faults, old(seqNo), seqNo) ==> ShuttingDown(faults, seqNo)
    {
      hide InLoop, Stopped, Succeeded, Visits, OrderAt, Distinct, ProducedUpTo, NoneRefused, NonePushedInVain;
      ghost var start, n, list := outputs, seqNo, order;
      LoopStarts(primary, start, n, ev, list, reloads, faults);
      var i := 0;
      while i < |order|
        invariant 0 <= i && Valid() && |outputs| == |start|
        invariant InLoop(primary, start, outputs, n, seqNo, ev, list, order, reloads, i, faults)
        decreases |order| - i
      {
        ghost var before, number, was := outputs, seqNo, order;
        var t := order[i];
        ListStaysValid(order, reloads, i, |outputs|);
        Reload(reloads, i);
        ok, done := HandleRowsEventLow(ev, t, faults);
        at := i;
        LoopStep(primary, start, before, outputs, n, number, seqNo, ev, list, was, reloads, i, t, ok, done, faults);
        if !ok {
          return false, at, done;
        }
        i := i + 1;
      }
      LoopEnds(primary, start, outputs, n, seqNo, ev, list, order, reloads, i, faults);
      return true, i, 0;
    }
  }

  /** Output i got what arrived of the first `done` changes: all of them, or those before the first error. */
  ghost predicate ProducedUpTo(primary: Columns, before: seq<seq<Event>>, now: seq<seq<Event>>, n: nat, number: nat,
                               i: nat, changes: seq<Change>, done: nat, ok: bool, faults: Faults)
  {
    && WellFormedChanges(primary, changes) && done <= |changes| && i < |before|
    && now == After(primary, before, n, i, changes, done, faults.unpushed)
    && number == n + done + (if ok then 0 else 1)
    && NoneRefused(faults, n, n + done)
    && (if ok then done == |changes| else done < |changes| && Refused(faults, number))
  }

  /** The outputs in v have what arrived, which is everything exactly when no push failed. */
  ghost predicate Succeeded(primary: Columns, start: seq<seq<Event>>, now: seq<seq<Event>>, n: nat, number: nat,
                            changes: seq<Change>, v: seq<nat>, faults: Faults)
    requires WellFormedChanges(primary, changes)
  {
    && number == Base(n, |v|, |changes|)
    && OutputsDone(primary, start, now, n, changes, v, faults.unpushed)
    && (OutputsDone(primary, start, now, n, changes, v, {}) <==> NonePushedInVain(faults, n, number))
  }

  /** The outputs before number `at` of v are done, this one up to a refused number, or the event is unsupported. */
  ghost predicate Stopped(primary: Columns, start: seq<seq<Event>>, now: seq<seq<Event>>, n: nat, number: nat,
                          ev: RowsEvent, v: seq<nat>, at: nat, done: nat, faults: Faults)
    requires WellFormedChanges(primary, Changes(ev))
  {
    && at < |v| && done <= |Changes(ev)|
    && StoppedIn(primary, start, now, n, Changes(ev), v[..at], v[at], done, faults.unpushed)
    && (if ev.Unsupported? then number == n && at == 0
        else done < |Changes(ev)| && number == Base(n, at, |Changes(ev)|) + done + 1 && Refused(faults, number))
  }

  /** The loop at position i: the outputs visited before are done. */
  ghost predicate InLoop(primary: Columns, start: seq<seq<Event>>, now: seq<seq<Event>>, n: nat, number: nat,
                         ev: RowsEvent, list: seq<nat>, order: seq<nat>, reloads: map<nat, seq<nat>>, i: nat,
                         faults: Faults)
  {
    var v := Visits(list, reloads, 0);
    && WellFormedChanges(primary, Changes(ev)) && Distinct(v) && |start| == |now|
    && i <= |v| && v == v[..i] + Visits(order, reloads, i) && order == OrderAt(list, reloads, i)
    && number == Base(n, i, |Changes(ev)|) && n <= number
    && OutputsDone(primary, start, now, n, Changes(ev), v[..i], faults.unpushed)
    && NoneRefused(faults, n, number) && (i > 0 ==> !ev.Unsupported?)
  }

  lemma LoopStarts(primary: Columns, start: seq<seq<Event>>, n: nat, ev: RowsEvent, list: seq<nat>,
                   reloads: map<nat, seq<nat>>, faults: Faults)
    requires WellFormed(primary, ev) && Distinct(list)
    ensures InLoop(primary, start, start, n, n, ev, list, list, reloads, 0, faults)
  {
    hide Visits, Distinct;
    VisitsAreDistinct(list, reloads, 0);
    var v := Visits(list, reloads, 0);
    assert v[..0] == [] && v == [] + v;
  }

  lemma LoopStep(primary: Columns, start: seq<seq<Event>>, before: seq<seq<Event>>, now: seq<seq<Event>>, n: nat,
                 number: nat, next: nat, ev: RowsEvent, list: seq<nat>, order: seq<nat>,
                 reloads: map<nat, seq<nat>>, i: nat, t: nat, ok: bool, done: nat, faults: Faults)
    requires InLoop(primary, start, before, n, number, ev, list, order, reloads, i, faults)
    requires i < |order| && t == order[i] < |before|
    requires ev.Unsupported? ==> !ok && done == 0 && now == before && next == number
    requires !ev.Unsupported? ==> ProducedUpTo(primary, before, now, number, next, t, Changes(ev), done, ok, faults)
    ensures |now| == |start|
    ensures var rest := Reloaded(order, reloads, i);
      && WellFormedChanges(primary, Changes(ev)) && rest == OrderAt(list, reloads, i + 1)
      && (ok ==> InLoop(primary, start, now, n, next, ev, list, rest, reloads, i + 1, faults))
    ensures var v := Visits(list, reloads, 0);
      !ok ==>
        && i < |v| && Stopped(primary, start, now, n, next, ev, v, i, done, faults)
        && (ev.Unsupported? || !NoneRefused(faults, n, Base(n, |v|, |Changes(ev)|)))
  {
    assert Base(n, 0, |Changes(ev)|) == n;
    hide Visits, OrderAt, Reloaded, OutputsDone, StoppedIn, Refused, NoneRefused, Base, After, Distinct, Changes;
    var v, changes := Visits(list, reloads, 0), Changes(ev);
    NextVisit(v, v[..i], order, reloads, i);
    OrderNext(list, reloads, i);
    assert v[..i + 1] == v[..i] + [t];
    AfterNothing(primary, before, number, t, changes, faults.unpushed);
    OneOutputDone(primary, start, before, n, changes, v[..i], t, done, faults.unpushed);
    BaseNext(n, i, |changes|);
    if ok {
      RefusedUpTo(faults, n, number, next);
    } else {
      RefusalCounts(faults, n, |v|, |changes|, i, done, next);
    }
  }

  lemma LoopEnds(primary: Columns, start: seq<seq<Event>>, now: seq<seq<Event>>, n: nat, number: nat, ev: RowsEvent,
                 list: seq<nat>, order: seq<nat>, reloads: map<nat, seq<nat>>, i: nat, faults: Faults)
    requires InLoop(primary, start, now, n, number, ev, list, order, reloads, i, faults) && i >= |order|
    ensures var v := Visits(list, reloads, 0);
      && |v| == i && order == OrderAt(list, reloads, |v|) && WellFormedChanges(primary, Changes(ev))
      && Succeeded(primary, start, now, n, number, Changes(ev), v, faults)
      && (v == [] || (!ev.Unsupported? && NoneRefused(faults, n, Base(n, |v|, |Changes(ev)|))))
    ensures !NonePushedInVain(faults, n, number) ==> ShuttingDown(faults, number)
  {
    hide OrderAt, OutputsDone, Base, Distinct, Changes, NoneRefused, NonePushedInVain;
    var v := Visits(list, reloads, 0);
    assert Visits(order, reloads, i) == [] && v[..i] + [] == v[..i];
    assert v == v[..i];
    CompleteExactlyWhen(primary, start, now, n, Changes(ev), v, faults);
    SeenByTheEnd(faults, n, number);
  }

  lemma RefusalCounts(faults: Faults, n: nat, outputs: nat, count: nat, at: nat, done: nat, number: nat)
    requires at < outputs
    ensures done < count && number == Base(n, at, count) + done + 1 && Refused(faults, number) ==>
      !NoneRefused(faults, n, Base(n, outputs, count))
  {
    BaseOrder(n, at, outputs, count);
    BaseOrder(n, 0, at, count);
  }

  lemma RefusedUpTo(faults: Faults, n: nat, m: nat, to: nat)
    requires NoneRefused(faults, n, m) && n <= m <= to
    ensures NoneRefused(faults, m, to) ==> NoneRefused(faults, n, to)
  {
  }

  // ---------------------------------------------------------------------------------------------
  // The list of outputs
  // ---------------------------------------------------------------------------------------------

  lemma {:induction false} VisitsAreBehind(order: seq<nat>, reloads: map<nat, seq<nat>>, i: nat, k: nat) returns (q: nat)
    requires k < |Visits(order, reloads, i)|
    ensures i <= q < |order| && Visits(order, reloads, i)[k] == order[q]
    ensures k > 0 ==> q > i
    decreases |order| - i
  {
    if k == 0 {
      q := i;
    } else {
      q := VisitsAreBehind(Reloaded(order, reloads, i), reloads, i + 1, k - 1);
      if i in reloads {
        q := MovesToFront(order, reloads[i], q);
      }
    }
  }

  /** However the list changes, the loop comes to no output twice. */
  lemma {:induction false} VisitsAreDistinct(order: seq<nat>, reloads: map<nat, seq<nat>>, i: nat)
    requires Distinct(order)
    ensures Distinct(Visits(order, reloads, i))
    decreases |order| - i
  {
    if i < |order| {
      var next, v := Reloaded(order, reloads, i), Visits(order, reloads, i);
      if i in reloads {
        StaysDistinct(order, reloads[i]);
      }
      VisitsAreDistinct(next, reloads, i + 1);
      forall k | 0 < k < |v|
        ensures v[k] != v[0]
      {
        var q := VisitsAreBehind(order, reloads, i, k);
      }
      assert forall k :: 0 < k < |v| ==> v[k] == Visits(next, reloads, i + 1)[k - 1];
    }
  }

  lemma OrderNext(order: seq<nat>, reloads: map<nat, seq<nat>>, i: nat)
    ensures OrderAt(order, reloads, i + 1) == Reloaded(OrderAt(order, reloads, i), reloads, i)
  {
  }

  lemma NextVisit(v: seq<nat>, seen: seq<nat>, order: seq<nat>, reloads: map<nat, seq<nat>>, i: nat)
    requires i == |seen| < |order| && v == seen + Visits(order, reloads, i) && Distinct(v)
    ensures v == (seen + [order[i]]) + Visits(Reloaded(order, reloads, i), reloads, i + 1)
    ensures i < |v| && v[..i] == seen && v[i] == order[i] && order[i] !in seen
  {
    assert v[i] == order[i];
    forall k | 0 <= k < i
      ensures seen[k] != order[i]
    {
      assert seen[k] == v[k];
    }
  }

  lemma ListStaysValid(order: seq<nat>, reloads: map<nat, seq<nat>>, i: nat, outputs: nat)
    requires Distinct(order) && forall k :: 0 <= k < |order| ==> order[k] < outputs
    ensures var next := Reloaded(order, reloads, i);
      Distinct(next) && forall k :: 0 <= k < |next| ==> next[k] < outputs
  {
    if i in reloads {
      StaysDistinct(order, reloads[i]);
      var next: seq<nat> := SwapOuts(order, reloads[i]);
      forall k: nat | k < |next|
        ensures next[k] < outputs
      {
        var q := MovesToFront(order, reloads[i], k);
      }
    }
  }

  lemma {:induction false} VisitsWithoutReload(order: seq<nat>, reloads: map<nat, seq<nat>>, i: nat)
    requires i <= |order| && forall j :: i <= j ==> j !in reloads
    ensures Visits(order, reloads, i) == order[i..]
    decreases |order| - i
  {
    if i < |order| {
      VisitsWithoutReload(order, reloads, i + 1);
    }
  }

  lemma {:induction false} VisitsOneReload(order: seq<nat>, at: nat, picks: seq<nat>, i: nat)
    requires i <= at < |order|
    ensures var rest := SwapOuts(order, picks);
      Visits(order, map[at := picks], i) == order[i..at + 1] + if at + 1 <= |rest| then rest[at + 1..] else []
    decreases at - i
  {
    hide SwapOuts;
    var reloads, rest := map[at := picks], SwapOuts(order, picks);
    if i < at {
      VisitsOneReload(order, at, picks, i + 1);
      assert order[i..at + 1] == [order[i]] + order[i + 1..at + 1];
      assert Reloaded(order, reloads, i) == order;
    } else {
      assert Reloaded(order, reloads, i) == rest && order[i..at + 1] == [order[i]];
      if at + 1 <= |rest| {
        VisitsWithoutReload(rest, reloads, at + 1);
      }
    }
  }

  /**
   Entries are swapped out of the list while the output at position `at` is handled. Of the outputs that stay in it
   the loop passes over as many as were removed up to there, or all behind if they are fewer.
   */
  lemma ReloadPassesOver(order: seq<nat>, at: nat, picks: seq<nat>)
    requires Distinct(order) && at < |order|
    ensures var rest := SwapOuts(order, picks);
      var missed := Elements(rest) - Elements(Visits(order, map[at := picks], 0));
      && missed <= Behind(order, at, rest)
      && |missed| == Min(|Gone(order, at, rest)|, |Behind(order, at, rest)|)
  {
    hide SwapOuts, Elements;
    VisitsOneReload(order, at, picks, 0);
    assert order[0..at + 1] == order[..at + 1];
    MissedExactly(order, picks, at);
  }

  /** Every output is handled exactly when nothing up to the current one is removed, or nothing behind it stays. */
  lemma NothingPassedOverExactlyWhen(order: seq<nat>, at: nat, picks: seq<nat>)
    requires Distinct(order) && at < |order|
    ensures var rest := SwapOuts(order, picks);
      (Elements(rest) <= Elements(Visits(order, map[at := picks], 0)))
      <==> (Gone(order, at, rest) == {} || Behind(order, at, rest) == {})
  {
    hide SwapOuts, Visits, Elements, Gone, Behind;
    ReloadPassesOver(order, at, picks);
    var rest := SwapOuts(order, picks);
    NoneMissingExactlyWhen(Elements(rest), Elements(Visits(order, map[at := picks], 0)),
      Gone(order, at, rest), Behind(order, at, rest));
  }

  lemma NoneMissingExactlyWhen(rest: set<nat>, visited: set<nat>, gone: set<nat>, behind: set<nat>)
    requires |rest - visited| == Min(|gone|, |behind|)
    ensures rest <= visited <==> gone == {} || behind == {}
  {
    if rest <= visited {
      assert rest - visited == {};
    } else {
      var x :| x in rest && x !in visited;
      assert x in rest - visited;
    }
  }

  // ---------------------------------------------------------------------------------------------
  // The numbers of one event
  // ---------------------------------------------------------------------------------------------

  /** No number after n and up to m makes produceRow return an error. */
  ghost predicate NoneRefused(faults: Faults, n: nat, m: nat) {
    forall k :: n < k <= m ==> !Refused(faults, k)
  }

  /** The pipe took every event under these numbers. */
  ghost predicate NonePushedInVain(faults: Faults, n: nat, m: nat) {
    forall k :: n < k <= m ==> k !in faults.unpushed
  }

  lemma SeenByTheEnd(faults: Faults, n: nat, m: nat)
    requires NoneRefused(faults, n, m)
    ensures !NonePushedInVain(faults, n, m) ==> ShuttingDown(faults, m)
  {
    if !NonePushedInVain(faults, n, m) {
      var k :| n < k <= m && k in faults.unpushed;
      assert !Refused(faults, k);
    }
  }

  /** The streams of the outputs in v, in this order, got what arrived of the changes, the others nothing. */
  ghost predicate OutputsDone(primary: Columns, start: seq<seq<Event>>, now: seq<seq<Event>>, n: nat,
                              changes: seq<Change>, v: seq<nat>, unpushed: set<nat>)
    requires WellFormedChanges(primary, changes)
  {
    && |start| == |now|
    && (forall k :: 0 <= k < |v| ==>
          && v[k] < |now|
          && now[v[k]] == start[v[k]] + Arrived(Emitted(primary, changes, Base(n, k, |changes|)), unpushed))
    && (forall j :: 0 <= j < |now| && j !in v ==> now[j] == start[j])
  }

  /** The same of v; output t got what arrived of the first `done` changes. */
  ghost predicate StoppedIn(primary: Columns, start: seq<seq<Event>>, now: seq<seq<Event>>, n: nat,
                            changes: seq<Change>, v: seq<nat>, t: nat, done: nat, unpushed: set<nat>)
    requires WellFormedChanges(primary, changes) && done <= |changes|
  {
    && |start| == |now| && t < |now|
    && (forall k :: 0 <= k < |v| ==>
          && v[k] < |now|
          && now[v[k]] == start[v[k]] + Arrived(Emitted(primary, changes, Base(n, k, |changes|)), unpushed))
    && now[t] == start[t] + Arrived(Emitted(primary, changes[..done], Base(n, |v|, |changes|)), unpushed)
    && (forall j :: 0 <= j < |now| && j !in v && j != t ==> now[j] == start[j])
  }

  lemma OneOutputDone(primary: Columns, start: seq<seq<Event>>, before: seq<seq<Event>>, n: nat,
                      changes: seq<Change>, v: seq<nat>, t: nat, done: nat, unpushed: set<nat>)
    requires t < |start| && t !in v && done <= |changes| && WellFormedChanges(primary, changes)
    requires OutputsDone(primary, start, before, n, changes, v, unpushed)
    ensures var now := After(primary, before, Base(n, |v|, |changes|), t, changes, done, unpushed);
      && StoppedIn(primary, start, now, n, changes, v, t, done, unpushed)
      && (done == |changes| ==> OutputsDone(primary, start, now, n, changes, v + [t], unpushed))
  {
    hide Emitted, Arrived, Base;
    assert changes[..|changes|] == changes;
  }

  /** The last number used when the first i outputs got `count` events each after number n. */
  function Base(n: nat, i: nat, count: nat): nat {
    if i == 0 then n else Base(n, i - 1, count) + count
  }

  lemma BaseNext(n: nat, i: nat, count: nat)
    ensures Base(n, i + 1, count) == Base(n, i, count) + count
  {
  }

  /** The streams when the first `done` changes went to output i, starting from these streams. */
  function After(primary: Columns, outputs: seq<seq<Event>>, n: nat, i: nat, changes: seq<Change>, done: nat,
                 unpushed: set<nat>): (now: seq<seq<Event>>)
    requires i < |outputs| && done <= |changes| && WellFormedChanges(primary, changes)
    ensures |now| == |outputs|
  {
    outputs[i := outputs[i] + Arrived(Emitted(primary, changes[..done], n), unpushed)]
  }

  lemma AfterNothing(primary: Columns, outputs: seq<seq<Event>>, n: nat, i: nat, changes: seq<Change>,
                     unpushed: set<nat>)
    requires i < |outputs| && WellFormedChanges(primary, changes)
    ensures After(primary, outputs, n, i, changes, 0, unpushed) == outputs
  {
    assert Emitted(primary, changes[..0], n) == [];
    assert outputs[i] + [] == outputs[i];
  }

  lemma {:induction false} ArrivedAppend(a: seq<Event>, b: seq<Event>, unpushed: set<nat>)
    ensures Arrived(a + b, unpushed) == Arrived(a, unpushed) + Arrived(b, unpushed)
    decreases |a|
  {
    if a == [] {
      assert a + b == b;
    } else {
      assert (a + b)[1..] == a[1..] + b;
      ArrivedAppend(a[1..], b, unpushed);
    }
  }

  lemma AfterOne(primary: Columns, outputs: seq<seq<Event>>, n: nat, i: nat, changes: seq<Change>, done: nat,
                 faults: Faults)
    requires i < |outputs| && done < |changes| && WellFormedChanges(primary, changes)
    ensures var was := After(primary, outputs, n, i, changes, done, faults.unpushed);
      var number := n + 1 + done;
      After(primary, outputs, n, i, changes, done + 1, faults.unpushed)
        == if number in faults.unpushed then was
           else was[i := was[i] + [EventOf(primary, changes[done], number)]]
  {
    var head, last := Emitted(primary, changes[..done], n), EventOf(primary, changes[done], n + 1 + done);
    assert Emitted(primary, changes[..done + 1], n) == head + [last];
    ArrivedAppend(head, [last], faults.unpushed);
    assert [last][1..] == [];
    var arrived := Arrived(head, faults.unpushed);
    var more := if last.seqNo in faults.unpushed then [] else [last];
    assert Arrived(head + [last], faults.unpushed) == arrived + more;
    assert outputs[i] + (arrived + more) == (outputs[i] + arrived) + more;
    assert outputs[i] + arrived + [] == outputs[i] + arrived;
  }

  /** Everything arrives exactly when the pipe takes the events of all these numbers. */
  lemma {:induction false} AllArriveExactlyWhen(events: seq<Event>, unpushed: set<nat>)
    ensures |Arrived(events, unpushed)| <= |events|
    ensures Arrived(events, unpushed) == events <==> forall k :: 0 <= k < |events| ==> events[k].seqNo !in unpushed
  {
    if events != [] {
      AllArriveExactlyWhen(events[1..], unpushed);
      assert forall k :: 0 < k < |events| ==> events[k] == events[1..][k - 1];
      if events[0].seqNo in unpushed {
        assert |Arrived(events, unpushed)| < |events|;
      } else {
        assert Arrived(events, unpushed)[1..] == Arrived(events[1..], unpushed);
      }
    }
  }

  /** Each number used belongs to one event of one output. */
  lemma {:induction false} NumberHasEvent(n: nat, outputs: nat, count: nat, number: nat) returns (i: nat, k: nat)
    requires n < number <= Base(n, outputs, count)
    ensures i < outputs && k < count && number == Base(n, i, count) + 1 + k
    decreases outputs
  {
    if number > Base(n, outputs - 1, count) {
      i, k := outputs - 1, number - Base(n, outputs - 1, count) - 1;
    } else {
      i, k := NumberHasEvent(n, outputs - 1, count, number);
    }
  }

  lemma NothingMissed(primary: Columns, start: seq<seq<Event>>, now: seq<seq<Event>>, n: nat, changes: seq<Change>,
                      v: seq<nat>, unpushed: set<nat>)
    requires WellFormedChanges(primary, changes)
    requires OutputsDone(primary, start, now, n, changes, v, unpushed)
    requires forall number :: n < number <= Base(n, |v|, |changes|) ==> number !in unpushed
    ensures OutputsDone(primary, start, now, n, changes, v, {})
  {
    forall k | 0 <= k < |v|
      ensures Arrived(Emitted(primary, changes, Base(n, k, |changes|)), unpushed)
           == Arrived(Emitted(primary, changes, Base(n, k, |changes|)), {})
    {
      BaseOrder(n, k, |v|, |changes|);
      AllArriveExactlyWhen(Emitted(primary, changes, Base(n, k, |changes|)), unpushed);
      AllArriveExactlyWhen(Emitted(primary, changes, Base(n, k, |changes|)), {});
    }
  }

  lemma {:induction false} NoneWasInVain(primary: Columns, start: seq<seq<Event>>, now: seq<seq<Event>>, n: nat,
                                         changes: seq<Change>, v: seq<nat>, unpushed: set<nat>, number: nat)
    requires WellFormedChanges(primary, changes)
    requires OutputsDone(primary, start, now, n, changes, v, unpushed)
    requires OutputsDone(primary, start, now, n, changes, v, {})
    requires n < number <= Base(n, |v|, |changes|)
    ensures number !in unpushed
  {
    var i, k := NumberHasEvent(n, |v|, |changes|, number);
    var events, t := Emitted(primary, changes, Base(n, i, |changes|)), v[i];
    AllArriveExactlyWhen(events, unpushed);
    AllArriveExactlyWhen(events, {});
    assert (start[t] + Arrived(events, unpushed))[|start[t]|..] == Arrived(events, unpushed);
    assert (start[t] + Arrived(events, {}))[|start[t]|..] == Arrived(events, {}) == events;
    assert events[k].seqNo == number;
  }

  /** The outputs have everything exactly when the pipe took the events of all numbers used. */
  lemma CompleteExactlyWhen(primary: Columns, start: seq<seq<Event>>, now: seq<seq<Event>>, n: nat,
                            changes: seq<Change>, v: seq<nat>, faults: Faults)
    requires WellFormedChanges(primary, changes)
    requires OutputsDone(primary, start, now, n, changes, v, faults.unpushed)
    ensures OutputsDone(primary, start, now, n, changes, v, {})
       <==> NonePushedInVain(faults, n, Base(n, |v|, |changes|))
  {
    hide OutputsDone, Base;
    if NonePushedInVain(faults, n, Base(n, |v|, |changes|)) {
      NothingMissed(primary, start, now, n, changes, v, faults.unpushed);
    } else if OutputsDone(primary, start, now, n, changes, v, {}) {
      forall number: nat | n < number <= Base(n, |v|, |changes|)
        ensures number !in faults.unpushed
      {
        NoneWasInVain(primary, start, now, n, changes, v, faults.unpushed, number);
      }
    }
  }

  /** A shutdown hides some loss exactly when it is seen at the last number or before. */
  lemma ShutdownHidesLossExactlyWhen(shutdownAt: Option<nat>, n: nat, last: nat)
    requires n < last
    ensures (exists failing, unpushed ::
               var faults := Faults(failing, unpushed, shutdownAt);
               NoneRefused(faults, n, last) && !NonePushedInVain(faults, n, last))
       <==> shutdownAt.Some? && shutdownAt.value <= last
  {
    if shutdownAt.Some? && shutdownAt.value <= last {
      var faults := Faults({}, {last}, shutdownAt);
      assert NoneRefused(faults, n, last) && last in faults.unpushed;
      assert !NonePushedInVain(faults, n, last);
    } else {
      forall failing, unpushed | NoneRefused(Faults(failing, unpushed, shutdownAt), n, last)
        ensures NonePushedInVain(Faults(failing, unpushed, shutdownAt), n, last)
      {
        SeenByTheEnd(Faults(failing, unpushed, shutdownAt), n, last);
      }
    }
  }

  /** One row, one output, and a push that fails once the shutdown is seen: true, and nothing arrived. */
  method SuccessWithoutEvent(primary: Columns, row: Row) returns (ok: bool, streams: seq<seq<Event>>)
    requires |row| == |primary|
    ensures ok && streams == [[]]
  {
    var p := new Producer(primary, 1, 0);
    var ev := WriteRows([row]);
    VisitsWithoutReload([0], map[], 0);
    assert p.order == [0] && [0][0..] == [0];
    assert Base(0, 1, 1) == Base(0, 0, 1) + 1 == 1;
    assert NoneRefused(Faults({}, {1}, Some(1)), 0, 1);
    ghost var at, done;
    ok, at, done := p.HandleRowsEvent(ev, Faults({}, {1}, Some(1)), map[]);
    streams := p.outputs;
    ghost var events := Emitted(primary, Changes(ev), 0);
    assert events[0].seqNo == 1 && events[1..] == [];
    assert Arrived(events, {1}) == [] + Arrived(events[1..], {1}) == [];
    assert [0][0] == 0 && Base(0, 0, 1) == 0;
  }

  /**
   Three outputs, of which the first was deregistered, and a number that makes the reader reload its state: true, the
   second output has the event, and the third, still registered, has not.
   */
  method ReloadMissesOutput(primary: Columns, row: Row) returns (ok: bool, order: seq<nat>, streams: seq<seq<Event>>)
    requires |row| == |primary|
    ensures ok && order == [2, 1] && |streams| == 3 && streams[2] == [] && |streams[1]| == 1
  {
    var p := new Producer(primary, 3, 999999);
    var ev, faults := WriteRows([row]), Faults({}, {}, None);
    ghost var rest := SwapOuts([0, 1, 2], [0]);
    assert [0][1..] == [] && SwapOut([0, 1, 2], 0) == [2, 1];
    assert rest == SwapOuts([2, 1], []) == [2, 1];
    VisitsOneReload([0, 1, 2], 0, [0], 0);
    assert [0, 1, 2][0..1] + [2, 1][1..] == [0, 1];
    assert p.order == [0, 1, 2];
    ghost var n, at, done := 999999, 0, 0;
    assert Base(n, 0, 1) == n && Base(n, 1, 1) == n + 1 && Base(n, 2, 1) == n + 2;
    assert NoneRefused(faults, n, n + 2);
    ok, at, done := p.HandleRowsEvent(ev, faults, map[0 := [0]]);
    order, streams := p.order, p.outputs;
    ghost var reloads: map<nat, seq<nat>> := map[0 := [0]];
    assert OrderAt([0, 1, 2], reloads, 1) == Reloaded(OrderAt([0, 1, 2], reloads, 0), reloads, 0) == [2, 1];
    assert OrderAt([0, 1, 2], reloads, 2) == [2, 1];
    ghost var events := Emitted(primary, Changes(ev), n + 1);
    AllArriveExactlyWhen(events, {});
    assert [0, 1][1] == 1 && 2 !in [0, 1];
  }

  // ---------------------------------------------------------------------------------------------
  // What the events mean
  // ---------------------------------------------------------------------------------------------

  type Table = map<Key, Row>

  /** A consumer keeps one row per key. */
  function ApplyEvent(m: Table, e: Event): Table {
    if e.kind.Insert? && e.fields.Some? then m[e.key := e.fields.value] else m - {e.key}
  }

  function Fold(m: Table, events: seq<Event>): Table
    decreases |events|
  {
    if events == [] then m else Fold(ApplyEvent(m, events[0]), events[1..])
  }

  /** The keyed table holds exactly the source rows. */
  ghost predicate Mirrors(primary: Columns, m: Table, rows: set<Row>) {
    && (forall r :: r in rows ==> |r| == |primary| && KeyOf(primary, r) in m && m[KeyOf(primary, r)] == r)
    && (forall k :: k in m ==> m[k] in rows && |m[k]| == |primary| && KeyOf(primary, m[k]) == k)
  }

  /** One row written, deleted, or replaced, as MySQL does it: row after row, unique keys checked. */
  datatype RowOp = WriteRow(row: Row) | DeleteRow(row: Row) | ReplaceRow(before: Row, after: Row)

  function Replacements(rows: seq<Row>): seq<RowOp> {
    if |rows| < 2 then [] else [ReplaceRow(rows[0], rows[1])] + Replacements(rows[2..])
  }

  function Ops(ev: RowsEvent): seq<RowOp> {
    match ev
    case WriteRows(rows) => seq(|rows|, i requires 0 <= i < |rows| => WriteRow(rows[i]))
    case DeleteRows(rows) => seq(|rows|, i requires 0 <= i < |rows| => DeleteRow(rows[i]))
    case UpdateRows(rows) => Replacements(rows)
    case Unsupported => []
  }

  ghost predicate NewKey(primary: Columns, rows: set<Row>, row: Row) {
    |row| == |primary| && forall r :: r in rows && |r| == |primary| ==> KeyOf(primary, r) != KeyOf(primary, row)
  }

  ghost predicate Allowed(primary: Columns, rows: set<Row>, op: RowOp) {
    match op
    case WriteRow(r) => NewKey(primary, rows, r)
    case DeleteRow(r) => r in rows
    case ReplaceRow(b, a) => b in rows && NewKey(primary, rows - {b}, a)
  }

  function ApplyOp(rows: set<Row>, op: RowOp): set<Row> {
    match op
    case WriteRow(r) => rows + {r}
    case DeleteRow(r) => rows - {r}
    case ReplaceRow(b, a) => rows - {b} + {a}
  }

  function ApplyOps(rows: set<Row>, ops: seq<RowOp>): set<Row>
    decreases |ops|
  {
    if ops == [] then rows else ApplyOps(ApplyOp(rows, ops[0]), ops[1..])
  }

  ghost predicate AllAllowed(primary: Columns, rows: set<Row>, ops: seq<RowOp>)
    decreases |ops|
  {
    ops == [] || (Allowed(primary, rows, ops[0]) && AllAllowed(primary, ApplyOp(rows, ops[0]), ops[1..]))
  }

  function ChangesOf(op: RowOp): seq<Change> {
    match op
    case WriteRow(r) => [Change(Insert, r)]
    case DeleteRow(r) => [Change(Delete, r)]
    case ReplaceRow(b, a) => [Change(Delete, b), Change(Insert, a)]
  }

  function ChangesOfAll(ops: seq<RowOp>): seq<Change> {
    if ops == [] then [] else ChangesOf(ops[0]) + ChangesOfAll(ops[1..])
  }

  lemma {:induction false} WritesAreOps(rows: seq<Row>)
    ensures Changes(WriteRows(rows)) == ChangesOfAll(Ops(WriteRows(rows)))
    decreases |rows|
  {
    if rows != [] {
      WritesAreOps(rows[1..]);
      var ops := Ops(WriteRows(rows));
      assert ops[1..] == Ops(WriteRows(rows[1..]));
      assert ChangesOfAll(ops) == ChangesOf(ops[0]) + ChangesOfAll(ops[1..]) && ChangesOf(ops[0]) == [Change(Insert, rows[0])];
      assert Changes(WriteRows(rows)) == [Change(Insert, rows[0])] + Changes(WriteRows(rows[1..]));
    }
  }

  lemma {:induction false} DeletesAreOps(rows: seq<Row>)
    ensures Changes(DeleteRows(rows)) == ChangesOfAll(Ops(DeleteRows(rows)))
    decreases |rows|
  {
    if rows != [] {
      DeletesAreOps(rows[1..]);
      var ops := Ops(DeleteRows(rows));
      assert ops[1..] == Ops(DeleteRows(rows[1..]));
      assert ChangesOfAll(ops) == ChangesOf(ops[0]) + ChangesOfAll(ops[1..]) && ChangesOf(ops[0]) == [Change(Delete, rows[0])];
      assert Changes(DeleteRows(rows)) == [Change(Delete, rows[0])] + Changes(DeleteRows(rows[1..]));
    }
  }

  lemma FirstPair(rows: seq<Row>)
    requires |rows| >= 2
    ensures Changes(UpdateRows(rows)) == [Change(Delete, rows[0]), Change(Insert, rows[1])] + Changes(UpdateRows(rows[2..]))
  {
    var rest := Changes(UpdateRows(rows[2..]));
    forall j | 2 <= j < |rows|
      ensures Changes(UpdateRows(rows))[j] == rest[j - 2]
    {
    }
  }

  lemma {:induction false} UpdatesAreOps(rows: seq<Row>)
    requires |rows| % 2 == 0
    ensures Changes(UpdateRows(rows)) == ChangesOfAll(Ops(UpdateRows(rows)))
    decreases |rows|
  {
    if rows != [] {
      UpdatesAreOps(rows[2..]);
      FirstPair(rows);
      assert Ops(UpdateRows(rows))[1..] == Ops(UpdateRows(rows[2..]));
    }
  }

  /** The events produced are those of the row operations, one after the other. */
  lemma ChangesAreOps(primary: Columns, ev: RowsEvent)
    requires WellFormed(primary, ev) && !ev.Unsupported?
    ensures Changes(ev) == ChangesOfAll(Ops(ev))
  {
    match ev
    case WriteRows(rows) => WritesAreOps(rows);
    case DeleteRows(rows) => DeletesAreOps(rows);
    case UpdateRows(rows) => UpdatesAreOps(rows);
  }

  lemma FoldOne(m: Table, events: seq<Event>)
    requires |events| == 1
    ensures Fold(m, events) == ApplyEvent(m, events[0])
  {
    assert events[1..] == [];
  }

  lemma FoldTwo(m: Table, events: seq<Event>)
    requires |events| == 2
    ensures Fold(m, events) == ApplyEvent(ApplyEvent(m, events[0]), events[1])
  {
    var tail := events[1..];
    assert tail[0] == events[1] && tail[1..] == [];
    assert Fold(ApplyEvent(m, events[0]), tail) == Fold(ApplyEvent(ApplyEvent(m, events[0]), tail[0]), tail[1..]);
  }

  lemma {:induction false} FoldAppend(m: Table, a: seq<Event>, b: seq<Event>)
    ensures Fold(m, a + b) == Fold(Fold(m, a), b)
    decreases |a|
  {
    if a == [] {
      assert a + b == b;
    } else {
      assert (a + b)[1..] == a[1..] + b;
      FoldAppend(ApplyEvent(m, a[0]), a[1..], b);
    }
  }

  lemma EmittedAppend(primary: Columns, a: seq<Change>, b: seq<Change>, n: nat)
    requires WellFormedChanges(primary, a) && WellFormedChanges(primary, b)
    ensures WellFormedChanges(primary, a + b)
    ensures Emitted(primary, a + b, n) == Emitted(primary, a, n) + Emitted(primary, b, n + |a|)
  {
  }

  lemma InsertKeepsMirror(primary: Columns, m: Table, rows: set<Row>, r: Row)
    requires Mirrors(primary, m, rows) && NewKey(primary, rows, r)
    ensures |r| == |primary| && Mirrors(primary, m[KeyOf(primary, r) := r], rows + {r})
  {
    hide KeyOf;
  }

  lemma DeleteKeepsMirror(primary: Columns, m: Table, rows: set<Row>, r: Row)
    requires Mirrors(primary, m, rows) && r in rows
    ensures |r| == |primary| && Mirrors(primary, m - {KeyOf(primary, r)}, rows - {r})
  {
    hide KeyOf;
  }

  lemma OneOpPreserved(primary: Columns, m: Table, rows: set<Row>, op: RowOp, n: nat)
    requires Mirrors(primary, m, rows) && Allowed(primary, rows, op)
    ensures WellFormedChanges(primary, ChangesOf(op))
    ensures Mirrors(primary, Fold(m, Emitted(primary, ChangesOf(op), n)), ApplyOp(rows, op))
  {
    hide Mirrors, KeyOf, NewKey;
    match op
    case WriteRow(r) =>
      InsertKeepsMirror(primary, m, rows, r);
      FoldOne(m, Emitted(primary, ChangesOf(op), n));
    case DeleteRow(r) =>
      DeleteKeepsMirror(primary, m, rows, r);
      FoldOne(m, Emitted(primary, ChangesOf(op), n));
    case ReplaceRow(b, a) =>
      DeleteKeepsMirror(primary, m, rows, b);
      InsertKeepsMirror(primary, m - {KeyOf(primary, b)}, rows - {b}, a);
      FoldTwo(m, Emitted(primary, ChangesOf(op), n));
  }

  /**
   Translation preserves meaning: a keyed table that mirrors the source before any sequence of row
   operations mirrors it after, once the produced events are applied.
   */
  lemma {:induction false} OpsPreserved(primary: Columns, m: Table, rows: set<Row>, ops: seq<RowOp>, n: nat)
    requires Mirrors(primary, m, rows) && AllAllowed(primary, rows, ops)
    ensures WellFormedChanges(primary, ChangesOfAll(ops))
    ensures Mirrors(primary, Fold(m, Emitted(primary, ChangesOfAll(ops), n)), ApplyOps(rows, ops))
    decreases |ops|
  {
    if ops != [] {
      var first, rest := ChangesOf(ops[0]), ChangesOfAll(ops[1..]);
      OneOpPreserved(primary, m, rows, ops[0], n);
      var m1 := Fold(m, Emitted(primary, first, n));
      OpsPreserved(primary, m1, ApplyOp(rows, ops[0]), ops[1..], n + |first|);
      EmittedAppend(primary, first, rest, n);
      FoldAppend(m, Emitted(primary, first, n), Emitted(primary, rest, n + |first|));
    }
  }

  // ---------------------------------------------------------------------------------------------
  // Whole streams: any sequence of events, every output
  // ---------------------------------------------------------------------------------------------

  /** What an output receives of these events when `bases` are the last numbers used before each of them. */
  function Stream(primary: Columns, events: seq<RowsEvent>, bases: seq<nat>): seq<Event>
    requires |bases| == |events| && forall k :: 0 <= k < |events| ==> WellFormed(primary, events[k])
    decreases |events|
  {
    if events == [] then []
    else
      assert WellFormed(primary, events[0]) && WellFormedChanges(primary, Changes(events[0]));
      Emitted(primary, Changes(events[0]), bases[0]) + Stream(primary, events[1..], bases[1..])
  }

  function SourceAfter(rows: set<Row>, events: seq<RowsEvent>): set<Row>
    decreases |events|
  {
    if events == [] then rows else SourceAfter(ApplyOps(rows, Ops(events[0])), events[1..])
  }

  ghost predicate AllowedEvents(primary: Columns, rows: set<Row>, events: seq<RowsEvent>)
    decreases |events|
  {
    events == [] ||
    (WellFormed(primary, events[0]) && !events[0].Unsupported? && AllAllowed(primary, rows, Ops(events[0]))
     && AllowedEvents(primary, ApplyOps(rows, Ops(events[0])), events[1..]))
  }

  lemma {:induction false} AllowedAreWellFormed(primary: Columns, rows: set<Row>, events: seq<RowsEvent>)
    requires AllowedEvents(primary, rows, events)
    ensures forall k :: 0 <= k < |events| ==> WellFormed(primary, events[k]) && !events[k].Unsupported?
    decreases |events|
  {
    if events != [] {
      AllowedAreWellFormed(primary, ApplyOps(rows, Ops(events[0])), events[1..]);
      assert forall k :: 1 <= k < |events| ==> events[k] == events[1..][k - 1];
    }
  }

  /** Every output that is handled for each of the events ends up mirroring the source, whatever the numbers. */
  lemma {:induction false} EveryStreamMirrorsSource(primary: Columns, m: Table, rows: set<Row>, events: seq<RowsEvent>,
                                                    bases: seq<nat>)
    requires Mirrors(primary, m, rows) && AllowedEvents(primary, rows, events) && |bases| == |events|
    ensures forall k :: 0 <= k < |events| ==> WellFormed(primary, events[k])
    ensures Mirrors(primary, Fold(m, Stream(primary, events, bases)), SourceAfter(rows, events))
    decreases |events|
  {
    AllowedAreWellFormed(primary, rows, events);
    if events != [] {
      var ev := events[0];
      ChangesAreOps(primary, ev);
      OpsPreserved(primary, m, rows, Ops(ev), bases[0]);
      var head, tail := Emitted(primary, Changes(ev), bases[0]), Stream(primary, events[1..], bases[1..]);
      EveryStreamMirrorsSource(primary, Fold(m, head), ApplyOps(rows, Ops(ev)), events[1..], bases[1..]);
      FoldAppend(m, head, tail);
    }
  }

  ghost predicate NumbersIncrease(events: seq<Event>, above: nat) {
    && (forall k :: 0 <= k < |events| ==> events[k].seqNo > above)
    && (forall j, k :: 0 <= j < k < |events| ==> events[j].seqNo < events[k].seqNo)
  }

  lemma {:induction false} BaseOrder(n: nat, i: nat, j: nat, count: nat)
    requires i <= j
    ensures n <= Base(n, i, count) <= Base(n, j, count)
    ensures i < j ==> Base(n, i, count) + count <= Base(n, j, count)
    decreases j, i
  {
    if i < j {
      BaseOrder(n, i, j - 1, count);
    } else if i > 0 {
      BaseOrder(n, i - 1, i - 1, count);
    }
  }

  /** Each event is numbered behind the one before it, as the reader's counter does it. */
  ghost predicate Ascending(events: seq<RowsEvent>, bases: seq<nat>, above: nat)
    requires |bases| == |events|
    decreases |events|
  {
    events == [] ||
    (bases[0] >= above && Ascending(events[1..], bases[1..], bases[0] + |Changes(events[0])|))
  }

  /** Numbers strictly increase along every output's stream. */
  lemma {:induction false} StreamNumbersIncrease(primary: Columns, events: seq<RowsEvent>, bases: seq<nat>, above: nat)
    requires |bases| == |events| && forall k :: 0 <= k < |events| ==> WellFormed(primary, events[k])
    requires Ascending(events, bases, above)
    ensures NumbersIncrease(Stream(primary, events, bases), above)
    decreases |events|
  {
    if events != [] {
      var changes := Changes(events[0]);
      StreamNumbersIncrease(primary, events[1..], bases[1..], bases[0] + |changes|);
      var head, tail := Emitted(primary, changes, bases[0]), Stream(primary, events[1..], bases[1..]);
      assert NumbersIncrease(head + tail, above);
    }
  }
}
