/**
 Sequence numbers over any run of reader incarnations, one active at a time: registrations,
 deregistrations, crashes, failed and half-failed saves may come between any two numbers issued.
 */
module SeqNoRuns {
  import opened Options
  import opened SeqNo

  /** The rows of the cluster, the active reader's number if there is one, and every number issued. */
  datatype World = World(rows: seq<StateRow>, reader: Option<nat>, issued: seq<nat>)

  /** `last` says whether the save a stopping reader attempts reaches the database. */
  datatype Step =
    | Register(id: int, mysql: bool)
    | Deregister(index: nat)
    | Start(io: Io)
    | Next(io: Io, last: bool)
    | Tick(io: Io, last: bool)
    | Stop(last: bool)
    | Crash

  function StopAt(w: World, seqNo: nat, last: bool): World {
    w.(rows := if last then Save(w.rows, seqNo) else w.rows, reader := None)
  }

  function Apply(w: World, step: Step): World {
    match step
    case Register(id, mysql) => w.(rows := w.rows + [StateRow(id, mysql, 0)])
    case Deregister(i) => if i < |w.rows| then w.(rows := w.rows[..i] + w.rows[i + 1..]) else w
    case Start(io) =>
      if w.reader.Some? then w else
      var u := UpdatedState(0, w.rows, true, io);
      w.(rows := u.rows, reader := if u.ok then Some(u.seqNo) else None)
    case Next(io, last) =>
      if w.reader.None? then w else
      var s := w.reader.value + 1;
      if s % SEQNO_SAVE_INTERVAL != 0 then w.(reader := Some(s), issued := w.issued + [s])
      else
        var u := UpdatedState(s, w.rows, false, io);
        if u.ok then World(u.rows, Some(s), w.issued + [s]) else StopAt(w.(rows := u.rows), s, last)
    case Tick(io, last) =>
      if w.reader.None? then w else
      var u := UpdatedState(w.reader.value, w.rows, false, io);
      if u.ok then w.(rows := u.rows) else StopAt(w.(rows := u.rows), w.reader.value, last)
    case Stop(last) => if w.reader.None? then w else StopAt(w, w.reader.value, last)
    case Crash => w.(reader := None)
  }

  function Run(w: World, steps: seq<Step>): World
    decreases |steps|
  {
    if steps == [] then w else Run(Apply(w, steps[0]), steps[1..])
  }

  ghost predicate Increasing(s: seq<nat>) {
    forall i, j :: 0 <= i < j < |s| ==> s[i] < s[j]
  }

  /** All rows that carry a number carry the same one. */
  ghost predicate Agree(rows: seq<StateRow>, saved: nat) {
    forall i :: 0 <= i < |rows| ==> rows[i].seqNo == 0 || rows[i].seqNo == saved
  }

  /** Some row the reader would read carries the saved number. */
  ghost predicate Carried(rows: seq<StateRow>, saved: nat) {
    exists i :: 0 <= i < |rows| && rows[i].mysql && rows[i].seqNo == saved
  }

  ghost predicate Inv(w: World, saved: nat) {
    && Agree(w.rows, saved)
    && Increasing(w.issued)
    && (forall x :: x in w.issued ==> SEQNO_SAVE_INTERVAL < x < saved + SEQNO_SAVE_INTERVAL)
    && (w.issued != [] ==> saved > 0 && Carried(w.rows, saved))
    && (w.reader.Some? ==>
          var n := w.reader.value;
          && 0 < saved <= n && Carried(w.rows, saved) && SEQNO_SAVE_INTERVAL <= n
          && n / SEQNO_SAVE_INTERVAL == saved / SEQNO_SAVE_INTERVAL
          && forall x :: x in w.issued ==> x <= n)
  }

  /** A deregistration may not take the last row that carries the saved number. */
  ghost predicate Safe(w: World, step: Step) {
    step.Deregister? && step.index < |w.rows| ==>
      var rest := Apply(w, step).rows;
      forall saved :: saved > 0 && Carried(w.rows, saved) ==> Carried(rest, saved)
  }

  lemma {:induction false} MySqlRowsMembers(rows: seq<StateRow>)
    ensures forall r :: r in MySqlRows(rows) <==> r in rows && r.mysql
  {
    if rows != [] {
      MySqlRowsMembers(rows[1..]);
      assert rows == [rows[0]] + rows[1..];
    }
  }

  lemma {:induction false} FirstNonZeroIs(rows: seq<StateRow>, saved: nat)
    requires forall r :: r in rows ==> r.seqNo == 0 || r.seqNo == saved
    ensures FirstNonZero(rows) == 0 || FirstNonZero(rows) == saved
    ensures (exists r :: r in rows && r.seqNo == saved) ==> FirstNonZero(rows) == saved
  {
    if rows != [] {
      assert rows[0] in rows && forall r :: r in rows[1..] ==> r in rows;
      FirstNonZeroIs(rows[1..], saved);
      assert rows == [rows[0]] + rows[1..];
    }
  }

  /** A starting reader finds the saved number, or zero when no row it reads carries one. */
  lemma LoadedNumber(rows: seq<StateRow>, saved: nat)
    requires Agree(rows, saved)
    ensures var loaded := FirstNonZero(MySqlRows(rows));
      && (loaded == saved || loaded == 0)
      && (Carried(rows, saved) ==> loaded == saved)
      && (saved > 0 && loaded == saved ==> Carried(rows, saved))
  {
    MySqlRowsMembers(rows);
    var st := MySqlRows(rows);
    FirstNonZeroIs(st, saved);
    if Carried(rows, saved) {
      var i :| 0 <= i < |rows| && rows[i].mysql && rows[i].seqNo == saved;
      assert rows[i] in st;
    }
    FirstNonZeroMember(st);
  }

  lemma {:induction false} FirstNonZeroMember(rows: seq<StateRow>)
    ensures FirstNonZero(rows) > 0 ==> exists r :: r in rows && r.seqNo == FirstNonZero(rows)
  {
    if rows != [] {
      FirstNonZeroMember(rows[1..]);
      assert rows[0] in rows && forall r :: r in rows[1..] ==> r in rows;
    }
  }

  lemma SaveCarries(rows: seq<StateRow>, seqNo: nat)
    requires MySqlRows(rows) != []
    ensures Agree(Save(rows, seqNo), seqNo) && Carried(Save(rows, seqNo), seqNo)
  {
    MySqlRowsMembers(rows);
    assert MySqlRows(rows)[0] in rows;
    var i :| 0 <= i < |rows| && rows[i].mysql;
    assert Save(rows, seqNo)[i].mysql && Save(rows, seqNo)[i].seqNo == seqNo;
  }

  lemma SaveTwice(rows: seq<StateRow>, seqNo: nat)
    ensures Save(Save(rows, seqNo), seqNo) == Save(rows, seqNo)
  {
  }

  lemma CarriedMeansReadable(rows: seq<StateRow>, saved: nat)
    requires Carried(rows, saved)
    ensures MySqlRows(rows) != []
  {
    MySqlRowsMembers(rows);
    var i :| 0 <= i < |rows| && rows[i].mysql && rows[i].seqNo == saved;
    assert rows[i] in MySqlRows(rows);
  }

  /** Each step leaves a saved number for which the invariant holds again. */
  lemma StepKeepsInv(w: World, saved: nat, step: Step) returns (next: nat)
    requires Inv(w, saved) && Safe(w, step)
    ensures Inv(Apply(w, step), next)
  {
    next := saved;
    match step
    case Register(id, mysql) =>
      if Carried(w.rows, saved) {
        var i :| 0 <= i < |w.rows| && w.rows[i].mysql && w.rows[i].seqNo == saved;
        assert Apply(w, step).rows[i] == w.rows[i];
      }
    case Deregister(i) =>
      if i < |w.rows| {
        var rest := Apply(w, step).rows;
        assert forall k :: 0 <= k < |rest| ==> rest[k] == if k < i then w.rows[k] else w.rows[k + 1];
      }
    case Start(io) => next := StartKeepsInv(w, saved, io);
    case Next(io, last) => next := NextKeepsInv(w, saved, io, last);
    case Tick(io, last) => next := TickKeepsInv(w, saved, io, last);
    case Stop(last) =>
      if w.reader.Some? && last {
        CarriedMeansReadable(w.rows, saved);
        SaveCarries(w.rows, w.reader.value);
        next := w.reader.value;
      }
    case Crash =>
  }

  /** Whether updateState gets as far as saving, and the save reaches the database. */
  predicate Saves(w: World, io: Io) {
    io.refreshed && Reloads(MySqlRows(w.rows), io.failsAt) && io.saved
  }

  lemma StartKeepsInv(w: World, saved: nat, io: Io) returns (next: nat)
    requires Inv(w, saved)
    ensures Inv(Apply(w, Start(io)), next)
  {
    next := saved;
    if w.reader.None? && MySqlRows(w.rows) != [] && Saves(w, io) {
      LoadedNumber(w.rows, saved);
      next := FirstNonZero(MySqlRows(w.rows)) + SEQNO_SAVE_INTERVAL;
      SaveCarries(w.rows, next);
    }
  }

  lemma NextKeepsInv(w: World, saved: nat, io: Io, last: bool) returns (next: nat)
    requires Inv(w, saved)
    ensures Inv(Apply(w, Next(io, last)), next)
  {
    next := saved;
    if w.reader.Some? {
      var s := w.reader.value + 1;
      hide MySqlRows, FirstNonZero, Save, Carried, Agree;
      assert forall i :: 0 <= i < |w.issued| ==> w.issued[i] in w.issued;
      if s % SEQNO_SAVE_INTERVAL == 0 {
        CarriedMeansReadable(w.rows, saved);
        if Saves(w, io) || last {
          next := s;
          SaveCarries(w.rows, s);
          SaveTwice(w.rows, s);
        }
      }
    }
  }

  lemma TickKeepsInv(w: World, saved: nat, io: Io, last: bool) returns (next: nat)
    requires Inv(w, saved)
    ensures Inv(Apply(w, Tick(io, last)), next)
  {
    next := saved;
    if w.reader.Some? {
      var s := w.reader.value;
      CarriedMeansReadable(w.rows, saved);
      if Saves(w, io) || last {
        next := s;
        SaveCarries(w.rows, s);
        assert Save(Save(w.rows, s), s) == Save(w.rows, s);
      }
    }
  }

  ghost predicate SafeRun(w: World, steps: seq<Step>)
    decreases |steps|
  {
    steps == [] || (Safe(w, steps[0]) && SafeRun(Apply(w, steps[0]), steps[1..]))
  }

  lemma {:induction false} RunKeepsInv(w: World, saved: nat, steps: seq<Step>) returns (last: nat)
    requires Inv(w, saved) && SafeRun(w, steps)
    ensures Inv(Run(w, steps), last)
    decreases |steps|
  {
    if steps == [] {
      last := saved;
    } else {
      var next := StepKeepsInv(w, saved, steps[0]);
      last := RunKeepsInv(Apply(w, steps[0]), next, steps[1..]);
    }
  }

  /** A cluster nobody reads yet: whatever was saved before is the same in every row that has it. */
  ghost predicate Initial(w: World) {
    w.reader.None? && w.issued == [] && exists saved :: Agree(w.rows, saved)
  }

  /**
   No number is ever issued twice, and each is greater than all before it, as long as a row carrying
   the saved number survives.
   */
  lemma NeverRepeats(w: World, steps: seq<Step>)
    requires Initial(w) && SafeRun(w, steps)
    ensures Increasing(Run(w, steps).issued)
    ensures exists saved :: Agree(Run(w, steps).rows, saved)
  {
    var saved :| Agree(w.rows, saved);
    var last := RunKeepsInv(w, saved, steps);
  }

  /** The first number a reader would issue if it started now and every statement succeeded. */
  function FirstIssued(w: World): nat {
    FirstNonZero(MySqlRows(w.rows)) + SEQNO_SAVE_INTERVAL + 1
  }

  lemma FirstIssuedIs(w: World)
    requires w.reader.None? && MySqlRows(w.rows) != [] && (exists saved :: Agree(w.rows, saved))
    ensures var t := Apply(Apply(w, Start(Io(true, None, true, true))), Next(Io(true, None, true, true), true));
      t.issued == w.issued + [FirstIssued(w)]
  {
    var n := FirstNonZero(MySqlRows(w.rows)) + SEQNO_SAVE_INTERVAL;
    SaveCarries(w.rows, n);
    CarriedMeansReadable(Save(w.rows, n), n);
  }

  /**
   Whatever rows are dropped or added while no reader runs, the next reader goes on above every number
   issued so far exactly when nothing was issued yet or a row it reads still carries the saved number.
   */
  lemma ContinuesExactlyWhen(w: World, saved: nat, rows: seq<StateRow>)
    requires Inv(w, saved) && Agree(rows, saved)
    ensures (forall x :: x in w.issued ==> x < FirstIssued(w.(rows := rows)))
      <==> (w.issued == [] || Carried(rows, saved))
  {
    LoadedNumber(rows, saved);
    if w.issued != [] && !Carried(rows, saved) {
      assert w.issued[0] in w.issued;
      assert FirstIssued(w.(rows := rows)) == SEQNO_SAVE_INTERVAL + 1;
    }
  }
}
