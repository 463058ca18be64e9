/**
 Logical time of the changelog reader (nextSeqNo, updateState and the seqno part of reloadState in
 changelog/mysql.go, SaveBinlogState in state/state.go).

 The rows are those of one cluster in the state table.  A reader starts from the saved number plus one
 million, saves the number on every multiple of a million and whenever it refreshes its state.
 */
module SeqNo {
  import opened Options

  const SEQNO_SAVE_INTERVAL: nat := 1000000

  /** reloadState only reads rows whose input is mysql; SaveBinlogState writes all rows of the cluster. */
  datatype StateRow = StateRow(id: int, mysql: bool, seqNo: nat)

  /**
   How the outside world answers one updateState: the lock refresh and the reading of the state, the row whose table
   cannot be added, and the final UPDATE, which may reach the database without the reader learning that it did.
   */
  datatype Io = Io(refreshed: bool, failsAt: Option<nat>, saved: bool, acknowledged: bool)

  /** The rows that reloadState gets to see: it stops behind the first whose table cannot be added. */
  function Seen(st: seq<StateRow>, failsAt: Option<nat>): seq<StateRow> {
    if failsAt.Some? && failsAt.value < |st| then st[..failsAt.value + 1] else st
  }

  predicate Reloads(st: seq<StateRow>, failsAt: Option<nat>) {
    failsAt.Some? ==> failsAt.value >= |st|
  }

  function MySqlRows(rows: seq<StateRow>): seq<StateRow> {
    if rows == [] then []
    else (if rows[0].mysql then [rows[0]] else []) + MySqlRows(rows[1..])
  }

  function FirstNonZero(rows: seq<StateRow>): nat {
    if rows == [] then 0 else if rows[0].seqNo != 0 then rows[0].seqNo else FirstNonZero(rows[1..])
  }

  function Save(rows: seq<StateRow>, seqNo: nat): seq<StateRow> {
    seq(|rows|, i requires 0 <= i < |rows| => rows[i].(seqNo := seqNo))
  }

  /** The reader's number and the rows after updateState, and whether it returned true. */
  datatype Updated = Updated(seqNo: nat, rows: seq<StateRow>, ok: bool)

  function UpdatedState(seqNo: nat, rows: seq<StateRow>, inc: bool, io: Io): Updated {
    if !io.refreshed then Updated(seqNo, rows, false)
    else
      var st := MySqlRows(rows);
      var loaded := if seqNo == 0 then FirstNonZero(Seen(st, io.failsAt)) else seqNo;
      if st == [] || !Reloads(st, io.failsAt) then Updated(loaded, rows, false)
      else
        var next := if inc then loaded + SEQNO_SAVE_INTERVAL else loaded;
        Updated(next, if io.saved then Save(rows, next) else rows, io.saved && io.acknowledged)
  }

  lemma {:induction false} MySqlRowsThere(rows: seq<StateRow>)
    ensures MySqlRows(rows) != [] <==> exists r :: r in rows && r.mysql
    decreases |rows|
  {
    if rows != [] {
      MySqlRowsThere(rows[1..]);
      assert forall r :: r in rows <==> r == rows[0] || r in rows[1..];
    }
  }

  /**
   A refresh succeeds exactly when the lock is still held, some table is read, all tables can be added, and the save
   is known to have arrived; then every row of the cluster has the reader's number.
   */
  lemma UpdateSucceedsExactlyWhen(seqNo: nat, rows: seq<StateRow>, inc: bool, io: Io)
    ensures var u := UpdatedState(seqNo, rows, inc, io);
      && (u.ok <==>
            && io.refreshed && io.saved && io.acknowledged && (exists r :: r in rows && r.mysql)
            && !(io.failsAt.Some? && io.failsAt.value < |MySqlRows(rows)|))
      && |u.rows| == |rows| && (forall i :: 0 <= i < |rows| ==> u.rows[i].id == rows[i].id && u.rows[i].mysql == rows[i].mysql)
      && (u.ok ==> forall r :: r in u.rows ==> r.seqNo == u.seqNo)
      && (u.ok && seqNo != 0 ==> u.seqNo == seqNo + if inc then 1000000 else 0)
  {
    MySqlRowsThere(rows);
  }

  class Reader {
    var seqNo: nat
    var rows: seq<StateRow>

    constructor (rows: seq<StateRow>)
      ensures seqNo == 0 && this.rows == rows
    {
      seqNo := 0;
      this.rows := rows;
    }

    /** The loop of reloadState, as far as the sequence number is concerned. */
    method ReloadSeqNo(st: seq<StateRow>, failsAt: Option<nat>) returns (ok: bool)
      modifies this`seqNo
      ensures seqNo == if old(seqNo) == 0 then FirstNonZero(Seen(st, failsAt)) else old(seqNo)
      ensures ok == Reloads(st, failsAt)
    {
      ghost var seen := Seen(st, failsAt);
      var i := 0;
      while i < |st|
        invariant 0 <= i <= |seen| && (failsAt.Some? ==> i <= failsAt.value)
        invariant old(seqNo) != 0 ==> seqNo == old(seqNo)
        invariant old(seqNo) == 0 ==> FirstNonZero(seen) == if seqNo == 0 then FirstNonZero(seen[i..]) else seqNo
        decreases |st| - i
      {
        if seqNo == 0 {
          seqNo := st[i].seqNo;
        }
        assert seen[i] == st[i] && seen[i..][1..] == seen[i + 1..];
        if failsAt == Some(i) {
          assert seen[i + 1..] == [];
          return false;
        }
        i := i + 1;
      }
      return true;
    }

    method UpdateState(inc: bool, io: Io) returns (ok: bool)
      modifies this
      ensures Updated(seqNo, rows, ok) == UpdatedState(old(seqNo), old(rows), inc, io)
    {
      if !io.refreshed {
        return false;
      }
      var st := MySqlRows(rows);
      var reloaded := ReloadSeqNo(st, io.failsAt);
      if !reloaded || |st| == 0 {
        return false;
      }
      if inc {
        seqNo := seqNo + SEQNO_SAVE_INTERVAL;
      }
      if io.saved {
        rows := Save(rows, seqNo);
      }
      return io.saved && io.acknowledged;
    }

    /** Zero stands for failure, as in the source. */
    method NextSeqNo(io: Io) returns (n: nat)
      modifies this
      ensures var s := old(seqNo) + 1;
        if s % SEQNO_SAVE_INTERVAL != 0 then seqNo == n == s && rows == old(rows)
        else var u := UpdatedState(s, old(rows), false, io);
          seqNo == u.seqNo && rows == u.rows && n == if u.ok then s else 0
      ensures n != 0 <==>
        || (old(seqNo) + 1) % 1000000 != 0
        || (&& io.refreshed && io.saved && io.acknowledged && (exists r :: r in old(rows) && r.mysql)
            && !(io.failsAt.Some? && io.failsAt.value < |MySqlRows(old(rows))|))
    {
      seqNo := seqNo + 1;
      if seqNo % SEQNO_SAVE_INTERVAL == 0 {
        UpdateSucceedsExactlyWhen(seqNo, rows, false, io);
        var ok := UpdateState(false, io);
        if !ok {
          return 0;
        }
      }
      return seqNo;
    }
  }
}
