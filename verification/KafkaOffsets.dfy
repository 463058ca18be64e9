/**
 Offset bookkeeping of the Kafka pipe (pipe/kafka.go).

 A partition cursor remembers the last offset handed out and the offset at which the row of
 kafka_offsets was last written.  Rows are written batchSize-1 behind the current offset while
 streaming, and one past it on SaveOffset or a graceful close.
 */
module KafkaOffsets {
  import opened Options

  const OFFSET_NEWEST := -1
  const OFFSET_OLDEST := -2

  datatype Cursor = Cursor(offset: int, savedOffset: int)

  datatype Config = Config(initialOffset: int, batchSize: nat, persistInterval: nat)
  {
    predicate Valid() {
      (initialOffset == OFFSET_NEWEST || initialOffset == OFFSET_OLDEST) && persistInterval >= 1
    }
  }

  /** What one commit leaves behind: the cursor, the row of kafka_offsets, and whether the SQL failed. */
  datatype Commit = Commit(cursor: Cursor, row: Option<int>, ok: bool)

  /** What commitOffset does: `interval` is zero for SaveOffset and a graceful close. */
  function Committed(cfg: Config, cursor: Cursor, row: Option<int>, offset: int, interval: nat, sqlOk: bool): Commit {
    var saved := if cursor.offset == cfg.initialOffset then offset else cursor.savedOffset;
    if offset == cfg.initialOffset || offset - saved < interval then
      Commit(Cursor(offset, saved), row, true)
    else if !sqlOk then
      Commit(Cursor(offset, saved), row, false)
    else
      Commit(Cursor(offset, offset), Some(if interval != 0 then offset - cfg.batchSize + 1 else offset + 1), true)
  }

  /** A cursor that has handed out nothing yet. */
  function FreshCursor(cfg: Config): Cursor {
    Cursor(cfg.initialOffset, cfg.initialOffset)
  }

  /** getOffsets replaces a negative stored offset by zero. */
  function ResumePoint(row: int): nat {
    if row < 0 then 0 else row
  }

  /** The cursors of one topic and its rows of kafka_offsets, updated in place. */
  class OffsetTracker {
    const cfg: Config
    const connected: bool
    var cursors: seq<Cursor>
    var owner: seq<int>
    var rows: map<int, int>

    ghost predicate Valid()
      reads this
    {
      |owner| == |cursors|
    }

    function Row(partition: nat): Option<int>
      reads this
    {
      if partition in rows then Some(rows[partition]) else None
    }

    constructor (cfg: Config, connected: bool, partitions: nat, rows: map<int, int>)
      ensures Valid() && this.cfg == cfg && this.connected == connected && this.rows == rows
      ensures |cursors| == partitions && forall i :: 0 <= i < partitions ==> cursors[i] == FreshCursor(cfg)
    {
      this.cfg := cfg;
      this.connected := connected;
      this.cursors := seq(partitions, _ => FreshCursor(cfg));
      this.owner := seq(partitions, _ => 0);
      this.rows := rows;
    }

    /** The partition id is used as an index into the cursors, as in the source. */
    method CommitOffset(partition: nat, offset: int, interval: nat, sqlOk: bool) returns (ok: bool)
      requires Valid() && partition < |cursors|
      modifies this`cursors, this`rows
      ensures Valid()
      ensures !connected ==> ok && cursors == old(cursors) && rows == old(rows)
      ensures connected ==>
        var c := Committed(cfg, old(cursors)[partition], old(Row(partition)), offset, interval, sqlOk);
        && cursors == old(cursors)[partition := c.cursor]
        && Row(partition) == c.row
        && rows - {partition} == old(rows) - {partition}
        && ok == c.ok
    {
      if !connected {
        return true;
      }
      var tp := cursors[partition];
      if tp.offset == cfg.initialOffset {
        tp := tp.(savedOffset := offset);
      }
      tp := tp.(offset := offset);
      cursors := cursors[partition := tp];
      if offset == cfg.initialOffset {
        return true;
      }
      var stored := offset;
      if interval != 0 {
        stored := offset - cfg.batchSize + 1;
      } else {
        stored := offset + 1;
      }
      if tp.offset - tp.savedOffset >= interval {
        if !sqlOk {
          return false;
        }
        rows := rows[partition := stored];
        cursors := cursors[partition := tp.(savedOffset := tp.offset)];
      }
      return true;
    }

    /** What a commit without interval makes of partition i, or nothing without a connection. */
    ghost predicate CommittedAt(i: nat, before: seq<Cursor>, row: Option<int>, sqlOk: bool)
      reads this
      requires i < |cursors| && i < |before|
    {
      if connected then
        var c := Committed(cfg, before[i], row, before[i].offset, 0, sqlOk);
        cursors[i] == c.cursor && Row(i) == c.row && c.ok
      else cursors[i] == before[i] && Row(i) == row
    }

    /**
     SaveOffset and a graceful close: commits every partition the consumer owns, stopping at `reached` when that
     one fails.
     An error of the consumer's last fetch is returned even when every commit succeeded.
     */
    method CommitConsumerPartitionOffsets(consumer: int, sqlOk: seq<bool>, fetchFailed: bool)
      returns (ok: bool, ghost reached: nat)
      requires Valid() && |sqlOk| == |cursors|
      modifies this`cursors, this`rows
      ensures Valid() && |cursors| == |old(cursors)| && reached <= |cursors|
      ensures ok == (reached == |cursors| && !fetchFailed)
      ensures forall i :: 0 <= i < reached ==>
        if owner[i] == consumer then CommittedAt(i, old(cursors), old(Row(i)), sqlOk[i])
        else cursors[i] == old(cursors)[i] && Row(i) == old(Row(i))
      ensures reached < |cursors| ==>
        && connected && owner[reached] == consumer && !sqlOk[reached]
        && var c := Committed(cfg, old(cursors)[reached], old(Row(reached)), old(cursors)[reached].offset, 0, false);
           !c.ok && cursors[reached] == c.cursor && Row(reached) == c.row
      ensures forall i :: reached < i < |cursors| ==> cursors[i] == old(cursors)[i] && Row(i) == old(Row(i))
    {
      var i := 0;
      while i < |cursors|
        invariant 0 <= i <= |cursors| == |old(cursors)| && Valid()
        invariant forall k :: 0 <= k < i ==>
          if owner[k] == consumer then CommittedAt(k, old(cursors), old(Row(k)), sqlOk[k])
          else cursors[k] == old(cursors)[k] && Row(k) == old(Row(k))
        invariant forall k :: i <= k < |cursors| ==> cursors[k] == old(cursors)[k] && Row(k) == old(Row(k))
      {
        if owner[i] == consumer {
          ghost var before := rows;
          var committed := CommitOffset(i, cursors[i].offset, 0, sqlOk[i]);
          assert forall k | k != i :: (k in rows) == (k in rows - {i}) && (k in before) == (k in before - {i});
          assert forall k | k != i && k in rows :: rows[k] == (rows - {i})[k] && before[k] == (before - {i})[k];
          if !committed {
            return false, i;
          }
        }
        i := i + 1;
      }
      return !fetchFailed, |cursors|;
    }
  }
}
