/**
 Replay after restarts: one partition under any mix of fetches, explicit saves, SQL failures and
 restarts.  Offsets of a partition are contiguous.
 */
module KafkaReplay {
  import opened Options
  import opened KafkaOffsets

  /**
   `resume` is where this incarnation started reading, `position` the next offset Kafka hands out,
   and `fetched` one past the highest offset ever handed out without an error.
   */
  datatype Reader = Reader(cursor: Cursor, row: int, resume: nat, position: nat, fetched: nat, failed: bool)

  datatype Step = Fetch(sqlOk: bool) | Save(sqlOk: bool) | Restart

  function Apply(cfg: Config, r: Reader, step: Step): Reader {
    match step
    case Fetch(sqlOk) =>
      if r.failed then r else
      var c := Committed(cfg, r.cursor, Some(r.row), r.position, cfg.persistInterval, sqlOk);
      Reader(c.cursor, c.row.value, r.resume, r.position + 1,
             if c.ok then Max(r.fetched, r.position + 1) else r.fetched, !c.ok)
    case Save(sqlOk) =>
      var c := Committed(cfg, r.cursor, Some(r.row), r.cursor.offset, 0, sqlOk);
      r.(cursor := c.cursor, row := c.row.value)
    case Restart =>
      Reader(FreshCursor(cfg), r.row, ResumePoint(r.row), ResumePoint(r.row), r.fetched, false)
  }

  function Run(cfg: Config, r: Reader, steps: seq<Step>): Reader
    decreases |steps|
  {
    if steps == [] then r else Run(cfg, Apply(cfg, r, steps[0]), steps[1..])
  }

  /** A reader that opens the partition at an existing row, everything before it being done. */
  function Open(cfg: Config, row: int): Reader {
    Reader(FreshCursor(cfg), row, ResumePoint(row), ResumePoint(row), ResumePoint(row), false)
  }

  /** Messages already fetched that a failure restart would fetch again. */
  function Replay(r: Reader): int {
    r.fetched - ResumePoint(r.row)
  }

  function Bound(cfg: Config): int {
    cfg.persistInterval - 1 + Max(cfg.batchSize, 1)
  }

  ghost predicate Inv(cfg: Config, r: Reader) {
    && r.fetched <= Max(r.resume + Bound(cfg), if r.failed then r.cursor.offset else r.cursor.offset + 1)
    && (if r.cursor.offset == cfg.initialOffset then
          && r.cursor.savedOffset == cfg.initialOffset
          && r.position == r.resume == ResumePoint(r.row)
          && !r.failed
        else
          && r.resume <= r.cursor.savedOffset <= r.cursor.offset == r.position - 1
          && r.cursor.offset - r.cursor.savedOffset < cfg.persistInterval + (if r.failed then 1 else 0)
          && r.cursor.savedOffset - Max(cfg.batchSize, 1) + 1 <= ResumePoint(r.row)
          && r.row <= r.cursor.savedOffset + 1)
  }

  /** The stored row never falls behind the point this incarnation resumed from. */
  ghost predicate NoDrift(r: Reader) {
    r.resume <= ResumePoint(r.row)
  }

  lemma InvStep(cfg: Config, r: Reader, step: Step)
    requires cfg.Valid() && Inv(cfg, r) && (step.Restart? ==> NoDrift(r))
    ensures Inv(cfg, Apply(cfg, r, step))
    ensures Replay(r) <= Bound(cfg) || !NoDrift(r)
    ensures cfg.persistInterval + 1 >= cfg.batchSize && NoDrift(r) ==> NoDrift(Apply(cfg, r, step))
    ensures cfg.persistInterval >= cfg.batchSize ==> r.row <= Apply(cfg, r, step).row
  {
  }

  lemma {:induction false} InvRun(cfg: Config, r: Reader, steps: seq<Step>)
    requires cfg.Valid() && Inv(cfg, r) && NoDrift(r) && cfg.persistInterval + 1 >= cfg.batchSize
    ensures Inv(cfg, Run(cfg, r, steps)) && NoDrift(Run(cfg, r, steps))
    ensures cfg.persistInterval >= cfg.batchSize ==> r.row <= Run(cfg, r, steps).row
    decreases |steps|
  {
    if steps != [] {
      InvStep(cfg, r, steps[0]);
      InvRun(cfg, Apply(cfg, r, steps[0]), steps[1..]);
    }
  }

  lemma {:induction false} RunAppend(cfg: Config, r: Reader, first: seq<Step>, second: seq<Step>)
    ensures Run(cfg, r, first + second) == Run(cfg, Run(cfg, r, first), second)
    decreases |first|
  {
    if first == [] {
      assert first + second == second;
    } else {
      assert (first + second)[1..] == first[1..] + second;
      RunAppend(cfg, Apply(cfg, r, first[0]), first[1..], second);
    }
  }

  /** Whatever happens, a restart re-reads a bounded number of messages ... */
  lemma ReplayBounded(cfg: Config, row: int, steps: seq<Step>)
    requires cfg.Valid() && cfg.persistInterval + 1 >= cfg.batchSize
    ensures Replay(Run(cfg, Open(cfg, row), steps)) <= Bound(cfg)
  {
    InvRun(cfg, Open(cfg, row), steps);
    InvStep(cfg, Run(cfg, Open(cfg, row), steps), Restart);
  }

  function Fetches(n: nat): seq<Step> {
    seq(n, _ => Fetch(true))
  }

  /** A reader just after a commit at its current offset. */
  ghost predicate JustPersisted(cfg: Config, r: Reader) {
    && r.cursor.offset == r.cursor.savedOffset == r.position - 1 != cfg.initialOffset
    && r.cursor.offset >= 0
    && !r.failed
  }

  /** Fetching fewer messages than the interval persists nothing. */
  lemma {:induction false} QuietFetches(cfg: Config, r: Reader, n: nat)
    requires cfg.Valid() && !r.failed && 0 <= r.cursor.offset == r.position - 1
    requires r.cursor.offset + n - r.cursor.savedOffset < cfg.persistInterval
    ensures Run(cfg, r, Fetches(n)) ==
      Reader(Cursor(r.cursor.offset + n, r.cursor.savedOffset), r.row, r.resume, r.position + n,
             if n == 0 then r.fetched else Max(r.fetched, r.position + n), false)
    decreases n
  {
    if n != 0 {
      assert Fetches(n)[1..] == Fetches(n - 1);
      QuietFetches(cfg, Apply(cfg, r, Fetch(true)), n - 1);
    }
  }

  /** Exactly one interval after a commit the row is written again, batchSize-1 behind. */
  lemma IntervalFetches(cfg: Config, r: Reader)
    requires cfg.Valid() && JustPersisted(cfg, r)
    ensures var o := r.cursor.offset + cfg.persistInterval;
      Run(cfg, r, Fetches(cfg.persistInterval)) ==
      Reader(Cursor(o, o), o - cfg.batchSize + 1, r.resume, o + 1, Max(r.fetched, o + 1), false)
  {
    var p := cfg.persistInterval;
    QuietFetches(cfg, r, p - 1);
    assert Fetches(p) == Fetches(p - 1) + Fetches(1);
    RunAppend(cfg, r, Fetches(p - 1), Fetches(1));
    assert Fetches(1)[1..] == [];
    assert Run(cfg, Run(cfg, r, Fetches(p - 1)), Fetches(1)) == Apply(cfg, Run(cfg, r, Fetches(p - 1)), Fetch(true));
  }

  /** One incarnation that fetches just enough to write the row once by interval. */
  function Round(cfg: Config): seq<Step> {
    [Restart] + [Fetch(true)] + Fetches(cfg.persistInterval)
  }

  lemma RoundEffect(cfg: Config, r: Reader)
    requires cfg.Valid() && r.row >= 0
    ensures var e := Run(cfg, r, Round(cfg));
      && JustPersisted(cfg, e)
      && e.cursor.offset == r.row + cfg.persistInterval
      && e.row == r.row + cfg.persistInterval - cfg.batchSize + 1
      && e.fetched == Max(r.fetched, r.row + cfg.persistInterval + 1)
  {
    var r1 := Apply(cfg, r, Restart);
    var r2 := Apply(cfg, r1, Fetch(true));
    var f := Fetches(cfg.persistInterval);
    assert Round(cfg)[1..] == [Fetch(true)] + f;
    assert ([Fetch(true)] + f)[1..] == f;
    IntervalFetches(cfg, r2);
  }

  /** The bound is met exactly: it cannot be stated any smaller. */
  lemma ReplayBoundAttained(cfg: Config) returns (row: int, steps: seq<Step>)
    requires cfg.Valid() && cfg.batchSize >= 1
    ensures Replay(Run(cfg, Open(cfg, row), steps)) == Bound(cfg)
  {
    row := cfg.batchSize;
    var r := Open(cfg, row);
    RoundEffect(cfg, r);
    var e := Run(cfg, r, Round(cfg));
    QuietFetches(cfg, e, cfg.persistInterval - 1);
    RunAppend(cfg, r, Round(cfg), Fetches(cfg.persistInterval - 1));
    steps := Round(cfg) + Fetches(cfg.persistInterval - 1);
  }

  function Rounds(cfg: Config, n: nat): seq<Step> {
    if n == 0 then [] else Round(cfg) + Rounds(cfg, n - 1)
  }

  /** With a batch size over interval + 1, every failure restart may step the stored row back. */
  lemma {:induction false} RoundsDrift(cfg: Config, r: Reader, n: nat)
    requires cfg.Valid() && r.row >= n * cfg.batchSize && cfg.persistInterval + 1 < cfg.batchSize
    ensures var e := Run(cfg, r, Rounds(cfg, n));
      e.row <= r.row - n && e.fetched >= r.fetched
    decreases n
  {
    if n != 0 {
      assert n * cfg.batchSize == (n - 1) * cfg.batchSize + cfg.batchSize;
      RoundEffect(cfg, r);
      RunAppend(cfg, r, Round(cfg), Rounds(cfg, n - 1));
      RoundsDrift(cfg, Run(cfg, r, Round(cfg)), n - 1);
    }
  }

  /** Unlimited replay over restarts when batchSize exceeds the interval by more than one. */
  lemma ReplayUnbounded(cfg: Config, n: nat) returns (row: int, steps: seq<Step>)
    requires cfg.Valid() && cfg.persistInterval + 1 < cfg.batchSize
    ensures Replay(Run(cfg, Open(cfg, row), steps)) >= n
  {
    row := n * cfg.batchSize;
    steps := Rounds(cfg, n);
    RoundsDrift(cfg, Open(cfg, row), n);
    assert n * cfg.batchSize >= n;
  }

  ghost predicate ReplayAtMost(cfg: Config, n: nat) {
    forall row: int, steps: seq<Step> :: Replay(Run(cfg, Open(cfg, row), steps)) <= n
  }

  /** ... exactly when the pipe's batch size is at most one over the persist interval. */
  lemma ReplayBoundedExactlyWhen(cfg: Config)
    requires cfg.Valid()
    ensures (exists n: nat :: ReplayAtMost(cfg, n)) <==> cfg.batchSize <= cfg.persistInterval + 1
  {
    if cfg.batchSize <= cfg.persistInterval + 1 {
      forall row: int, steps: seq<Step>
        ensures Replay(Run(cfg, Open(cfg, row), steps)) <= Bound(cfg)
      {
        ReplayBounded(cfg, row, steps);
      }
      assert ReplayAtMost(cfg, Bound(cfg));
    } else {
      forall n: nat
        ensures !ReplayAtMost(cfg, n)
      {
        var row, steps := ReplayUnbounded(cfg, n + 1);
        assert !(Replay(Run(cfg, Open(cfg, row), steps)) <= n);
      }
    }
  }

  /** Without a restart in between, the bound holds for every interval. */
  lemma {:induction false} ReplayWithinIncarnation(cfg: Config, r: Reader, steps: seq<Step>)
    requires cfg.Valid() && Inv(cfg, r) && Restart !in steps
    requires r.fetched <= if r.failed then r.cursor.offset else r.position
    ensures Replay(Run(cfg, r, steps)) <= Bound(cfg)
    decreases |steps|
  {
    if steps != [] {
      assert steps[0] in steps;
      assert forall s :: s in steps[1..] ==> s in steps;
      InvStep(cfg, r, steps[0]);
      ReplayWithinIncarnation(cfg, Apply(cfg, r, steps[0]), steps[1..]);
    }
  }

  /** Over the whole of any run, from any row, the stored offset never moves back. */
  ghost predicate NeverMovesBack(cfg: Config) {
    forall row: int, first: seq<Step>, second: seq<Step> ::
      Run(cfg, Open(cfg, row), first).row <= Run(cfg, Run(cfg, Open(cfg, row), first), second).row
  }

  lemma StoredOffsetMonotoneExactlyWhen(cfg: Config)
    requires cfg.Valid()
    ensures NeverMovesBack(cfg) <==> cfg.batchSize <= cfg.persistInterval
  {
    if cfg.batchSize <= cfg.persistInterval {
      forall row: int, first: seq<Step>, second: seq<Step>
        ensures Run(cfg, Open(cfg, row), first).row <= Run(cfg, Run(cfg, Open(cfg, row), first), second).row
      {
        InvRun(cfg, Open(cfg, row), first);
        InvRun(cfg, Run(cfg, Open(cfg, row), first), second);
      }
    } else {
      var first, second := [Fetch(true), Save(true)], Fetches(cfg.persistInterval);
      var r := Open(cfg, 0);
      assert first[1..] == [Save(true)] && [Save(true)][1..] == [];
      var r1 := Apply(cfg, Apply(cfg, r, Fetch(true)), Save(true));
      assert Run(cfg, r, first) == r1;
      IntervalFetches(cfg, r1);
      assert Run(cfg, Run(cfg, r, first), second).row < Run(cfg, r, first).row;
    }
  }
}
