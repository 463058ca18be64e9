/**
 At-least-once delivery from a Kafka buffer to the output pipe (streamer/buffer.go over
 pipe/kafka.go): the fetcher goroutine, the bounded helper channel, the main loop and its output
 batch are interleaved steps, and a restart may happen between any two of them.
 */
module Delivery {
  import opened Options
  import opened KafkaOffsets

  /** A fetched event; `ok` is false when FetchNext reported an error with it. */
  datatype Message = Message(partition: nat, offset: nat, ok: bool)

  /**
   One partition: the cursor in memory, the row of kafka_offsets, the first offset the service was
   ever asked to deliver, the next offset Kafka hands out, and the end of the log.
   */
  datatype Lane = Lane(cursor: Cursor, row: Option<int>, first: nat, position: nat, end: nat)

  datatype Pipeline = Pipeline(
    lanes: seq<Lane>,
    fetcher: Option<Message>,
    fetching: bool,
    channel: seq<Message>,
    current: Option<Message>,
    batch: seq<Message>,
    committed: set<(nat, nat)>)

  /** `batch` is the streamer's batch size; the consumer side of the buffer pipe uses cfg.batchSize. */
  datatype Setup = Setup(cfg: Config, batch: nat)
  {
    predicate Valid() {
      cfg.Valid() && batch >= 1
    }
  }

  datatype Step =
    | Produce(partition: nat)
    | Fetch(partition: nat, sqlOk: bool)
    | Enqueue
    | Take
    | Push
    | CommitBatch
    | SaveOffset(partition: nat)
    | Restart

  function Queue(m: Option<Message>): seq<Message> {
    if m.Some? then [m.value] else []
  }

  /** Everything fetched and not yet covered by a successful PushBatchCommit, oldest first. */
  function InFlight(s: Pipeline): seq<Message> {
    s.batch + Queue(s.current) + s.channel + Queue(s.fetcher)
  }

  predicate Enabled(u: Setup, s: Pipeline, step: Step) {
    match step
    case Produce(p) => p < |s.lanes|
    case Fetch(p, _) => p < |s.lanes| && s.lanes[p].position < s.lanes[p].end && s.fetcher.None? && s.fetching
    case Enqueue => s.fetcher.Some? && |s.channel| < u.batch
    case Take => s.current.None? && s.channel != [] && |s.batch| < u.batch
    case Push => s.current.Some? && s.current.value.ok
    case CommitBatch => s.current.None? && s.batch != []
    case SaveOffset(p) => p < |s.lanes|
    case Restart => true
  }

  function SetLane(s: Pipeline, p: nat, c: Commit): Pipeline
    requires p < |s.lanes|
  {
    s.(lanes := s.lanes[p := s.lanes[p].(cursor := c.cursor, row := c.row)])
  }

  /** initTopicConsumer: a partition resumes at its stored row, or at the configured initial offset. */
  function Reopen(cfg: Config, lane: Lane): Lane {
    lane.(cursor := FreshCursor(cfg),
          position := if lane.row.Some? then ResumePoint(lane.row.value)
                      else if cfg.initialOffset == OFFSET_OLDEST then 0 else lane.end)
  }

  function Keys(messages: seq<Message>): set<(nat, nat)> {
    set m | m in messages :: (m.partition, m.offset)
  }

  function Apply(u: Setup, s: Pipeline, step: Step): Pipeline {
    if !Enabled(u, s, step) then s else
    match step
    case Produce(p) =>
      s.(lanes := s.lanes[p := s.lanes[p].(end := s.lanes[p].end + 1)])
    case Fetch(p, sqlOk) =>
      var lane := s.lanes[p];
      var c := Committed(u.cfg, lane.cursor, lane.row, lane.position, u.cfg.persistInterval, sqlOk);
      var moved := lane.(cursor := c.cursor, row := c.row, position := lane.position + 1);
      s.(lanes := s.lanes[p := moved], fetcher := Some(Message(p, lane.position, c.ok)), fetching := c.ok)
    case Enqueue => s.(channel := s.channel + [s.fetcher.value], fetcher := None)
    case Take => s.(current := Some(s.channel[0]), channel := s.channel[1..])
    case Push => s.(batch := s.batch + [s.current.value], current := None)
    case CommitBatch => s.(committed := s.committed + Keys(s.batch), batch := [])
    case SaveOffset(p) =>
      SetLane(s, p, Committed(u.cfg, s.lanes[p].cursor, s.lanes[p].row, s.lanes[p].cursor.offset, 0, true))
    case Restart =>
      Pipeline(seq(|s.lanes|, i requires 0 <= i < |s.lanes| => Reopen(u.cfg, s.lanes[i])),
               None, true, [], None, [], s.committed)
  }

  function Run(u: Setup, s: Pipeline, steps: seq<Step>): Pipeline
    decreases |steps|
  {
    if steps == [] then s else Run(u, Apply(u, s, steps[0]), steps[1..])
  }

  /** A first start over any stored rows and any log: `first` is where each partition begins. */
  ghost predicate Initial(u: Setup, s: Pipeline) {
    && InFlight(s) == [] && s.committed == {} && s.fetching
    && forall p :: 0 <= p < |s.lanes| ==>
         var lane := s.lanes[p];
         lane == Reopen(u.cfg, lane) && lane.first == lane.position <= lane.end
  }

  // ---------------------------------------------------------------------------------------------
  // What must hold
  // ---------------------------------------------------------------------------------------------

  /** Every message of the partition already handed out is committed or still in the pipeline. */
  ghost predicate NothingSkipped(s: Pipeline, p: nat)
    requires p < |s.lanes|
  {
    forall o :: s.lanes[p].first <= o < s.lanes[p].position ==>
      (p, o) in s.committed || (p, o) in Keys(InFlight(s))
  }

  ghost predicate NothingLost(s: Pipeline) {
    forall p :: 0 <= p < |s.lanes| ==> NothingSkipped(s, p)
  }

  /** The stored offset has not passed a message that is not committed. */
  ghost predicate StoredBehindCommits(s: Pipeline) {
    forall p, o :: 0 <= p < |s.lanes| && s.lanes[p].row.Some? && s.lanes[p].first <= o < s.lanes[p].row.value ==>
      (p, o) in s.committed
  }

  // ---------------------------------------------------------------------------------------------
  // The invariant
  // ---------------------------------------------------------------------------------------------

  function Offsets(q: seq<Message>, p: nat): seq<nat> {
    if q == [] then [] else (if q[0].partition == p then [q[0].offset] else []) + Offsets(q[1..], p)
  }

  /** The offsets of partition p in flight. */
  function Pending(s: Pipeline, p: nat): seq<nat> {
    Offsets(InFlight(s), p)
  }

  ghost predicate EndsAt(offsets: seq<nat>, end: nat) {
    forall i :: 0 <= i < |offsets| ==> offsets[i] == end - |offsets| + i
  }

  ghost predicate LaneInv(u: Setup, s: Pipeline, p: nat)
    requires p < |s.lanes|
  {
    var lane, pending := s.lanes[p], Pending(s, p);
    && EndsAt(pending, lane.position)
    && (forall o :: lane.first <= o < lane.position - |pending| ==> (p, o) in s.committed)
    && (lane.row.Some? ==> lane.row.value <= lane.position - |pending|)
    && lane.position <= lane.end
    && (lane.cursor.offset != u.cfg.initialOffset ==> lane.cursor.savedOffset <= lane.cursor.offset == lane.position - 1)
    && (lane.cursor.offset == u.cfg.initialOffset ==> pending == [] && lane.cursor.savedOffset == u.cfg.initialOffset)
  }

  /** The bound of main.go: a batch being sent, a full helper channel, and one waiting fetcher. */
  ghost predicate Bounded(u: Setup, s: Pipeline) {
    |s.batch| + |Queue(s.current)| <= u.batch && |s.channel| <= u.batch
  }

  ghost predicate Inv(u: Setup, s: Pipeline) {
    Bounded(u, s) && forall p :: 0 <= p < |s.lanes| ==> LaneInv(u, s, p)
  }

  lemma {:induction false} OffsetsAppend(a: seq<Message>, b: seq<Message>, p: nat)
    ensures Offsets(a + b, p) == Offsets(a, p) + Offsets(b, p)
    decreases |a|
  {
    if a == [] {
      assert a + b == b;
    } else {
      assert (a + b)[0] == a[0] && (a + b)[1..] == a[1..] + b;
      OffsetsAppend(a[1..], b, p);
      var first := if a[0].partition == p then [a[0].offset] else [];
      assert first + (Offsets(a[1..], p) + Offsets(b, p)) == (first + Offsets(a[1..], p)) + Offsets(b, p);
    }
  }

  lemma {:induction false} OffsetsMembers(q: seq<Message>, p: nat)
    ensures |Offsets(q, p)| <= |q|
    ensures forall o :: o in Offsets(q, p) <==> (p, o) in Keys(q)
    decreases |q|
  {
    if q != [] {
      OffsetsMembers(q[1..], p);
      assert q == [q[0]] + q[1..];
      assert Keys(q) == {(q[0].partition, q[0].offset)} + Keys(q[1..]);
    }
  }

  /** Pending offsets only depend on the order of the events in flight. */
  lemma PendingOf(s: Pipeline, p: nat)
    ensures Pending(s, p) ==
      Offsets(s.batch, p) + Offsets(Queue(s.current) + s.channel + Queue(s.fetcher), p)
    ensures |Pending(s, p)| <= |InFlight(s)|
    ensures forall o :: o in Pending(s, p) <==> (p, o) in Keys(InFlight(s))
  {
    assert InFlight(s) == s.batch + (Queue(s.current) + s.channel + Queue(s.fetcher));
    OffsetsAppend(s.batch, Queue(s.current) + s.channel + Queue(s.fetcher), p);
    OffsetsMembers(InFlight(s), p);
  }

  /** Handing an event from one stage to the next changes nothing in flight. */
  lemma StagesKeepOrder(u: Setup, s: Pipeline, step: Step)
    requires Bounded(u, s) && (step.Enqueue? || step.Take? || step.Push?)
    ensures var t := Apply(u, s, step);
      InFlight(t) == InFlight(s) && t.lanes == s.lanes && t.committed == s.committed && Bounded(u, t)
  {
    var t := Apply(u, s, step);
    if Enabled(u, s, step) && step.Take? {
      assert s.channel == [s.channel[0]] + s.channel[1..];
    }
    assert InFlight(t) == InFlight(s);
  }

  /** A fetched event joins the end of the queue; only its own partition sees it. */
  lemma FetchExtendsPending(u: Setup, s: Pipeline, step: Step, p: nat)
    requires step.Fetch? && Enabled(u, s, step)
    ensures Pending(Apply(u, s, step), p) ==
      Pending(s, p) + (if p == step.partition then [s.lanes[p].position] else [])
  {
    var t := Apply(u, s, step);
    assert InFlight(t) == InFlight(s) + [t.fetcher.value];
    OffsetsAppend(InFlight(s), [t.fetcher.value], p);
    assert [t.fetcher.value][1..] == [];
  }

  /** The row FetchNext writes stays behind everything in flight: batchSize-1 is enough room. */
  lemma FetchKeepsLaneInv(u: Setup, s: Pipeline, step: Step)
    requires u.Valid() && u.cfg.batchSize >= 2 * u.batch + 1 && Inv(u, s)
    requires step.Fetch? && Enabled(u, s, step)
    ensures LaneInv(u, Apply(u, s, step), step.partition)
  {
    var p := step.partition;
    var t := Apply(u, s, step);
    assert LaneInv(u, s, p);
    FetchExtendsPending(u, s, step, p);
    PendingOf(t, p);
    assert |InFlight(t)| <= 2 * u.batch + 1;
  }

  lemma FetchKeepsInv(u: Setup, s: Pipeline, step: Step)
    requires u.Valid() && u.cfg.batchSize >= 2 * u.batch + 1 && Inv(u, s) && step.Fetch?
    ensures Inv(u, Apply(u, s, step))
  {
    if Enabled(u, s, step) {
      var t := Apply(u, s, step);
      forall p | 0 <= p < |t.lanes|
        ensures LaneInv(u, t, p)
      {
        if p == step.partition {
          FetchKeepsLaneInv(u, s, step);
        } else {
          assert LaneInv(u, s, p);
          FetchExtendsPending(u, s, step, p);
        }
      }
    }
  }

  lemma CommitKeepsInv(u: Setup, s: Pipeline)
    requires Inv(u, s)
    ensures Inv(u, Apply(u, s, CommitBatch))
  {
    if !Enabled(u, s, CommitBatch) {
      return;
    }
    var t := Apply(u, s, CommitBatch);
    forall p | 0 <= p < |t.lanes|
      ensures LaneInv(u, t, p)
    {
      assert LaneInv(u, s, p);
      var sent, rest := Offsets(s.batch, p), Queue(s.current) + s.channel + Queue(s.fetcher);
      assert InFlight(t) == rest;
      PendingOf(s, p);
      OffsetsMembers(s.batch, p);
      var was, now := Pending(s, p), Pending(t, p);
      assert was == sent + now;
      forall i | 0 <= i < |now|
        ensures now[i] == t.lanes[p].position - |now| + i
      {
        assert now[i] == was[|sent| + i];
      }
      forall o | s.lanes[p].position - |was| <= o < s.lanes[p].position - |now|
        ensures (p, o) in t.committed
      {
        assert was[o - (s.lanes[p].position - |was|)] == o;
        assert o in sent;
      }
    }
  }

  /** The lanes a restart resumes without skipping anything. */
  ghost predicate Recoverable(u: Setup, s: Pipeline) {
    forall p :: 0 <= p < |s.lanes| ==>
      || s.lanes[p].row.Some?
      || u.cfg.initialOffset == OFFSET_OLDEST
      || forall o :: s.lanes[p].first <= o < s.lanes[p].end ==> (p, o) in s.committed
  }

  /** SaveOffset only for a partition with nothing in flight, restarts only from recoverable states. */
  ghost predicate Safe(u: Setup, s: Pipeline, step: Step) {
    match step
    case SaveOffset(p) => Pending(s, p) == []
    case Restart => Recoverable(u, s)
    case _ => true
  }

  lemma StepKeepsInv(u: Setup, s: Pipeline, step: Step)
    requires u.Valid() && u.cfg.batchSize >= 2 * u.batch + 1 && Inv(u, s) && Safe(u, s, step)
    ensures Inv(u, Apply(u, s, step))
  {
    hide Keys;
    var t := Apply(u, s, step);
    match step
    case Fetch(_, _) => FetchKeepsInv(u, s, step);
    case CommitBatch => CommitKeepsInv(u, s);
    case Restart =>
      forall p | 0 <= p < |t.lanes|
        ensures LaneInv(u, t, p)
      {
        assert LaneInv(u, s, p) && Pending(t, p) == [];
      }
    case Produce(_) =>
      assert InFlight(t) == InFlight(s);
      forall p | 0 <= p < |t.lanes|
        ensures LaneInv(u, t, p)
      {
        assert LaneInv(u, s, p);
      }
    case SaveOffset(_) =>
      assert InFlight(t) == InFlight(s);
      forall p | 0 <= p < |t.lanes|
        ensures LaneInv(u, t, p)
      {
        assert LaneInv(u, s, p);
      }
    case _ =>
      StagesKeepOrder(u, s, step);
      forall p | 0 <= p < |t.lanes|
        ensures LaneInv(u, t, p)
      {
        assert LaneInv(u, s, p);
      }
  }

  ghost predicate SafeRun(u: Setup, s: Pipeline, steps: seq<Step>)
    decreases |steps|
  {
    steps == [] || (Safe(u, s, steps[0]) && SafeRun(u, Apply(u, s, steps[0]), steps[1..]))
  }

  lemma {:induction false} RunKeepsInv(u: Setup, s: Pipeline, steps: seq<Step>)
    requires u.Valid() && u.cfg.batchSize >= 2 * u.batch + 1 && Inv(u, s) && SafeRun(u, s, steps)
    ensures Inv(u, Run(u, s, steps))
    decreases |steps|
  {
    if steps != [] {
      StepKeepsInv(u, s, steps[0]);
      RunKeepsInv(u, Apply(u, s, steps[0]), steps[1..]);
    }
  }

  lemma InvMeansNothingLost(u: Setup, s: Pipeline)
    requires Inv(u, s)
    ensures NothingLost(s) && StoredBehindCommits(s)
  {
    forall p | 0 <= p < |s.lanes|
      ensures NothingSkipped(s, p)
      ensures s.lanes[p].row.Some? ==> forall o :: s.lanes[p].first <= o < s.lanes[p].row.value ==> (p, o) in s.committed
    {
      assert LaneInv(u, s, p);
      PendingOf(s, p);
      var lane, pending := s.lanes[p], Pending(s, p);
      forall o | lane.first <= o < lane.position && (p, o) !in s.committed
        ensures (p, o) in Keys(InFlight(s))
      {
        assert pending[o - (lane.position - |pending|)] == o;
      }
    }
  }

  lemma InitialInv(u: Setup, s: Pipeline)
    requires u.Valid() && Initial(u, s)
    ensures Inv(u, s)
  {
    assert |InFlight(s)| == |s.batch| + |Queue(s.current)| + |s.channel| + |Queue(s.fetcher)|;
    forall p | 0 <= p < |s.lanes|
      ensures LaneInv(u, s, p)
    {
      assert Pending(s, p) == [];
    }
  }

  /** Over any run of safe steps nothing handed out is ever skipped, whatever the interleaving. */
  lemma AtLeastOnce(u: Setup, s: Pipeline, steps: seq<Step>)
    requires u.Valid() && u.cfg.batchSize >= 2 * u.batch + 1 && Initial(u, s) && SafeRun(u, s, steps)
    ensures NothingLost(Run(u, s, steps)) && StoredBehindCommits(Run(u, s, steps))
  {
    InitialInv(u, s);
    RunKeepsInv(u, s, steps);
    InvMeansNothingLost(u, Run(u, s, steps));
  }

  /** Offsets written by FetchNext alone, and a position to resume from, make every step safe. */
  lemma {:induction false} FetchOnlyRunsAreSafe(u: Setup, s: Pipeline, steps: seq<Step>)
    requires forall step :: step in steps ==> !step.SaveOffset?
    requires u.cfg.initialOffset == OFFSET_OLDEST || forall p :: 0 <= p < |s.lanes| ==> s.lanes[p].row.Some?
    ensures SafeRun(u, s, steps)
    decreases |steps|
  {
    if steps != [] {
      assert steps[0] in steps;
      assert forall step :: step in steps[1..] ==> step in steps;
      FetchOnlyRunsAreSafe(u, Apply(u, s, steps[0]), steps[1..]);
    }
  }

  // ---------------------------------------------------------------------------------------------
  // Exactly when a restart or an explicit save loses a message
  // ---------------------------------------------------------------------------------------------

  lemma RestartLosesNothingExactlyWhen(u: Setup, s: Pipeline)
    requires u.Valid() && Inv(u, s)
    ensures NothingLost(Apply(u, s, Restart)) <==> Recoverable(u, s)
  {
    var t := Apply(u, s, Restart);
    assert Keys(InFlight(t)) == {};
    forall p | 0 <= p < |s.lanes|
      ensures NothingSkipped(t, p) <==>
        || s.lanes[p].row.Some?
        || u.cfg.initialOffset == OFFSET_OLDEST
        || forall o :: s.lanes[p].first <= o < s.lanes[p].end ==> (p, o) in s.committed
    {
      assert LaneInv(u, s, p);
    }
    if Recoverable(u, s) {
      assert forall p :: 0 <= p < |t.lanes| ==> NothingSkipped(t, p);
    }
    if NothingLost(t) {
      assert forall p :: 0 <= p < |s.lanes| ==> NothingSkipped(t, p);
    }
  }

  /**
   An explicit save (the periodic tick, or a graceful close) of a partition followed by a restart
   loses messages exactly when something of that partition is still in the pipeline uncommitted.
   */
  lemma SaveOffsetLosesNothingExactlyWhen(u: Setup, s: Pipeline, p: nat)
    requires u.Valid() && Inv(u, s) && p < |s.lanes|
    requires s.lanes[p].row.Some? || s.lanes[p].cursor.offset != u.cfg.initialOffset
    ensures var t := Apply(u, Apply(u, s, SaveOffset(p)), Restart);
      NothingSkipped(t, p) <==>
        forall o :: o in Pending(s, p) && s.lanes[p].first <= o ==> (p, o) in s.committed
  {
    assert LaneInv(u, s, p);
    var lane, pending := s.lanes[p], Pending(s, p);
    var m := Apply(u, s, SaveOffset(p));
    var t := Apply(u, m, Restart);
    assert Keys(InFlight(t)) == {};
    if lane.cursor.offset != u.cfg.initialOffset {
      assert t.lanes[p].position == lane.position;
      forall o: nat | lane.position - |pending| <= o < lane.position
        ensures o in pending
      {
        assert pending[o - (lane.position - |pending|)] == o;
      }
    }
  }

  /** One partition that nothing was read of. */
  function OnePartition(u: Setup, row: Option<int>, end: nat): Pipeline {
    Pipeline([Lane(FreshCursor(u.cfg), row, 0, 0, end)], None, true, [], None, [], {})
  }

  lemma RunThree(u: Setup, s: Pipeline, a: Step, b: Step, c: Step)
    ensures Run(u, s, [a, b, c]) == Apply(u, Apply(u, Apply(u, s, a), b), c)
  {
    assert [a, b, c][1..] == [b, c] && [b, c][1..] == [c] && [c][1..] == [];
    var s1 := Apply(u, s, a);
    var s2 := Apply(u, s1, b);
    assert Run(u, s2, [c]) == Apply(u, s2, c);
    assert Run(u, s1, [b, c]) == Run(u, s2, [c]);
  }

  const SAVE_IN_FLIGHT: seq<Step> := [Fetch(0, true), SaveOffset(0), Restart]

  /** In every setup a first event, an explicit save while it is in the pipeline, and a restart lose the event. */
  lemma SaveInFlightLoses(u: Setup)
    requires u.Valid()
    ensures Initial(u, OnePartition(u, Some(0), 1))
    ensures !NothingLost(Run(u, OnePartition(u, Some(0), 1), SAVE_IN_FLIGHT))
  {
    var s := OnePartition(u, Some(0), 1);
    RunThree(u, s, Fetch(0, true), SaveOffset(0), Restart);
    var s1 := Apply(u, s, Fetch(0, true));
    assert s1.lanes[0].cursor == Cursor(0, 0) && s1.lanes[0].row == Some(0);
    var s2 := Apply(u, s1, SaveOffset(0));
    assert s2.lanes[0].row == Some(1);
    var t := Apply(u, s2, Restart);
    assert t.lanes[0].first == 0 && t.lanes[0].position == 1;
    assert (0, 0) !in t.committed && (0, 0) !in Keys(InFlight(t));
    assert !NothingSkipped(t, 0);
  }

  const CRASH_BEFORE_FIRST_ROW: seq<Step> := [Produce(0), Restart]

  /** Starting from the newest offset, what is produced before a crash that comes before the first row is lost. */
  lemma CrashBeforeFirstRowLoses(u: Setup)
    requires u.Valid() && u.cfg.initialOffset == OFFSET_NEWEST
    ensures Initial(u, OnePartition(u, None, 0))
    ensures !NothingLost(Run(u, OnePartition(u, None, 0), CRASH_BEFORE_FIRST_ROW))
  {
    var s := OnePartition(u, None, 0);
    assert CRASH_BEFORE_FIRST_ROW[1..] == [Restart] && [Restart][1..] == [];
    var s1 := Apply(u, s, Produce(0));
    assert s1.lanes[0].end == 1;
    var t := Apply(u, s1, Restart);
    assert Run(u, s1, [Restart]) == t && Run(u, s, CRASH_BEFORE_FIRST_ROW) == t;
    assert t.lanes[0].first == 0 && t.lanes[0].position == 1;
    assert (0, 0) !in t.committed && (0, 0) !in Keys(InFlight(t));
    assert !NothingSkipped(t, 0);
  }

  // ---------------------------------------------------------------------------------------------
  // 2*batch+1 is tight
  // ---------------------------------------------------------------------------------------------

  function Events(from: nat, n: nat): seq<Message> {
    seq(n, i requires 0 <= i < n => Message(0, from + i, true))
  }

  /** Cursor and row of a partition that started at offset 0, after n fetches. */
  function Tracked(cfg: Config, n: nat): Commit {
    if n == 0 then Commit(FreshCursor(cfg), Some(0), true)
    else
      var before := Tracked(cfg, n - 1);
      Committed(cfg, before.cursor, before.row, n - 1, cfg.persistInterval, true)
  }

  lemma TrackedNext(cfg: Config, n: nat)
    ensures Tracked(cfg, n + 1)
         == Committed(cfg, Tracked(cfg, n).cursor, Tracked(cfg, n).row, n, cfg.persistInterval, true)
  {
  }

  lemma {:induction false} TrackedIsOk(cfg: Config, n: nat)
    ensures Tracked(cfg, n).ok
  {
  }

  /** The row is written with the offsets that are multiples of the interval, the first apart. */
  lemma {:induction false} RowFollowsInterval(cfg: Config, m: nat, d: nat)
    requires cfg.Valid() && d < cfg.persistInterval
    ensures var at, t := m * cfg.persistInterval, Tracked(cfg, m * cfg.persistInterval + d + 1);
      t.cursor == Cursor(at + d, at) && (m >= 1 ==> t.row == Some(at - cfg.batchSize + 1))
    decreases m, d
  {
    assert Tracked(cfg, 0).cursor == FreshCursor(cfg);
    hide Tracked;
    var interval, at := cfg.persistInterval, m * cfg.persistInterval;
    TrackedNext(cfg, at + d);
    if d > 0 {
      RowFollowsInterval(cfg, m, d - 1);
    } else if m > 0 {
      assert at == (m - 1) * interval + (interval - 1) + 1;
      RowFollowsInterval(cfg, m - 1, interval - 1);
    }
  }

  /**
   One partition of which `done` events are committed one by one and `inBatch` and `inChannel` more are fetched:
   the batch and the channel hold them.
   */
  function Filled(u: Setup, end: nat, done: nat, inBatch: nat, inChannel: nat): Pipeline {
    var n := done + inBatch + inChannel;
    var t := Tracked(u.cfg, n);
    Pipeline([Lane(t.cursor, t.row, 0, n, end)], None, true,
             Events(done + inBatch, inChannel), None, Events(done, inBatch), Keys(Events(0, done)))
  }

  const ONE_EVENT: seq<Step> := [Fetch(0, true), Enqueue, Take, Push]

  function CommitEach(n: nat): seq<Step> {
    if n == 0 then [] else CommitEach(n - 1) + (ONE_EVENT + [CommitBatch])
  }

  function FillBatch(n: nat): seq<Step> {
    if n == 0 then [] else FillBatch(n - 1) + ONE_EVENT
  }

  function FillChannel(n: nat): seq<Step> {
    if n == 0 then [] else FillChannel(n - 1) + [Fetch(0, true), Enqueue]
  }

  lemma {:induction false} RunAppend(u: Setup, s: Pipeline, first: seq<Step>, second: seq<Step>)
    ensures Run(u, s, first + second) == Run(u, Run(u, s, first), second)
    decreases |first|
  {
    if first == [] {
      assert first + second == second;
    } else {
      assert (first + second)[1..] == first[1..] + second;
      RunAppend(u, Apply(u, s, first[0]), first[1..], second);
    }
  }

  /** A fetch and its hand-over to the channel. */
  lemma FetchAndEnqueue(u: Setup, end: nat, done: nat, inBatch: nat, inChannel: nat)
    requires done + inBatch + inChannel < end && inChannel < u.batch
    ensures Run(u, Filled(u, end, done, inBatch, inChannel), [Fetch(0, true), Enqueue])
         == Filled(u, end, done, inBatch, inChannel + 1)
  {
    hide Keys, Tracked, Committed;
    var s, n := Filled(u, end, done, inBatch, inChannel), done + inBatch + inChannel;
    TrackedNext(u.cfg, n);
    TrackedIsOk(u.cfg, n + 1);
    assert Events(done + inBatch, inChannel + 1) == Events(done + inBatch, inChannel) + [Message(0, n, true)];
    var s1 := Apply(u, s, Fetch(0, true));
    assert Apply(u, s1, Enqueue) == Filled(u, end, done, inBatch, inChannel + 1);
    RunTwoSteps(u, s, Fetch(0, true), Enqueue);
  }

  lemma RunTwoSteps(u: Setup, s: Pipeline, a: Step, b: Step)
    ensures Run(u, s, [a, b]) == Apply(u, Apply(u, s, a), b)
  {
    assert [a, b][1..] == [b] && [b][1..] == [];
    assert Run(u, Apply(u, s, a), [b]) == Apply(u, Apply(u, s, a), b);
  }

  /** An event goes all the way to the batch. */
  lemma OneEvent(u: Setup, end: nat, done: nat, inBatch: nat)
    requires inBatch < u.batch && done + inBatch < end
    ensures Run(u, Filled(u, end, done, inBatch, 0), ONE_EVENT) == Filled(u, end, done, inBatch + 1, 0)
  {
    hide Keys, Tracked;
    var s0, s1 := Filled(u, end, done, inBatch, 0), Filled(u, end, done, inBatch, 1);
    FetchAndEnqueue(u, end, done, inBatch, 0);
    assert ONE_EVENT == [Fetch(0, true), Enqueue] + [Take, Push];
    RunAppend(u, s0, [Fetch(0, true), Enqueue], [Take, Push]);
    RunTwoSteps(u, s1, Take, Push);
    assert s1.channel == [Message(0, done + inBatch, true)];
    assert Events(done, inBatch + 1) == Events(done, inBatch) + [Message(0, done + inBatch, true)];
    assert s1.channel[1..] == Events(done + inBatch + 1, 0);
    assert Apply(u, Apply(u, s1, Take), Push) == Filled(u, end, done, inBatch + 1, 0);
  }

  lemma KeysOfNext(n: nat)
    ensures Keys(Events(0, n)) + Keys(Events(n, 1)) == Keys(Events(0, n + 1))
  {
    assert Events(0, n + 1) == Events(0, n) + Events(n, 1);
  }

  lemma CommitsOne(u: Setup, end: nat, n: nat)
    ensures Run(u, Filled(u, end, n, 1, 0), [CommitBatch]) == Filled(u, end, n + 1, 0, 0)
  {
    var s := Filled(u, end, n, 1, 0);
    KeysOfNext(n);
    hide Tracked, Keys;
    assert Events(n + 1, 0) == [] == Events(n, 0);
    assert [CommitBatch][1..] == [] && Run(u, s, [CommitBatch]) == Apply(u, s, CommitBatch);
  }

  lemma {:induction false} CommitsEach(u: Setup, end: nat, n: nat)
    requires u.batch >= 1 && n <= end
    ensures Run(u, Filled(u, end, 0, 0, 0), CommitEach(n)) == Filled(u, end, n, 0, 0)
    decreases n
  {
    hide Filled, Apply;
    if n != 0 {
      CommitsEach(u, end, n - 1);
      RunAppend(u, Filled(u, end, 0, 0, 0), CommitEach(n - 1), ONE_EVENT + [CommitBatch]);
      OneEvent(u, end, n - 1, 0);
      RunAppend(u, Filled(u, end, n - 1, 0, 0), ONE_EVENT, [CommitBatch]);
      CommitsOne(u, end, n - 1);
    }
  }

  lemma {:induction false} BatchFills(u: Setup, end: nat, done: nat, n: nat)
    requires n <= u.batch && done + n <= end
    ensures Run(u, Filled(u, end, done, 0, 0), FillBatch(n)) == Filled(u, end, done, n, 0)
    decreases n
  {
    hide Filled, Apply;
    if n != 0 {
      BatchFills(u, end, done, n - 1);
      RunAppend(u, Filled(u, end, done, 0, 0), FillBatch(n - 1), ONE_EVENT);
      OneEvent(u, end, done, n - 1);
    }
  }

  lemma {:induction false} ChannelFills(u: Setup, end: nat, done: nat, inBatch: nat, n: nat)
    requires n <= u.batch && done + inBatch + n <= end
    ensures Run(u, Filled(u, end, done, inBatch, 0), FillChannel(n)) == Filled(u, end, done, inBatch, n)
    decreases n
  {
    hide Filled, Apply;
    if n != 0 {
      ChannelFills(u, end, done, inBatch, n - 1);
      RunAppend(u, Filled(u, end, done, inBatch, 0), FillChannel(n - 1), [Fetch(0, true), Enqueue]);
      FetchAndEnqueue(u, end, done, inBatch, n - 1);
    }
  }

  /** A number of events, at least 2 * batch, with which the row is written. */
  function Overfull(u: Setup): nat {
    2 * u.batch * u.cfg.persistInterval
  }

  lemma OverfullIsEnough(u: Setup)
    requires u.Valid()
    ensures Overfull(u) >= 2 * u.batch
  {
  }

  /** Commits event by event, fills batch and channel up to an offset whose fetch writes the row, and crashes. */
  function OverfillAndCrash(u: Setup): seq<Step>
    requires u.Valid()
  {
    OverfullIsEnough(u);
    CommitEach(Overfull(u) - 2 * u.batch)
    + (FillBatch(u.batch) + (FillChannel(u.batch) + [Fetch(0, true), Restart]))
  }

  lemma {:induction false} FillsOnlyFetch(n: nat)
    ensures forall step :: step in CommitEach(n) || step in FillBatch(n) || step in FillChannel(n) ==> !step.SaveOffset?
    decreases n
  {
    if n != 0 {
      FillsOnlyFetch(n - 1);
    }
  }

  /** The state right before the last fetch. */
  lemma ReachesFull(u: Setup, end: nat)
    requires u.Valid() && Overfull(u) >= 2 * u.batch && end == Overfull(u) + 1
    ensures var full := Filled(u, end, Overfull(u) - 2 * u.batch, u.batch, u.batch);
      Run(u, Filled(u, end, 0, 0, 0), OverfillAndCrash(u)) == Apply(u, Apply(u, full, Fetch(0, true)), Restart)
  {
    hide Filled, Apply, Overfull, CommitEach, FillBatch, FillChannel;
    var b, done := u.batch, Overfull(u) - 2 * u.batch;
    CommitsEach(u, end, done);
    BatchFills(u, end, done, b);
    ChannelFills(u, end, done, b, b);
    var last := [Fetch(0, true), Restart];
    RunAppend(u, Filled(u, end, 0, 0, 0), CommitEach(done), FillBatch(b) + (FillChannel(b) + last));
    RunAppend(u, Filled(u, end, done, 0, 0), FillBatch(b), FillChannel(b) + last);
    RunAppend(u, Filled(u, end, done, b, 0), FillChannel(b), last);
    RunTwoSteps(u, Filled(u, end, done, b, b), Fetch(0, true), Restart);
  }

  /** What the last fetch and the crash leave: the row has passed the oldest event in flight. */
  lemma CrashSkipsOldest(u: Setup, end: nat, full: Pipeline)
    requires u.Valid() && u.cfg.batchSize <= 2 * u.batch && Overfull(u) >= 2 * u.batch && end == Overfull(u) + 1
    requires full == Filled(u, end, Overfull(u) - 2 * u.batch, u.batch, u.batch)
    ensures !NothingLost(Apply(u, Apply(u, full, Fetch(0, true)), Restart))
  {
    var at, oldest := Overfull(u), Overfull(u) - 2 * u.batch;
    TrackedNext(u.cfg, at);
    assert 2 * u.batch >= 1;
    RowFollowsInterval(u.cfg, 2 * u.batch, 0);
    hide Tracked, Overfull;
    var fetched := Apply(u, full, Fetch(0, true));
    var t := Apply(u, fetched, Restart);
    assert t.lanes[0].first == 0 && t.lanes[0].position >= at - u.cfg.batchSize + 1;
    assert (0, oldest) !in t.committed && (0, oldest) !in Keys(InFlight(t));
    assert !NothingSkipped(t, 0);
  }

  /**
   With 2*batch+1 events in flight when the row is written and a smaller pipe batch, whatever the persist interval,
   the oldest event is lost by a crash.
   */
  lemma SmallerPipeBatchLoses(u: Setup)
    requires u.Valid() && u.cfg.initialOffset == OFFSET_OLDEST && u.cfg.batchSize <= 2 * u.batch
    ensures var s := Filled(u, Overfull(u) + 1, 0, 0, 0);
      && Initial(u, s) && !NothingLost(Run(u, s, OverfillAndCrash(u)))
    ensures forall step :: step in OverfillAndCrash(u) ==> !step.SaveOffset?
  {
    OverfullIsEnough(u);
    FillsOnlyFetch(Overfull(u) - 2 * u.batch);
    FillsOnlyFetch(u.batch);
    var end := Overfull(u) + 1;
    StartIsInitial(u, end);
    hide Filled, Apply, NothingLost;
    ReachesFull(u, end);
    CrashSkipsOldest(u, end, Filled(u, end, Overfull(u) - 2 * u.batch, u.batch, u.batch));
  }

  lemma StartIsInitial(u: Setup, end: nat)
    requires u.Valid()
    ensures Initial(u, Filled(u, end, 0, 0, 0))
  {
    assert Events(0, 0) == [];
  }

  /** A pipe batch size is enough for a streamer batch and an interval when no run of fetches and crashes loses anything. */
  ghost predicate Enough(batch: nat, pipeBatch: nat, interval: nat) {
    forall u: Setup, s: Pipeline, steps: seq<Step> ::
      (u == Setup(Config(OFFSET_OLDEST, pipeBatch, interval), batch) && Initial(u, s)
        && forall step :: step in steps ==> !step.SaveOffset?)
      ==> NothingLost(Run(u, s, steps))
  }

  /** main.go sizes the buffer pipe to 2*batch+1; that is exactly what at-least-once delivery needs, for any interval. */
  lemma EnoughExactlyWhen(batch: nat, pipeBatch: nat, interval: nat)
    requires batch >= 1 && interval >= 1
    ensures Enough(batch, pipeBatch, interval) <==> pipeBatch >= 2 * batch + 1
  {
    hide Apply, NothingLost, Overfull;
    var u := Setup(Config(OFFSET_OLDEST, pipeBatch, interval), batch);
    if pipeBatch >= 2 * batch + 1 {
      forall s: Pipeline, steps: seq<Step> | Initial(u, s) && forall step :: step in steps ==> !step.SaveOffset?
        ensures NothingLost(Run(u, s, steps))
      {
        FetchOnlyRunsAreSafe(u, s, steps);
        AtLeastOnce(u, s, steps);
      }
    } else {
      SmallerPipeBatchLoses(u);
    }
  }
}
