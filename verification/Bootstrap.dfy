/**
 The order of bootstrap steps (start, ensureBinlogReaderStart and waitForGtid in streamer/streamer.go,
 updateState in changelog/mysql.go) as an interleaving of the master, the snapshot server, the binlog
 reader and the streamer of one newly registered table.
 */
module Bootstrap {
  import opened Convergence
  import Encoder = ColumnFilter
  import opened Options
  import opened RowEvents

  /** How far the streamer got: the GTID it read, ready to take the snapshot, and where it took it. */
  datatype Phase = Waiting | Knows(target: nat) | Ready | Snapshotted(at: nat)

  /**
   A reader that knows where to start handles events only after its first updateState; `unset` says that its cluster
   had no GTID before and SetGTID is still to come.
   */
  datatype Reader = Stopped | Positioned(unset: bool) | Running

  /**
   Positions of the master, the snapshot server and GTIDs count transactions; `handled` and `from`
   count edits.  `started` is the reader's GTID set: a transaction is in it before its rows are handled.
   `saving` is the time between reloadState and SaveBinlogState within one updateState.
   */
  datatype Service = Service(
    log: seq<seq<Edit>>,
    slave: nat,
    reader: Reader,
    started: nat,
    handled: nat,
    registered: bool,
    sees: bool,
    from: nat,
    buffered: seq<Edit>,
    saving: bool,
    gtid: Option<nat>,
    streamer: Phase)

  datatype Step =
    | Commit(tx: seq<Edit>)
    | Replicate
    | Register
    | StartReader(saved: Option<nat>)
    | SetGtid
    | ReloadState
    | SaveState
    | BeginTransaction
    | HandleRow
    | ReadGtid
    | CaughtUp
    | GiveUpWaiting
    | TakeSnapshot

  function Flat(log: seq<seq<Edit>>): seq<Edit> {
    if log == [] then [] else Flat(log[..|log| - 1]) + log[|log| - 1]
  }

  /** The number of edits in the first n transactions. */
  function Offset(log: seq<seq<Edit>>, n: nat): nat
    requires n <= |log|
  {
    |Flat(log[..n])|
  }

  predicate Enabled(s: Service, step: Step) {
    match step
    case Commit(_) => true
    case Replicate => s.slave < |s.log|
    case Register => !s.registered
    case StartReader(saved) => s.reader.Stopped? && (saved.Some? ==> saved.value <= |s.log|)
    case SetGtid => s.reader == Positioned(true) && !s.saving
    case ReloadState => !s.reader.Stopped? && !s.saving
    case SaveState => s.saving
    case BeginTransaction =>
      s.reader.Running? && !s.saving && s.started < |s.log| && s.handled == Offset(s.log, s.started)
    case HandleRow =>
      && s.reader.Running? && !s.saving
      && s.started <= |s.log| && s.handled < Offset(s.log, s.started) <= |Flat(s.log)|
    case ReadGtid => s.streamer.Waiting? && s.gtid.Some?
    case CaughtUp => s.streamer.Knows? && s.slave >= s.streamer.target
    case GiveUpWaiting => s.streamer.Knows?
    case TakeSnapshot => s.streamer.Ready?
  }

  /**
   A reader starts from the GTID its cluster has, `saved`, or else from the master's current one, which it then
   may save for all tables of the cluster before it has read which tables there are.
   */
  function Apply(s: Service, step: Step): Service {
    if !Enabled(s, step) then s else
    match step
    case Commit(tx) => s.(log := s.log + [tx])
    case Replicate => s.(slave := s.slave + 1)
    case Register => s.(registered := true)
    case StartReader(saved) =>
      var at := if saved.Some? then saved.value else |s.log|;
      s.(reader := Positioned(saved.None?), started := at, handled := Offset(s.log, at))
    case SetGtid =>
      s.(reader := Positioned(false), gtid := if s.registered then Some(s.started) else s.gtid)
    case ReloadState =>
      if s.registered && !s.sees then s.(saving := true, sees := true, from := s.handled, buffered := [])
      else s.(saving := true)
    case SaveState =>
      s.(saving := false, reader := Running, gtid := if s.registered then Some(s.started) else s.gtid)
    case BeginTransaction => s.(started := s.started + 1)
    case HandleRow =>
      s.(handled := s.handled + 1,
         buffered := if s.sees then s.buffered + [Flat(s.log)[s.handled]] else s.buffered)
    case ReadGtid => s.(streamer := Knows(s.gtid.value))
    case CaughtUp => s.(streamer := Ready)
    case GiveUpWaiting => s.(streamer := Ready)
    case TakeSnapshot => s.(streamer := Snapshotted(s.slave))
  }

  function Run(s: Service, steps: seq<Step>): Service
    decreases |steps|
  {
    if steps == [] then s else Run(Apply(s, steps[0]), steps[1..])
  }

  /** The table is not registered; a reader that runs may be anywhere in the log, between transactions. */
  ghost predicate Initial(s: Service) {
    && !s.registered && !s.reader.Positioned? && !s.sees && !s.saving && s.gtid.None? && s.streamer.Waiting? && s.buffered == []
    && s.slave <= |s.log| && s.started <= |s.log| && s.handled == Offset(s.log, s.started)
  }

  /**
   Two things the code does not rule out: a registration between the reading of the state and the
   saving of the GTID, and a wait for the GTID that fails, whose result start ignores.
   */
  predicate Safe(s: Service, step: Step) {
    (step.Register? ==> !s.saving) && !step.GiveUpWaiting?
  }

  /**
   Everything from `from` on is buffered, and the reader's table is there since before GTID `n`, or will be before
   the reader handles anything.
   */
  ghost predicate BufferedSince(s: Service, n: nat) {
    n <= |s.log| && if s.sees then s.from <= Offset(s.log, n) else Unread(s) && s.handled <= Offset(s.log, n)
  }

  /** The reader has yet to read the state, in which the table is registered. */
  predicate Unread(s: Service) {
    s.registered && s.reader.Positioned? && !s.saving
  }

  /** Where the buffer starts: a reader that does not know the table has buffered nothing yet. */
  function BufferStart(s: Service): nat {
    if s.sees then s.from else s.handled
  }

  ghost predicate Inv(s: Service) {
    && s.slave <= |s.log| && s.started <= |s.log| && s.handled <= Offset(s.log, s.started) <= |Flat(s.log)|
    && BufferStart(s) <= s.handled && s.buffered == Flat(s.log)[BufferStart(s)..s.handled]
    && (s.saving && s.registered ==> s.sees) && (s.reader.Stopped? ==> !s.sees && !s.saving && s.gtid.None?)
    && (s.gtid.None? ==> s.streamer.Waiting?)
    && (s.gtid.Some? ==> BufferedSince(s, s.gtid.value))
    && match s.streamer
       case Waiting => true
       case Knows(target) => BufferedSince(s, target)
       case Ready => BufferedSince(s, s.slave)
       case Snapshotted(at) => BufferedSince(s, at)
  }

  lemma {:induction false} OffsetOrder(log: seq<seq<Edit>>, m: nat, n: nat)
    requires m <= n <= |log|
    ensures Flat(log[..m]) <= Flat(log[..n])
    decreases n
  {
    if m < n {
      OffsetOrder(log, m, n - 1);
      assert log[..n][..n - 1] == log[..n - 1];
    }
  }

  lemma OffsetWithin(log: seq<seq<Edit>>, n: nat)
    requires n <= |log|
    ensures Offset(log, n) <= |Flat(log)|
  {
    OffsetOrder(log, n, |log|);
    assert log[..|log|] == log;
  }

  /** A longer log moves no position. */
  lemma CommitKeepsPositions(log: seq<seq<Edit>>, tx: seq<Edit>)
    ensures Flat(log + [tx]) == Flat(log) + tx
    ensures forall n :: 0 <= n <= |log| ==> Offset(log + [tx], n) == Offset(log, n)
  {
    assert (log + [tx])[..|log|] == log;
    forall n | 0 <= n <= |log|
      ensures Offset(log + [tx], n) == Offset(log, n)
    {
      assert (log + [tx])[..n] == log[..n];
    }
  }

  lemma SliceExtends(edits: seq<Edit>, a: nat, b: nat)
    requires a <= b < |edits|
    ensures edits[a..b + 1] == edits[a..b] + [edits[b]]
  {
  }

  lemma CommitKeepsInv(s: Service, tx: seq<Edit>)
    requires Inv(s)
    ensures Inv(Apply(s, Commit(tx)))
  {
    hide Flat, Offset;
    CommitKeepsPositions(s.log, tx);
    OffsetWithin(s.log + [tx], s.started);
    assert Flat(s.log + [tx])[BufferStart(s)..s.handled] == Flat(s.log)[BufferStart(s)..s.handled];
  }

  lemma HandleRowKeepsInv(s: Service)
    requires Inv(s)
    ensures Inv(Apply(s, HandleRow))
  {
    if Enabled(s, HandleRow) {
      SliceExtends(Flat(s.log), BufferStart(s), s.handled);
    }
  }

  lemma ReaderKeepsInv(s: Service, step: Step)
    requires Inv(s) && Safe(s, step)
    requires step.StartReader? || step.SetGtid? || step.ReloadState? || step.SaveState? || step.Register?
      || step.BeginTransaction?
    ensures Inv(Apply(s, step))
  {
    hide Flat;
    if Enabled(s, step) && step.BeginTransaction? {
      OffsetOrder(s.log, s.started, s.started + 1);
      OffsetWithin(s.log, s.started + 1);
    } else if Enabled(s, step) && step.StartReader? {
      OffsetWithin(s.log, Apply(s, step).started);
    }
  }

  lemma StreamerKeepsInv(s: Service, step: Step)
    requires Inv(s) && (step.Replicate? || step.ReadGtid? || step.CaughtUp? || step.TakeSnapshot?)
    ensures Inv(Apply(s, step))
  {
    if Enabled(s, step) {
      if step.Replicate? {
        OffsetOrder(s.log, s.slave, s.slave + 1);
      } else if step.CaughtUp? {
        OffsetOrder(s.log, s.streamer.target, s.slave);
      }
    }
  }

  lemma StepKeepsInv(s: Service, step: Step)
    requires Inv(s) && Safe(s, step)
    ensures Inv(Apply(s, step))
  {
    match step
    case Commit(tx) => CommitKeepsInv(s, tx);
    case HandleRow => HandleRowKeepsInv(s);
    case Replicate => StreamerKeepsInv(s, step);
    case ReadGtid => StreamerKeepsInv(s, step);
    case CaughtUp => StreamerKeepsInv(s, step);
    case TakeSnapshot => StreamerKeepsInv(s, step);
    case _ => ReaderKeepsInv(s, step);
  }

  ghost predicate SafeRun(s: Service, steps: seq<Step>)
    decreases |steps|
  {
    steps == [] || (Safe(s, steps[0]) && SafeRun(Apply(s, steps[0]), steps[1..]))
  }

  lemma {:induction false} RunKeepsInv(s: Service, steps: seq<Step>)
    requires Inv(s) && SafeRun(s, steps)
    ensures Inv(Run(s, steps))
    decreases |steps|
  {
    if steps != [] {
      StepKeepsInv(s, steps[0]);
      RunKeepsInv(Apply(s, steps[0]), steps[1..]);
    }
  }

  /** The snapshot with everything buffered so far on top is the source table at the reader's position. */
  ghost predicate Converged(s: Service) {
    s.streamer.Snapshotted? && s.streamer.at <= |s.log| && Offset(s.log, s.streamer.at) <= s.handled <= |Flat(s.log)| ==>
      Offset(s.log, s.streamer.at) <= |Flat(s.log)| &&
      Replay(At(Flat(s.log), Offset(s.log, s.streamer.at)), s.buffered) == At(Flat(s.log), s.handled)
  }

  /** Whatever the interleaving, the bootstrapped output converges to the source. */
  lemma BootstrapConverges(s: Service, steps: seq<Step>)
    requires Initial(s) && SafeRun(s, steps)
    ensures Converged(Run(s, steps))
  {
    OffsetWithin(s.log, s.started);
    RunKeepsInv(s, steps);
    var t := Run(s, steps);
    if t.streamer.Snapshotted? && Offset(t.log, t.streamer.at) <= t.handled {
      SnapshotAndBuffer(Flat(t.log), Offset(t.log, t.streamer.at), BufferStart(t), t.handled);
    }
  }

  // ---------------------------------------------------------------------------------------------
  // Any run, exactly
  // ---------------------------------------------------------------------------------------------

  /** What holds of every run, unsafe steps included. */
  ghost predicate BufferInv(s: Service) {
    && s.slave <= |s.log| && s.started <= |s.log| && s.handled <= Offset(s.log, s.started) <= |Flat(s.log)|
    && BufferStart(s) <= s.handled && s.buffered == Flat(s.log)[BufferStart(s)..s.handled]
    && (s.streamer.Snapshotted? ==> s.streamer.at <= |s.log|) && (s.reader.Stopped? ==> !s.sees)
  }

  lemma CommitKeepsBufferInv(s: Service, tx: seq<Edit>)
    requires BufferInv(s)
    ensures BufferInv(Apply(s, Commit(tx)))
  {
    hide Flat, Offset;
    CommitKeepsPositions(s.log, tx);
    OffsetWithin(s.log + [tx], s.started);
    var a := BufferStart(s);
    assert Flat(s.log + [tx])[a..s.handled] == Flat(s.log)[a..s.handled];
  }

  lemma ReaderKeepsBufferInv(s: Service, step: Step)
    requires BufferInv(s) && Enabled(s, step) && (step.StartReader? || step.BeginTransaction? || step.HandleRow?)
    ensures BufferInv(Apply(s, step))
  {
    hide Flat;
    if step.StartReader? {
      OffsetWithin(s.log, Apply(s, step).started);
    } else if step.BeginTransaction? {
      OffsetOrder(s.log, s.started, s.started + 1);
      OffsetWithin(s.log, s.started + 1);
    } else {
      SliceExtends(Flat(s.log), BufferStart(s), s.handled);
    }
  }

  lemma StepKeepsBufferInv(s: Service, step: Step)
    requires BufferInv(s)
    ensures BufferInv(Apply(s, step))
  {
    hide Flat, Offset;
    if Enabled(s, step) {
      match step
      case Commit(tx) => CommitKeepsBufferInv(s, tx);
      case StartReader(_) => ReaderKeepsBufferInv(s, step);
      case BeginTransaction => ReaderKeepsBufferInv(s, step);
      case HandleRow => ReaderKeepsBufferInv(s, step);
      case _ =>
    }
  }

  lemma {:induction false} RunKeepsBufferInv(s: Service, steps: seq<Step>)
    requires BufferInv(s)
    ensures BufferInv(Run(s, steps))
    decreases |steps|
  {
    hide BufferInv, Apply;
    if steps != [] {
      StepKeepsBufferInv(s, steps[0]);
      RunKeepsBufferInv(Apply(s, steps[0]), steps[1..]);
    }
  }

  /** Every key the buffer does not touch is the same where the snapshot was taken and where the buffer starts. */
  ghost predicate GapIsHarmless(edits: seq<Edit>, snapshot: nat, from: nat, end: nat)
    requires snapshot <= from <= end <= |edits|
  {
    forall k :: Effect(edits[from..end], k).None? ==> Get(At(edits, snapshot), k) == Get(At(edits, from), k)
  }

  /**
   Over any run, and once the reader is past the snapshot, the output has converged exactly when the buffer
   starts no later than the snapshot, or the edits between the two are harmless.
   */
  lemma ConvergedExactlyWhen(s: Service, steps: seq<Step>)
    requires Initial(s)
    ensures var t := Run(s, steps);
      t.streamer.Snapshotted? && t.streamer.at <= |t.log| && Offset(t.log, t.streamer.at) <= t.handled <= |Flat(t.log)| ==>
        var snapshot, from := Offset(t.log, t.streamer.at), BufferStart(t);
        from <= t.handled &&
        (Converged(t) <==> from <= snapshot || GapIsHarmless(Flat(t.log), snapshot, from, t.handled))
  {
    hide GapIsHarmless;
    OffsetWithin(s.log, s.started);
    RunKeepsBufferInv(s, steps);
    var t := Run(s, steps);
    if t.streamer.Snapshotted? && Offset(t.log, t.streamer.at) <= t.handled {
      SnapshotAndBuffer(Flat(t.log), Offset(t.log, t.streamer.at), BufferStart(t), t.handled);
    }
  }

  lemma SnapshotAndBuffer(edits: seq<Edit>, snapshot: nat, from: nat, end: nat)
    requires snapshot <= end <= |edits| && from <= end
    ensures Replay(At(edits, snapshot), edits[from..end]) == At(edits, end)
       <==> from <= snapshot || GapIsHarmless(edits, snapshot, from, end)
  {
    if from <= snapshot {
      var segments := [Segment(from, end)];
      assert segments[1..] == [];
      SnapshotPlusLogConverges(edits, segments, from, snapshot, end);
      assert Delivered(edits, segments) == edits[from..end] + [];
      assert edits[from..end] + [] == edits[from..end];
    } else {
      GapConvergesExactlyWhen(edits, snapshot, from, end);
    }
  }

  /** The source rows when the buffer has edits up to `kept` and from the position of the saved GTID on to `end`. */
  ghost predicate RestartConverges(t: Service, kept: nat, end: nat)
    requires t.streamer.Snapshotted? && t.streamer.at <= |t.log| && t.gtid.Some? && t.gtid.value <= |t.log|
    requires Offset(t.log, t.streamer.at) <= kept <= end <= |Flat(t.log)| && BufferStart(t) <= kept
    requires Offset(t.log, t.gtid.value) <= end
  {
    var edits, again := Flat(t.log), Offset(t.log, t.gtid.value);
    Replay(At(edits, Offset(t.log, t.streamer.at)), edits[BufferStart(t)..kept] + edits[again..end]) == At(edits, end)
  }

  /**
   A reader dies when edits up to `kept` are safely in the buffer, and another one starts from the GTID saved last.
   The output still converges exactly when that GTID has no transaction that is not in the buffer whole, or what is
   missing is harmless.
   */
  lemma RestartConvergesExactlyWhen(s: Service, steps: seq<Step>, kept: nat, end: nat)
    requires Initial(s) && SafeRun(s, steps)
    ensures var t := Run(s, steps);
      t.streamer.Snapshotted? ==>
        && t.streamer.at <= |t.log| && t.gtid.Some? && t.gtid.value <= |t.log|
        && (Offset(t.log, t.streamer.at) <= kept <= t.handled && kept <= end <= |Flat(t.log)|
            && Offset(t.log, t.gtid.value) <= end ==>
              && BufferStart(t) <= kept
              && (RestartConverges(t, kept, end)
                  <==> Offset(t.log, t.gtid.value) <= kept
                       || GapIsHarmless(Flat(t.log), kept, Offset(t.log, t.gtid.value), end)))
  {
    hide GapIsHarmless, Flat;
    OffsetWithin(s.log, s.started);
    RunKeepsInv(s, steps);
    var t := Run(s, steps);
    if t.streamer.Snapshotted? && t.gtid.Some? && Offset(t.log, t.streamer.at) <= kept <= t.handled
       && kept <= end <= |Flat(t.log)| && Offset(t.log, t.gtid.value) <= end
    {
      RestartFrom(Flat(t.log), BufferStart(t), Offset(t.log, t.streamer.at), kept, Offset(t.log, t.gtid.value), end);
    }
  }

  lemma RestartFrom(edits: seq<Edit>, from: nat, snapshot: nat, kept: nat, again: nat, end: nat)
    requires from <= snapshot <= kept <= end <= |edits| && again <= end
    ensures Replay(At(edits, snapshot), edits[from..kept] + edits[again..end]) == At(edits, end)
       <==> again <= kept || GapIsHarmless(edits, kept, again, end)
  {
    hide GapIsHarmless;
    ReplayAppend(At(edits, snapshot), edits[from..kept], edits[again..end]);
    SnapshotAndBuffer(edits, snapshot, from, kept);
    SnapshotAndBuffer(edits, kept, again, end);
  }

  // ---------------------------------------------------------------------------------------------
  // Which GTID is saved
  // ---------------------------------------------------------------------------------------------

  /** All transactions in the first n but the last one are handled. */
  ghost predicate AllButLastHandled(s: Service, n: nat) {
    n <= |s.log| && (n == 0 || Offset(s.log, n - 1) <= s.handled)
  }

  ghost predicate SavedInv(s: Service) {
    && BufferInv(s) && AllButLastHandled(s, s.started)
    && (s.reader.Stopped? ==> !s.saving && s.gtid.None?)
    && (s.gtid.Some? ==> s.gtid.value <= s.started && AllButLastHandled(s, s.gtid.value))
  }

  /** The reader has handled the transactions it has begun whole. */
  predicate BetweenTransactions(s: Service) {
    s.started <= |s.log| && s.handled == Offset(s.log, s.started)
  }

  /** What was handled so far stays handled. */
  lemma StillHandled(s: Service, step: Step, n: nat)
    requires AllButLastHandled(s, n) && !step.StartReader?
    ensures AllButLastHandled(Apply(s, step), n)
  {
    hide Flat, Offset;
    if Enabled(s, step) && step.Commit? {
      CommitKeepsPositions(s.log, step.tx);
    }
  }

  lemma StepKeepsSavedInv(s: Service, step: Step)
    requires SavedInv(s)
    ensures SavedInv(Apply(s, step))
  {
    hide Flat, BufferInv;
    StepKeepsBufferInv(s, step);
    if Enabled(s, step) {
      if step.StartReader? {
        var at := Apply(s, step).started;
        if at > 0 {
          OffsetOrder(s.log, at - 1, at);
        }
      } else {
        hide Offset;
        StillHandled(s, step, s.started);
        if s.gtid.Some? {
          StillHandled(s, step, s.gtid.value);
        }
      }
    }
  }

  lemma {:induction false} RunKeepsSavedInv(s: Service, steps: seq<Step>)
    requires SavedInv(s)
    ensures SavedInv(Run(s, steps))
    decreases |steps|
  {
    hide SavedInv, Apply;
    if steps != [] {
      StepKeepsSavedInv(s, steps[0]);
      RunKeepsSavedInv(Apply(s, steps[0]), steps[1..]);
    }
  }

  lemma InitialIsSaved(s: Service)
    requires Initial(s)
    ensures SavedInv(s)
  {
    OffsetWithin(s.log, s.started);
    if s.started > 0 {
      OffsetOrder(s.log, s.started - 1, s.started);
    }
  }

  /**
   Over any run, whatever the master commits and whenever the GTID is saved: the saved GTID has no transaction the
   reader has not begun, and at most its last one was not handled whole.
   */
  lemma SavedGtidIsNotAhead(s: Service, steps: seq<Step>)
    requires Initial(s)
    ensures var t := Run(s, steps);
      t.gtid.Some? ==>
        && t.gtid.value <= t.started <= |t.log|
        && (t.gtid.value == 0 || Offset(t.log, t.gtid.value - 1) <= t.handled)
  {
    hide Run, Offset, BufferInv;
    InitialIsSaved(s);
    RunKeepsSavedInv(s, steps);
  }

  /** A save ends with a GTID that covers all edits handled so far, and besides at most the rest of one transaction. */
  lemma SavedGtidIsNotBehind(s: Service, steps: seq<Step>, save: Step)
    requires Initial(s) && (save.SaveState? || save.SetGtid?)
    requires Enabled(Run(s, steps), save) && Run(s, steps).registered
    ensures var t := Run(s, steps + [save]);
      && t.gtid.Some? && t.gtid.value <= |t.log|
      && (t.gtid.value == 0 || Offset(t.log, t.gtid.value - 1) <= t.handled) && t.handled <= Offset(t.log, t.gtid.value)
  {
    hide Run, Offset, Flat;
    InitialIsSaved(s);
    RunKeepsSavedInv(s, steps);
    RunLast(s, steps, save);
    StepKeepsSavedInv(Run(s, steps), save);
  }

  /**
   A GTID saved when no transaction is half handled is exactly what was handled, and a reader that starts from it
   misses nothing.
   */
  lemma SavingBetweenTransactionsLosesNothing(s: Service, steps: seq<Step>, end: nat)
    requires Initial(s) && SafeRun(s, steps)
    requires Run(s, steps).saving && Run(s, steps).registered && BetweenTransactions(Run(s, steps))
    ensures var t := Run(s, steps + [SaveState]);
      && t.gtid.Some? && t.gtid.value <= |t.log| && Offset(t.log, t.gtid.value) == t.handled
      && (t.streamer.Snapshotted? && t.streamer.at <= |t.log| && Offset(t.log, t.streamer.at) <= t.handled <= end <= |Flat(t.log)| ==>
            BufferStart(t) <= t.handled && RestartConverges(t, t.handled, end))
  {
    hide Run, Offset, Flat, SafeRun, RestartConverges, GapIsHarmless;
    RunLast(s, steps, SaveState);
    SafeLast(s, steps, SaveState);
    var t := Run(s, steps + [SaveState]);
    RestartConvergesExactlyWhen(s, steps + [SaveState], t.handled, end);
  }

  // ---------------------------------------------------------------------------------------------
  // Runs that lose data
  // ---------------------------------------------------------------------------------------------

  const ONE: Row := [Encoder.Null]

  const ONE_ROW: seq<Edit> := [Put(ONE, ONE)]

  const NEW_TABLE := Service([], 0, Running, 0, 0, false, false, 0, [], false, None, Waiting)

  lemma OneRowLog()
    ensures Flat([ONE_ROW]) == ONE_ROW && Offset([ONE_ROW], 0) == 0 && Offset([ONE_ROW], 1) == 1
    ensures At(ONE_ROW, 1) != At(ONE_ROW, 0) == map[]
  {
    assert [ONE_ROW][..0] == [] && [ONE_ROW][..1] == [ONE_ROW];
    assert ONE_ROW[..1] == ONE_ROW && ONE_ROW[..0] == [] && ONE_ROW[1..] == [];
    assert Replay(map[], ONE_ROW) == ApplyEdit(map[], ONE_ROW[0]);
    assert ONE in At(ONE_ROW, 1);
  }

  lemma {:induction false} RunLast(s: Service, steps: seq<Step>, last: Step)
    ensures Run(s, steps + [last]) == Apply(Run(s, steps), last)
    decreases |steps|
  {
    if steps == [] {
      assert [last][1..] == [];
    } else {
      assert (steps + [last])[1..] == steps[1..] + [last];
      RunLast(Apply(s, steps[0]), steps[1..], last);
    }
  }

  lemma NothingRun(s: Service)
    ensures Run(s, []) == s && SafeRun(s, []) && Replay(At(ONE_ROW, 0), []) == At(ONE_ROW, 0)
    ensures Flat([]) == [] && Offset([], 0) == 0
  {
  }

  /** One more step of a run. */
  lemma Then(start: Service, steps: seq<Step>, s: Service, step: Step) returns (steps': seq<Step>, s': Service)
    requires Run(start, steps) == s
    ensures steps' == steps + [step] && s' == Apply(s, step) && Run(start, steps') == s'
  {
    steps', s' := steps + [step], Apply(s, step);
    RunLast(start, steps, step);
  }

  /**
   A table registered after the state was read but before the GTID is saved gets that GTID without the
   reader knowing the table; rows handled before the next refresh are in neither snapshot nor buffer.
   */
  lemma RegistrationWhileSavingLoses() returns (steps: seq<Step>)
    ensures Initial(NEW_TABLE) && GiveUpWaiting !in steps && !Converged(Run(NEW_TABLE, steps))
  {
    hide Run, Replay, Flat;
    OneRowLog();
    var n, s := NEW_TABLE, NEW_TABLE;
    steps := [];
    NothingRun(n);
    steps, s := Then(n, steps, s, ReloadState);
    steps, s := Then(n, steps, s, Register);
    steps, s := Then(n, steps, s, SaveState);
    steps, s := Then(n, steps, s, ReadGtid);
    steps, s := Then(n, steps, s, CaughtUp);
    steps, s := Then(n, steps, s, TakeSnapshot);
    assert s == Service([], 0, Running, 0, 0, true, false, 0, [], false, Some(0), Snapshotted(0));
    steps, s := Then(n, steps, s, Commit(ONE_ROW));
    assert s.log == [ONE_ROW];
    steps, s := Then(n, steps, s, BeginTransaction);
    steps, s := Then(n, steps, s, HandleRow);
    assert s == Service([ONE_ROW], 0, Running, 1, 1, true, false, 0, [], false, Some(0), Snapshotted(0));
    assert Replay(At(ONE_ROW, 0), []) == At(ONE_ROW, 0);
  }

  /** A snapshot taken although the wait for the GTID failed misses rows the reader is already past. */
  lemma GivingUpWaitingLoses() returns (steps: seq<Step>)
    ensures Initial(NEW_TABLE) && !Converged(Run(NEW_TABLE, steps))
  {
    hide Run, Replay, Flat;
    OneRowLog();
    var n, s := NEW_TABLE, NEW_TABLE;
    steps := [];
    NothingRun(n);
    steps, s := Then(n, steps, s, Commit(ONE_ROW));
    assert s.log == [ONE_ROW];
    steps, s := Then(n, steps, s, BeginTransaction);
    steps, s := Then(n, steps, s, HandleRow);
    assert s == NEW_TABLE.(log := [ONE_ROW], started := 1, handled := 1);
    steps, s := Then(n, steps, s, Register);
    steps, s := Then(n, steps, s, ReloadState);
    assert s == Service([ONE_ROW], 0, Running, 1, 1, true, true, 1, [], true, None, Waiting);
    steps, s := Then(n, steps, s, SaveState);
    steps, s := Then(n, steps, s, ReadGtid);
    assert s == Service([ONE_ROW], 0, Running, 1, 1, true, true, 1, [], false, Some(1), Knows(1));
    steps, s := Then(n, steps, s, GiveUpWaiting);
    steps, s := Then(n, steps, s, TakeSnapshot);
    assert s == Service([ONE_ROW], 0, Running, 1, 1, true, true, 1, [], false, Some(1), Snapshotted(0));
    assert Replay(At(ONE_ROW, 0), []) == At(ONE_ROW, 0);
  }

  /** A GTID saved inside a transaction covers rows that were not handled; a reader that dies then loses them. */
  lemma SavingInsideTransactionLoses() returns (steps: seq<Step>)
    ensures Initial(NEW_TABLE) && SafeRun(NEW_TABLE, steps)
    ensures var t := Run(NEW_TABLE, steps);
      && t.streamer == Snapshotted(0) && t.gtid == Some(1) && t.log == [ONE_ROW] && BufferStart(t) == t.handled == 0
      && Offset(t.log, 0) == 0 && Offset(t.log, 1) == |Flat(t.log)| == 1
      && !RestartConverges(t, 0, 1)
  {
    hide Run, Replay, Flat, SafeRun;
    OneRowLog();
    var n, s := NEW_TABLE, NEW_TABLE;
    steps := [];
    NothingRun(n);
    steps, s := ThenSafely(n, steps, s, Register);
    steps, s := ThenSafely(n, steps, s, ReloadState);
    steps, s := ThenSafely(n, steps, s, SaveState);
    steps, s := ThenSafely(n, steps, s, ReadGtid);
    steps, s := ThenSafely(n, steps, s, CaughtUp);
    steps, s := ThenSafely(n, steps, s, TakeSnapshot);
    assert s == Service([], 0, Running, 0, 0, true, true, 0, [], false, Some(0), Snapshotted(0));
    steps, s := ThenSafely(n, steps, s, Commit(ONE_ROW));
    assert s.log == [ONE_ROW];
    steps, s := ThenSafely(n, steps, s, BeginTransaction);
    steps, s := ThenSafely(n, steps, s, ReloadState);
    steps, s := ThenSafely(n, steps, s, SaveState);
    assert s == Service([ONE_ROW], 0, Running, 1, 0, true, true, 0, [], false, Some(1), Snapshotted(0));
    assert ONE_ROW[0..0] + ONE_ROW[1..1] == [];
    assert Replay(At(ONE_ROW, 0), []) == At(ONE_ROW, 0);
  }

  lemma {:induction false} SafeLast(s: Service, steps: seq<Step>, last: Step)
    requires SafeRun(s, steps) && Safe(Run(s, steps), last)
    ensures SafeRun(s, steps + [last])
    decreases |steps|
  {
    hide Apply, Safe;
    if steps == [] {
      assert [] + [last] == [last];
      assert SafeRun(Apply(s, last), [last][1..]);
    } else {
      assert (steps + [last])[1..] == steps[1..] + [last];
      SafeLast(Apply(s, steps[0]), steps[1..], last);
    }
  }

  /** One more safe step of a run. */
  lemma ThenSafely(start: Service, steps: seq<Step>, s: Service, step: Step) returns (steps': seq<Step>, s': Service)
    requires Run(start, steps) == s && SafeRun(start, steps) && Safe(s, step)
    ensures steps' == steps + [step] && s' == Apply(s, step) && Run(start, steps') == s' && SafeRun(start, steps')
  {
    steps', s' := Then(start, steps, s, step);
    SafeLast(start, steps, step);
  }
}
