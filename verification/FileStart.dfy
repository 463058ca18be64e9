/**
 A consumer that starts on a directory that has files already (initConsumer and seek in pipe/file.go), and when it
 gets everything it should: all that is and will be in the files when it starts at the oldest offset, all that is
 pushed from then on when it starts at the newest.
 */
module FileStart {
  import opened Encodings
  import opened FileConsuming
  import opened FileHeader
  import opened FileNames
  import opened FilePipe
  import opened FileProducing
  import opened FileRuns
  import opened Framing
  import opened Json
  import opened Options

  /** The producer has run alone so far; then a consumer starts. */
  function Join(p: Producer, k: Consumer): System {
    System(p, k, [], false)
  }

  /** What a producer's run leaves behind. */
  function Written(c: Config, format: Bytes, ops: seq<Timed>): Producer {
    FileProducing.Run(c, Start(format), ops)
  }

  /** Steps that may come after these operations. */
  ghost predicate Continues(c: Config, verify: bool, format: Bytes, ops: seq<Timed>, k: Consumer, steps: seq<Step>) {
    && Possible(c, verify, Join(Written(c, format, ops), k), steps)
    && AllCarried(TextFormat(format), Pushed(ops) + Pushed(Produced(steps)))
    && GoodClock(Created(c, Start(format), ops) + Created(c, Written(c, format, ops), Produced(steps)))
  }

  /** Delivered is a prefix of `due`, and all of it once FetchNext waits with no file open. */
  ghost predicate Complete(c: Config, verify: bool, b: System, due: seq<Bytes>) {
    && !b.failed && b.delivered <= due
    && forall names :: Done(c, verify, b, names) ==> b.delivered == due
  }

  ghost predicate Done(c: Config, verify: bool, b: System, names: seq<string>) {
    b.p.file.None? && Lists(names, b.p.dir) && FetchNext(c, verify, names, b.p.dir, b.k).0.Waiting?
  }

  /** However producer and consumer go on, nothing of `owed` and what is pushed is lost, repeated or out of order. */
  ghost predicate Good(c: Config, verify: bool, format: Bytes, ops: seq<Timed>, k: Consumer, owed: seq<Bytes>) {
    forall steps :: Continues(c, verify, format, ops, k, steps) ==>
      Complete(c, verify, FilePipe.Run(c, verify, Join(Written(c, format, ops), k), steps),
        owed + Pushed(Produced(steps)))
  }

  /** The first file listed is not one that is still written, or it is not accepted. */
  predicate StartsSafely(c: Config, verify: bool, names: seq<string>, dir: map<string, Bytes>) {
    names == [] || !IsOpen(names[0]) || OpenForRead(c, verify, Content(dir, names[0])).None?
  }

  /** What the producer's run leaves behind. */
  lemma Produces(c: Config, format: Bytes, ops: seq<Timed>) returns (h: History)
    requires Ascii(format) && GoodClock(Created(c, Start(format), ops))
    ensures Inv(c, Written(c, format, ops), h) && Messages(h) == Pushed(ops)
    ensures h.stamps == Created(c, Start(format), ops)
    ensures Written(c, format, ops).text == TextFormat(format)
  {
    hide FileProducing.Run, Created, GoodClock, Pushed, StampedRun, Adds;
    var none := History([], [], []);
    StartInv(c, format);
    assert none.stamps + Created(c, Start(format), ops) == Created(c, Start(format), ops);
    h := RunFollows(c, Start(format), none, ops);
    assert Messages(none) == [] && [] + Pushed(ops) == Pushed(ops);
    TextIsFormat(c, Written(c, format, ops), h);
  }

  lemma TextIsFormat(c: Config, p: Producer, h: History)
    requires Inv(c, p, h)
    ensures p.text == TextFormat(p.header.format) && Ascii(p.header.format)
  {
    hide FileOf, ClosedName, Marshal, GoodClock, ClosedFilesHold, NothingElse, OpenFileHolds, TextFormat;
  }

  // ---------------------------------------------------------------------------------------------
  // A safe start
  // ---------------------------------------------------------------------------------------------

  /** The open file, which is listed last, is the only one whose name looks open. */
  lemma OpenFileIsLast(c: Config, p: Producer, h: History, names: seq<string>)
    requires Inv(c, p, h) && Lists(names, p.dir) && names != [] && !IsOpen("." + c.key)
    ensures |h.closed| <= |h.stamps| && names == Listed(c, p, h)
    ensures IsOpen(names[0]) <==> h.closed == []
    ensures IsOpen(names[|names| - 1]) <==> p.file.Some?
    ensures p.file.Some? ==> names[|names| - 1] == p.file.value.name
  {
    hide ClosedName, IsOpen, Inv;
    DirectoryLists(c, p, h, names);
    ClosedFilesAreTimed(c, p, h);
    OpenFileLooksOpen(c, p, h);
    forall i | 0 <= i < |h.closed|
      ensures !IsOpen(names[i])
    {
      ClosedFileLooksOpenExactlyWhen(c, h.stamps[i]);
    }
  }

  lemma OpenFileLooksOpen(c: Config, p: Producer, h: History)
    requires Inv(c, p, h)
    ensures p.file.Some? ==> (
      && |h.stamps| == |h.closed| + 1 && IsOpen(p.file.value.name)
      && p.file.value.name == ClosedName(c, h.stamps[|h.closed|]) + ".open")
  {
    hide FileOf, ClosedName, Marshal, Frames, GoodClock, NothingElse, IsOpen;
    if p.file.Some? {
      EndsOpen(ClosedName(c, h.stamps[|h.closed|]));
    }
  }

  /** A safe start is at the first closed file, or before all files. */
  lemma SafeStartIsProgress(c: Config, verify: bool, p: Producer, h: History, names: seq<string>) returns (n: nat)
    requires Inv(c, p, h) && Lists(names, p.dir) && !IsOpen("." + c.key) && AllCarried(p.text, Messages(h))
    requires StartsSafely(c, verify, names, p.dir)
    ensures SysInv(c, Join(p, Seek(c, verify, names, p.dir, false)), h, n)
  {
    hide ClosedName, IsOpen, Inv, OpenForRead, Frames, Messages, Carried;
    ClosedFilesAreTimed(c, p, h);
    n := 0;
    assert h.closed[..0] == [];
    if names != [] {
      OpenFileIsLast(c, p, h, names);
      if h.closed != [] {
        n := 1;
        NextClosedFile(c, verify, p, h, 0);
        TakeOneMoreFile(h.closed, 0);
        var msgs := h.closed[0].msgs;
        assert LeftToRead(p.text, Frames(p.text, msgs), msgs, [], h.closed[..1]);
      }
    }
  }

  lemma ReachedIsComplete(c: Config, verify: bool, b: System, h: History, n: nat)
    requires SysInv(c, b, h, n) && !IsOpen("." + c.key)
    ensures Complete(c, verify, b, Messages(h))
  {
    hide Inv, FetchNext, AllCarried, Lists, ClosedName, Progress, IsOpen;
    assert b.delivered <= Messages(h) by {
      DeliveredSoFar(c, b, h, n);
    }
    forall names | Done(c, verify, b, names)
      ensures b.delivered == Messages(h)
    {
      var m := FetchGivesNext(c, verify, names, b, h, n);
      NotOpen(c, b.p, h);
      assert Joined(h.closed) + [] == Joined(h.closed);
    }
  }

  lemma DeliveredSoFar(c: Config, b: System, h: History, n: nat)
    requires SysInv(c, b, h, n)
    ensures b.delivered <= Messages(h)
  {
    hide Inv, AllCarried, ClosedName;
    PrefixOfJoined(h.closed, n);
  }

  /** What is reached from a consumer that has its place among the files is complete. */
  lemma ProgressIsGood(c: Config, verify: bool, format: Bytes, ops: seq<Timed>, k: Consumer, h: History, n: nat,
                       steps: seq<Step>)
    requires Ascii(format) && !IsOpen("." + c.key) && Continues(c, verify, format, ops, k, steps)
    requires var p := Written(c, format, ops);
      SysInv(c, Join(p, k), h, n) && Messages(h) == Pushed(ops) && h.stamps == Created(c, Start(format), ops)
      && p.text == TextFormat(format)
    ensures Complete(c, verify, FilePipe.Run(c, verify, Join(Written(c, format, ops), k), steps),
      Pushed(ops) + Pushed(Produced(steps)))
  {
    hide Written, FilePipe.Run, Created, GoodClock, Inv, Lists, IsOpen, Possible, Carried, Messages, Pushed, Complete,
      SysInv, TextFormat;
    CarriedParts(TextFormat(format), Pushed(ops), Pushed(Produced(steps)));
    var g, m := RunKeepsInv(c, verify, Join(Written(c, format, ops), k), h, n, steps);
    ReachedIsComplete(c, verify, FilePipe.Run(c, verify, Join(Written(c, format, ops), k), steps), g, m);
  }

  lemma SafeStartIsGood(c: Config, verify: bool, format: Bytes, ops: seq<Timed>, names: seq<string>)
    requires Ascii(format) && !IsOpen("." + c.key)
    requires GoodClock(Created(c, Start(format), ops)) && AllCarried(TextFormat(format), Pushed(ops))
    requires Lists(names, Written(c, format, ops).dir)
    requires StartsSafely(c, verify, names, Written(c, format, ops).dir)
    ensures Good(c, verify, format, ops, Seek(c, verify, names, Written(c, format, ops).dir, false), Pushed(ops))
  {
    hide Written, FilePipe.Run, Created, GoodClock, Inv, Lists, IsOpen, StartsSafely, Seek, Pushed, Complete, SysInv,
      TextFormat, Continues, AllCarried;
    var p := Written(c, format, ops);
    var k := Seek(c, verify, names, p.dir, false);
    var h := Produces(c, format, ops);
    var n := SafeStartIsProgress(c, verify, p, h, names);
    forall steps | Continues(c, verify, format, ops, k, steps)
      ensures Possible(c, verify, Join(p, k), steps)
      ensures Complete(c, verify, FilePipe.Run(c, verify, Join(p, k), steps), Pushed(ops) + Pushed(Produced(steps)))
    {
      ContinuesPossibly(c, verify, format, ops, k, steps);
      ProgressIsGood(c, verify, format, ops, k, h, n, steps);
    }
  }

  lemma ContinuesPossibly(c: Config, verify: bool, format: Bytes, ops: seq<Timed>, k: Consumer, steps: seq<Step>)
    requires Continues(c, verify, format, ops, k, steps)
    ensures Possible(c, verify, Join(Written(c, format, ops), k), steps)
  {
    hide Written, Possible;
  }

  // ---------------------------------------------------------------------------------------------
  // A start on an open file
  // ---------------------------------------------------------------------------------------------

  lemma {:induction false} ProducedAppend(s: seq<Step>, t: seq<Step>)
    ensures Produced(s + t) == Produced(s) + Produced(t)
    decreases |s|
  {
    if s == [] {
      assert s + t == t;
    } else {
      assert (s + t)[0] == s[0] && (s + t)[1..] == s[1..] + t;
      ProducedAppend(s[1..], t);
      var head := if s[0].Produce? then [Timed(s[0].op, s[0].time)] else [];
      assert Produced(s) == head + Produced(s[1..]) && Produced(s + t) == head + Produced(s[1..] + t);
      assert head + (Produced(s[1..]) + Produced(t)) == (head + Produced(s[1..])) + Produced(t);
    }
  }

  /** The first step of a run. */
  lemma FirstStep(c: Config, verify: bool, a: System, s: seq<Step>) returns (b: System)
    requires s != [] && Possible(c, verify, a, s)
    ensures (s[0].Consume? ==> Lists(s[0].names, a.p.dir)) && b == Next(c, verify, a, s[0])
    ensures Possible(c, verify, b, s[1..]) && FilePipe.Run(c, verify, a, s) == FilePipe.Run(c, verify, b, s[1..])
  {
    hide Next, Sorted;
    b := Next(c, verify, a, s[0]);
  }

  lemma StepFirst(c: Config, verify: bool, a: System, s: seq<Step>, b: System)
    requires s != [] && (s[0].Consume? ==> Lists(s[0].names, a.p.dir))
    requires b == Next(c, verify, a, s[0]) && Possible(c, verify, b, s[1..])
    ensures Possible(c, verify, a, s) && FilePipe.Run(c, verify, a, s) == FilePipe.Run(c, verify, b, s[1..])
  {
    hide Next, Sorted;
  }

  lemma NoSteps(c: Config, verify: bool, a: System)
    ensures Possible(c, verify, a, []) && FilePipe.Run(c, verify, a, []) == a
  {
  }

  lemma {:induction false} RunAppend(c: Config, verify: bool, a: System, s: seq<Step>, t: seq<Step>)
    requires Possible(c, verify, a, s) && Possible(c, verify, FilePipe.Run(c, verify, a, s), t)
    ensures Possible(c, verify, a, s + t)
    ensures FilePipe.Run(c, verify, a, s + t) == FilePipe.Run(c, verify, FilePipe.Run(c, verify, a, s), t)
    ensures Produced(s + t) == Produced(s) + Produced(t)
    decreases |s|
  {
    hide Possible, FilePipe.Run, Next, Sorted, Produced;
    ProducedAppend(s, t);
    if s == [] {
      NoSteps(c, verify, a);
      assert s + t == t;
    } else {
      var b := FirstStep(c, verify, a, s);
      var all := s + t;
      assert all[0] == s[0] && all[1..] == s[1..] + t;
      RunAppend(c, verify, b, s[1..], t);
      StepFirst(c, verify, a, all, b);
    }
  }

  /** With nothing after the file it has, a call of FetchNext takes some of that file or ends it. */
  lemma FetchShrinks(c: Config, verify: bool, names: seq<string>, dir: map<string, Bytes>, k: Consumer)
    requires Sorted(names) && names != [] && names[|names| - 1] == k.name && k.reader.Some?
    ensures var t := FetchNext(c, verify, names, dir, k).1;
      t.name == k.name && (t.reader.Some? ==> |t.reader.value| < |k.reader.value|)
  {
    hide Less, Fetch, After, OpenForRead, IsOpen;
    MovesOn(names, |names| - 1);
  }

  /** Fetching goes on until the open file has no more, and leaves the producer alone. */
  lemma {:induction false} Drain(c: Config, verify: bool, a: System, names: seq<string>) returns (steps: seq<Step>)
    requires Lists(names, a.p.dir) && names != [] && names[|names| - 1] == a.k.name
    ensures Possible(c, verify, a, steps) && Produced(steps) == []
    ensures var b := FilePipe.Run(c, verify, a, steps); b.p == a.p && b.k.name == a.k.name && b.k.reader.None?
    decreases if a.k.reader.Some? then |a.k.reader.value| + 1 else 0
  {
    hide FetchNext, Less;
    steps := [];
    if a.k.reader.Some? {
      FetchShrinks(c, verify, names, a.p.dir, a.k);
      var rest := Drain(c, verify, Next(c, verify, a, Consume(names)), names);
      steps := [Consume(names)] + rest;
      assert steps[1..] == rest;
    }
  }

  /** A push and a close of the file that is open. */
  function Finish(msg: Bytes): seq<Step> {
    [Produce(OpPush(msg, false), 0), Produce(OpClose, 0)]
  }

  function Finished(c: Config, p: Producer, msg: Bytes): Producer {
    CloseFile(c, Push(c, p, msg, false, 0))
  }

  lemma FinishRuns(c: Config, verify: bool, a: System, msg: Bytes)
    requires a.p.file.Some?
    ensures Possible(c, verify, a, Finish(msg))
    ensures FilePipe.Run(c, verify, a, Finish(msg)) == a.(p := Finished(c, a.p, msg))
    ensures Pushed(Produced(Finish(msg))) == [msg]
    ensures Created(c, a.p, Produced(Finish(msg))) == []
  {
    hide Push, CloseFile;
    var s := Finish(msg);
    var pushed := Next(c, verify, a, s[0]);
    assert s[1..] == [s[1]] && s[1..][1..] == [];
    assert Possible(c, verify, Next(c, verify, pushed, s[1]), []) && Possible(c, verify, pushed, [s[1]]);
    assert FilePipe.Run(c, verify, a, s) == FilePipe.Run(c, verify, pushed, [s[1]]) == Next(c, verify, pushed, s[1]);
    var ops := [Timed(OpPush(msg, false), 0), Timed(OpClose, 0)];
    assert Produced([s[1]]) == [ops[1]];
    assert Produced(s) == ops && ops[1..] == [ops[1]] && ops[1..][1..] == [];
    assert Pushed(ops) == [msg] + Pushed([ops[1]]) && Pushed([ops[1]]) == [];
    PushShape(c, a.p, msg, false, 0);
    CloseShape(c, pushed.p);
    assert Created(c, pushed.p, [ops[1]]) == [];
  }

  /** Afterwards the directory lists that file last, under its closed name. */
  lemma FinishedLists(c: Config, p: Producer, h: History, msg: Bytes) returns (names: seq<string>, base: string)
    requires Inv(c, p, h) && p.file.Some?
    ensures p.file.value.name == base + ".open"
    ensures Finished(c, p, msg).file.None? && Lists(names, Finished(c, p, msg).dir)
    ensures names != [] && names[|names| - 1] == base
  {
    hide Inv, ClosedName, Push, CloseFile, Messages, Adds, IsOpen;
    OpenFileLooksOpen(c, p, h);
    var g := PushFollows(c, p, h, msg, false, 0);
    var f := CloseFollows(c, Push(c, p, msg, false, 0), g);
    var q := Finished(c, p, msg);
    AllClosed(c, q, f);
    names, base := Listed(c, q, f), ClosedName(c, h.stamps[|h.closed|]);
    ListedIsSorted(c, q, f);
    forall name
      ensures name in names <==> name in q.dir
    {
      ListedIsDirectory(c, q, f, name);
    }
  }

  lemma AllClosed(c: Config, p: Producer, h: History)
    requires Inv(c, p, h) && p.file.None?
    ensures |h.closed| == |h.stamps|
  {
    hide FileOf, ClosedName, Marshal, GoodClock, NothingElse, TextFormat;
  }

  /** A consumer that had the whole open file waits for ever once it is closed. */
  lemma WaitsBehindClosedName(c: Config, verify: bool, names: seq<string>, dir: map<string, Bytes>, base: string,
                              k: Consumer)
    requires Sorted(names) && names != [] && names[|names| - 1] == base
    requires k.name == base + ".open" && k.reader.None?
    ensures FetchNext(c, verify, names, dir, k) == (Waiting, k)
  {
    hide Less, After, OpenForRead, IsOpen;
    RestOfOpenFileIsSkipped(base, names, |names| - 1);
  }

  /** Once the open file is drained, a message pushed to it before it is closed never arrives. */
  lemma LaterMessageIsMissed(c: Config, verify: bool, format: Bytes, ops: seq<Timed>, k: Consumer, owed: seq<Bytes>,
                             h: History, drain: seq<Step>, msg: Bytes)
    requires var p := Written(c, format, ops);
      && Inv(c, p, h) && p.file.Some?
      && Possible(c, verify, Join(p, k), drain) && Produced(drain) == []
      && var b := FilePipe.Run(c, verify, Join(p, k), drain);
      b.p == p && b.k.name == p.file.value.name && b.k.reader.None?
    requires GoodClock(Created(c, Start(format), ops)) && AllCarried(TextFormat(format), Pushed(ops))
    requires Carried(TextFormat(format), msg) && Good(c, verify, format, ops, k, owed)
    ensures FilePipe.Run(c, verify, Join(Written(c, format, ops), k), drain).delivered == owed + [msg]
  {
    hide Written, FilePipe.Run, Created, GoodClock, Inv, Lists, IsOpen, Possible, ClosedName, Carried, Pushed,
      TextFormat, Produced, FetchNext, Finish, Finished;
    var p := Written(c, format, ops);
    var a := Join(p, k);
    var b := FilePipe.Run(c, verify, a, drain);
    FinishRuns(c, verify, b, msg);
    RunAppend(c, verify, a, drain, Finish(msg));
    var steps := drain + Finish(msg);
    assert [] + Produced(Finish(msg)) == Produced(Finish(msg)) == Produced(steps);
    assert Created(c, Start(format), ops) + [] == Created(c, Start(format), ops);
    assert Continues(c, verify, format, ops, k, steps);
    var names, base := FinishedLists(c, p, h, msg);
    var end := FilePipe.Run(c, verify, a, steps);
    assert end.p == Finished(c, p, msg) && end.k == b.k;
    ListsSorted(names, end.p.dir);
    WaitsBehindClosedName(c, verify, names, end.p.dir, base, end.k);
    assert Done(c, verify, end, names);
  }

  lemma ListsSorted(names: seq<string>, dir: map<string, Bytes>)
    requires Lists(names, dir)
    ensures Sorted(names)
  {
  }

  lemma TwoMessagesDiffer(before: seq<Bytes>)
    ensures before + [[]] != before + [[0]]
  {
    assert (before + [[]])[|before|] != (before + [[0]])[|before|];
  }

  /** No consumer that starts on the open file, wherever in it, is good. */
  lemma OpenFileIsBadStart(c: Config, verify: bool, format: Bytes, ops: seq<Timed>, k: Consumer, owed: seq<Bytes>,
                           names: seq<string>, h: History)
    requires GoodClock(Created(c, Start(format), ops)) && AllCarried(TextFormat(format), Pushed(ops))
    requires var p := Written(c, format, ops);
      && Inv(c, p, h) && p.file.Some? && Lists(names, p.dir)
      && names != [] && names[|names| - 1] == p.file.value.name == k.name
    ensures !Good(c, verify, format, ops, k, owed)
  {
    hide Written, FilePipe.Run, Created, GoodClock, Inv, Lists, IsOpen, Possible, Pushed, TextFormat, Continues, Good;
    if Good(c, verify, format, ops, k, owed) {
      TwoMessagesDiffer(owed);
      var drain := Drain(c, verify, Join(Written(c, format, ops), k), names);
      LaterMessageIsMissed(c, verify, format, ops, k, owed, h, drain, []);
      LaterMessageIsMissed(c, verify, format, ops, k, owed, h, drain, [0]);
      assert false;
    }
  }

  /**
   Starting at the oldest file is good if and only if that file is not one still being written, or is refused. An
   open file is read up to what it has so far; what is pushed to it later is never delivered.
   */
  lemma StartIsGoodExactlyWhen(c: Config, verify: bool, format: Bytes, ops: seq<Timed>, names: seq<string>)
    requires Ascii(format) && !IsOpen("." + c.key)
    requires GoodClock(Created(c, Start(format), ops)) && AllCarried(TextFormat(format), Pushed(ops))
    requires Lists(names, Written(c, format, ops).dir)
    ensures Good(c, verify, format, ops, Seek(c, verify, names, Written(c, format, ops).dir, false), Pushed(ops))
       <==> StartsSafely(c, verify, names, Written(c, format, ops).dir)
  {
    hide Written, FilePipe.Run, Created, GoodClock, Inv, Lists, IsOpen, Possible, Pushed, TextFormat, Good, AllCarried,
      OpenForRead, Content;
    var p := Written(c, format, ops);
    if StartsSafely(c, verify, names, p.dir) {
      SafeStartIsGood(c, verify, format, ops, names);
    } else {
      var h := Produces(c, format, ops);
      OpenFileIsLast(c, p, h, names);
      OpenFileIsBadStart(c, verify, format, ops, Seek(c, verify, names, p.dir, false), Pushed(ops), names, h);
    }
  }

  // ---------------------------------------------------------------------------------------------
  // The newest offset
  // ---------------------------------------------------------------------------------------------

  /** What was delivered before makes no difference to a run. */
  lemma {:induction false} RunIgnoresDelivered(c: Config, verify: bool, a: System, before: seq<Bytes>, steps: seq<Step>)
    requires Possible(c, verify, a, steps)
    ensures var b := a.(delivered := before + a.delivered);
      && Possible(c, verify, b, steps)
      && FilePipe.Run(c, verify, b, steps)
         == FilePipe.Run(c, verify, a, steps).(delivered := before + FilePipe.Run(c, verify, a, steps).delivered)
    decreases |steps|
  {
    hide Apply, FetchNext, Sorted;
    if steps != [] {
      var next := Next(c, verify, a, steps[0]);
      RunIgnoresDelivered(c, verify, next, before, steps[1..]);
      if steps[0].Consume? {
        var outcome := FetchNext(c, verify, steps[0].names, a.p.dir, a.k).0;
        var more := if outcome.Delivered? then [outcome.msg] else [];
        assert (before + a.delivered) + more == before + (a.delivered + more);
      }
    }
  }

  lemma CompleteWithout(c: Config, verify: bool, b: System, before: seq<Bytes>, due: seq<Bytes>)
    requires Complete(c, verify, b.(delivered := before + b.delivered), before + due)
    ensures Complete(c, verify, b, due)
  {
    hide FetchNext, Lists;
    var shifted := b.(delivered := before + b.delivered);
    assert shifted.delivered[|before|..] == b.delivered && (before + due)[|before|..] == due;
    assert b.delivered == (before + due)[|before|..|before| + |b.delivered|];
    forall names | Done(c, verify, b, names)
      ensures b.delivered == due
    {
      assert Done(c, verify, shifted, names);
    }
  }

  /** At the end of the last closed file everything before is behind the consumer. */
  lemma NewestIsProgress(c: Config, verify: bool, p: Producer, h: History, names: seq<string>)
    requires Inv(c, p, h) && Lists(names, p.dir) && !IsOpen("." + c.key) && AllCarried(p.text, Messages(h))
    requires names == [] || !IsOpen(names[|names| - 1])
    ensures var k := Seek(c, verify, names, p.dir, true);
      SysInv(c, Join(p, k).(delivered := Messages(h)), h, |h.closed|)
  {
    hide ClosedName, IsOpen, Inv, OpenForRead, Frames, Carried;
    DirectoryLists(c, p, h, names);
    ClosedFilesAreTimed(c, p, h);
    NotOpen(c, p, h);
    var n := |h.closed|;
    assert h.closed[..n] == h.closed;
    assert Joined(h.closed) + [] == Joined(h.closed);
    if names != [] {
      OpenFileIsLast(c, p, h, names);
      NextClosedFile(c, verify, p, h, n - 1);
      assert LeftToRead(p.text, [], [], Joined(h.closed), h.closed) by {
        EmptyFrames(p.text);
      }
    }
  }

  lemma EmptyFrames(text: bool)
    ensures Frames(text, []) == []
  {
  }

  lemma ClosedNewestIsGood(c: Config, verify: bool, format: Bytes, ops: seq<Timed>, names: seq<string>)
    requires Ascii(format) && !IsOpen("." + c.key)
    requires GoodClock(Created(c, Start(format), ops)) && AllCarried(TextFormat(format), Pushed(ops))
    requires Lists(names, Written(c, format, ops).dir) && (names == [] || !IsOpen(names[|names| - 1]))
    ensures Good(c, verify, format, ops, Seek(c, verify, names, Written(c, format, ops).dir, true), [])
  {
    hide Written, FilePipe.Run, Created, GoodClock, Inv, Lists, IsOpen, Possible, Pushed, Complete, SysInv, TextFormat,
      Carried, Messages, Seek;
    var p := Written(c, format, ops);
    var k := Seek(c, verify, names, p.dir, true);
    var h := Produces(c, format, ops);
    NewestIsProgress(c, verify, p, h, names);
    var a := Join(p, k);
    assert Pushed(ops) + [] == Pushed(ops);
    forall steps | Continues(c, verify, format, ops, k, steps)
      ensures Complete(c, verify, FilePipe.Run(c, verify, a, steps), [] + Pushed(Produced(steps)))
    {
      CarriedParts(TextFormat(format), Pushed(ops), Pushed(Produced(steps)));
      RunIgnoresDelivered(c, verify, a, Pushed(ops), steps);
      var g, m := RunKeepsInv(c, verify, a.(delivered := Pushed(ops)), h, |h.closed|, steps);
      var b := FilePipe.Run(c, verify, a, steps);
      ReachedIsComplete(c, verify, b.(delivered := Pushed(ops) + b.delivered), g, m);
      CompleteWithout(c, verify, b, Pushed(ops), Pushed(Produced(steps)));
      assert [] + Pushed(Produced(steps)) == Pushed(Produced(steps));
    }
  }

  /** A file is only there because a message was pushed. */
  lemma {:induction false} FilesComeWithMessages(c: Config, s: Producer, ops: seq<Timed>)
    requires s.file.None? && Pushed(ops) == []
    ensures FileProducing.Run(c, s, ops).file.None?
    decreases |ops|
  {
    hide Push;
    if ops != [] {
      FilesComeWithMessages(c, Apply(c, s, ops[0].op, ops[0].time), ops[1..]);
    }
  }

  /** A consumer that starts before all files gets messages from before its start. */
  lemma RefusedNewestIsBad(c: Config, verify: bool, format: Bytes, ops: seq<Timed>, h: History)
    requires Ascii(format) && !IsOpen("." + c.key)
    requires GoodClock(Created(c, Start(format), ops)) && AllCarried(TextFormat(format), Pushed(ops))
    requires var p := Written(c, format, ops);
      && Inv(c, p, h) && p.file.Some? && p.text == TextFormat(format)
      && Messages(h) == Pushed(ops) && h.stamps == Created(c, Start(format), ops)
    ensures !Good(c, verify, format, ops, Consumer("", None, false), [])
  {
    hide FilePipe.Run, FileProducing.Run, Created, GoodClock, Inv, Lists, IsOpen, Possible, Pushed, SysInv, TextFormat,
      FetchNext, Finish, Finished, Messages, Produced;
    var p, k := Written(c, format, ops), Consumer("", None, false);
    var a := Join(p, k);
    if Pushed(ops) == [] {
      FilesComeWithMessages(c, Start(format), ops);
    }
    var msg: Bytes := if Pushed(ops)[0] == [] then [0] else [];
    FinishRuns(c, verify, a, msg);
    var names, base := FinishedLists(c, p, h, msg);
    var mid := a.(p := Finished(c, p, msg));
    OneConsume(c, verify, mid, names);
    RunAppend(c, verify, a, Finish(msg), [Consume(names)]);
    var steps := Finish(msg) + [Consume(names)];
    assert Produced(Finish(msg)) + [] == Produced(Finish(msg));
    assert Created(c, Start(format), ops) + [] == Created(c, Start(format), ops);
    assert AllCarried(TextFormat(format), Pushed(ops) + [msg]);
    assert Continues(c, verify, format, ops, k, steps);
    StartsBefore(c, p, h);
    var g, m := RunKeepsInv(c, verify, a, h, 0, Finish(msg));
    FirstIsOldest(c, verify, mid, g, m, names, Pushed(ops) + [msg]);
    var end := FilePipe.Run(c, verify, a, steps);
    assert end.delivered == [Pushed(ops)[0]] && end.delivered[0] != ([] + [msg])[0];
  }

  lemma OneConsume(c: Config, verify: bool, a: System, names: seq<string>)
    requires Lists(names, a.p.dir)
    ensures Possible(c, verify, a, [Consume(names)]) && Produced([Consume(names)]) == []
    ensures FilePipe.Run(c, verify, a, [Consume(names)]) == Next(c, verify, a, Consume(names))
  {
    hide FetchNext, Sorted;
    assert [Consume(names)][1..] == [];
    assert Possible(c, verify, Next(c, verify, a, Consume(names)), []);
  }

  lemma StartsBefore(c: Config, p: Producer, h: History)
    requires Inv(c, p, h) && AllCarried(p.text, Messages(h))
    ensures SysInv(c, Join(p, Consumer("", None, false)), h, 0)
  {
    hide Inv, ClosedName, AllCarried;
    ClosedFilesAreTimed(c, p, h);
    assert h.closed[..0] == [];
  }

  lemma FirstIsOldest(c: Config, verify: bool, a: System, h: History, n: nat, names: seq<string>, msgs: seq<Bytes>)
    requires SysInv(c, a, h, n) && Lists(names, a.p.dir) && !IsOpen("." + c.key)
    requires a.p.file.None? && a.delivered == [] && Messages(h) == msgs != []
    ensures Next(c, verify, a, Consume(names)).delivered == [msgs[0]]
  {
    hide Inv, FetchNext, Progress, AllCarried, IsOpen, Sorted;
    var m := FetchGivesNext(c, verify, names, a, h, n);
    NotOpen(c, a.p, h);
    assert Joined(h.closed) + [] == Joined(h.closed);
    assert [] + [msgs[0]] == [msgs[0]];
  }

  /**
   Starting at the newest offset, exactly what is pushed from then on is delivered if and only if the last file is
   not one still being written.
   */
  lemma NewestStartIsGoodExactlyWhen(c: Config, verify: bool, format: Bytes, ops: seq<Timed>, names: seq<string>)
    requires Ascii(format) && !IsOpen("." + c.key)
    requires GoodClock(Created(c, Start(format), ops)) && AllCarried(TextFormat(format), Pushed(ops))
    requires Lists(names, Written(c, format, ops).dir)
    ensures Good(c, verify, format, ops, Seek(c, verify, names, Written(c, format, ops).dir, true), [])
       <==> names == [] || !IsOpen(names[|names| - 1])
  {
    hide Written, FilePipe.Run, Created, GoodClock, Inv, Lists, IsOpen, Possible, Pushed, TextFormat, Good, AllCarried,
      OpenForRead, Content;
    var p := Written(c, format, ops);
    if names == [] || !IsOpen(names[|names| - 1]) {
      ClosedNewestIsGood(c, verify, format, ops, names);
    } else {
      var h := Produces(c, format, ops);
      OpenFileIsLast(c, p, h, names);
      if Seek(c, verify, names, p.dir, true) == Consumer("", None, false) {
        RefusedNewestIsBad(c, verify, format, ops, h);
      } else {
        OpenFileIsBadStart(c, verify, format, ops, Seek(c, verify, names, p.dir, true), [], names, h);
      }
    }
  }

  /** A file still being written is refused exactly when digests are verified and its body's is not all zeros. */
  lemma OpenFileIsRefusedExactlyWhen(c: Config, verify: bool, p: Producer, h: History)
    requires Inv(c, p, h) && p.file.Some?
    ensures OpenForRead(c, verify, Content(p.dir, p.file.value.name)).None?
       <==> verify && c.mac(p.file.value.hashed) != Zeros(32)
  {
    hide Marshal, ReadHeader, TextFormat, Hex, Zeros, ClosedName, Frames, GoodClock, NothingElse, ClosedFilesHold;
    var f := p.file.value;
    HexIsPlain(Zeros(32));
    HeaderReadsBack(p.header, f.hashed);
    if Hex(Zeros(32)) == Hex(c.mac(f.hashed)) {
      HexIsInjective(Zeros(32), c.mac(f.hashed));
    }
  }
}
