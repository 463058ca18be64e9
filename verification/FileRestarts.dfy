/**
 Producers of one topic that follow each other: each one starts with the directory the one before left, and numbers
 its files from one again (NewProducer, newFileName and openFile in pipe/file.go). A producer that dies leaves its
 open file behind.
 */
module FileRestarts {
  import opened FileConsuming
  import opened FileHeader
  import opened FileNames
  import opened FilePipe
  import opened FileProducing
  import opened FileRuns
  import opened FileStart
  import opened Framing
  import opened Json
  import opened Options

  /** A new producer over the same directory; the consumer stays as it is. */
  function Restarted(format: Bytes, a: System): System {
    a.(p := Start(format).(dir := a.p.dir))
  }

  /** Runs of producers, each followed by a restart. */
  ghost predicate PossibleLives(c: Config, verify: bool, format: Bytes, a: System, lives: seq<seq<Step>>)
    decreases |lives|
  {
    lives == [] || (
      && Possible(c, verify, a, lives[0])
      && PossibleLives(c, verify, format, Restarted(format, FilePipe.Run(c, verify, a, lives[0])), lives[1..]))
  }

  ghost function RunLives(c: Config, verify: bool, format: Bytes, a: System, lives: seq<seq<Step>>): System
    requires PossibleLives(c, verify, format, a, lives)
    decreases |lives|
  {
    if lives == [] then a
    else RunLives(c, verify, format, Restarted(format, FilePipe.Run(c, verify, a, lives[0])), lives[1..])
  }

  function PushedLives(lives: seq<seq<Step>>): seq<Bytes> {
    if lives == [] then [] else Pushed(Produced(lives[0])) + PushedLives(lives[1..])
  }

  ghost function CreatedLives(c: Config, verify: bool, format: Bytes, a: System, lives: seq<seq<Step>>): seq<Stamp>
    requires PossibleLives(c, verify, format, a, lives)
    decreases |lives|
  {
    if lives == [] then []
    else
      Created(c, a.p, Produced(lives[0]))
      + CreatedLives(c, verify, format, Restarted(format, FilePipe.Run(c, verify, a, lives[0])), lives[1..])
  }

  /** No producer before the current one ended with a file open. */
  ghost predicate Clean(c: Config, verify: bool, format: Bytes, a: System, lives: seq<seq<Step>>)
    requires PossibleLives(c, verify, format, a, lives)
    decreases |lives|
  {
    lives == [] ||
    (var b := FilePipe.Run(c, verify, a, lives[0]);
     b.p.file.None? && Clean(c, verify, format, Restarted(format, b), lives[1..]))
  }

  // ---------------------------------------------------------------------------------------------
  // Clean ends
  // ---------------------------------------------------------------------------------------------

  /** The files of a producer that closed its last one are in order for the next producer. */
  lemma RestartKeepsInv(c: Config, format: Bytes, a: System, h: History, n: nat)
    requires SysInv(c, a, h, n) && a.p.file.None? && a.p.header.format == format
    ensures SysInv(c, Restarted(format, a), h, n) && Restarted(format, a).p.header.format == format
  {
    hide FileOf, ClosedName, GoodClock, AllCarried, LeftToRead, Joined, TextFormat;
  }

  lemma {:induction false} FormatStays(c: Config, verify: bool, a: System, steps: seq<Step>)
    requires Possible(c, verify, a, steps)
    ensures FilePipe.Run(c, verify, a, steps).p.header.format == a.p.header.format
    decreases |steps|
  {
    hide FetchNext, Sorted, Apply;
    if steps != [] {
      if steps[0].Produce? {
        ApplyKeepsFormat(c, a.p, steps[0].op, steps[0].time);
      }
      FormatStays(c, verify, Next(c, verify, a, steps[0]), steps[1..]);
    }
  }

  lemma ApplyKeepsFormat(c: Config, s: Producer, op: Op, time: nat)
    ensures Apply(c, s, op, time).header.format == s.header.format
  {
    hide Push, CloseFile, Flush;
    FlushShape(s);
    CloseShape(c, s);
    CloseShape(c, Flush(s));
    match op
    case OpPush(msg, batch) => PushKeepsFormat(c, s, msg, batch, time);
    case OpSchema(data) =>
      var closed := CloseFile(c, Flush(s));
      PushKeepsFormat(c, closed.(header := closed.header.(schema := data)), data, false, time);
    case _ =>
  }

  lemma PushKeepsFormat(c: Config, s: Producer, msg: Bytes, batch: bool, time: nat)
    ensures Push(c, s, msg, batch, time).header.format == s.header.format
  {
    hide FileHeader.WriteAt, NewFile, Frame, CloseFile, Flush;
    NewFileShape(c, s, time);
    var written := Write(GetFile(c, s, time), Frame(s.text, msg));
    FlushShape(written);
    var flushed := if batch then written else Flush(written);
    var last := flushed.(file := Some(flushed.file.value.(offset := flushed.file.value.offset + |msg| + 1)));
    FlushShape(last);
    CloseShape(c, last);
    CloseShape(c, Flush(last));
  }

  /** Over any number of producers that all close their last file everything is as with a single one. */
  lemma {:induction false} LivesKeepInv(c: Config, verify: bool, format: Bytes, a: System, h: History, n: nat,
                                        lives: seq<seq<Step>>)
    returns (g: History, m: nat)
    requires SysInv(c, a, h, n) && a.p.header.format == format && !IsOpen("." + c.key)
    requires PossibleLives(c, verify, format, a, lives) && Clean(c, verify, format, a, lives)
    requires AllCarried(a.p.text, PushedLives(lives))
    requires GoodClock(h.stamps + CreatedLives(c, verify, format, a, lives))
    ensures var b := RunLives(c, verify, format, a, lives);
      SysInv(c, b, g, m) && b.p.header.format == format && b.p.text == a.p.text
    ensures Messages(g) == Messages(h) + PushedLives(lives)
    ensures g.stamps == h.stamps + CreatedLives(c, verify, format, a, lives)
    decreases |lives|
  {
    hide SysInv, Messages, GoodClock, AllCarried, Possible, FilePipe.Run, Created, Pushed, TextFormat;
    g, m := h, n;
    if lives == [] {
      assert Messages(h) + [] == Messages(h) && h.stamps + [] == h.stamps;
    } else {
      var steps, b := lives[0], FilePipe.Run(c, verify, a, lives[0]);
      var r := Restarted(format, b);
      var now, later := Created(c, a.p, Produced(steps)), CreatedLives(c, verify, format, r, lives[1..]);
      assert h.stamps + (now + later) == (h.stamps + now) + later;
      GoodPrefix(h.stamps + now, later);
      CarriedParts(a.p.text, Pushed(Produced(steps)), PushedLives(lives[1..]));
      var h1, n1 := RunKeepsInv(c, verify, a, h, n, steps);
      FormatStays(c, verify, a, steps);
      RestartKeepsInv(c, format, b, h1, n1);
      SameText(c, a, h, n, r, h1, n1);
      g, m := LivesKeepInv(c, verify, format, r, h1, n1, lives[1..]);
      var p1, p2 := Pushed(Produced(steps)), PushedLives(lives[1..]);
      assert (Messages(h) + p1) + p2 == Messages(h) + (p1 + p2);
    }
  }

  lemma SameText(c: Config, a: System, h: History, n: nat, b: System, g: History, m: nat)
    requires SysInv(c, a, h, n) && SysInv(c, b, g, m) && a.p.header.format == b.p.header.format
    ensures a.p.text == b.p.text == TextFormat(a.p.header.format)
  {
    hide Progress, AllCarried, TextFormat;
    TextIsFormat(c, a.p, h);
    TextIsFormat(c, b.p, g);
  }

  // ---------------------------------------------------------------------------------------------
  // A producer that dies with a file open
  // ---------------------------------------------------------------------------------------------

  /** An open file has something in it. */
  predicate OpenHasBytes(p: Producer) {
    p.file.Some? ==> p.file.value.hashed + p.file.value.pending != []
  }

  lemma FlushKeepsBytes(s: Producer)
    requires OpenHasBytes(s)
    ensures OpenHasBytes(Flush(s))
  {
    hide WriteAt;
  }

  lemma PushLeavesBytes(c: Config, s: Producer, msg: Bytes, batch: bool, time: nat)
    ensures OpenHasBytes(Push(c, s, msg, batch, time))
  {
    hide NewFile, CloseFile, Flush;
    var written := Write(GetFile(c, s, time), Frame(s.text, msg));
    FlushKeepsBytes(written);
    var flushed := if batch then written else Flush(written);
    FlushShape(written);
    var last := flushed.(file := Some(flushed.file.value.(offset := flushed.file.value.offset + |msg| + 1)));
    CloseShape(c, last);
    CloseShape(c, Flush(last));
  }

  lemma {:induction false} RunLeavesBytes(c: Config, verify: bool, a: System, steps: seq<Step>)
    requires Possible(c, verify, a, steps) && OpenHasBytes(a.p)
    ensures OpenHasBytes(FilePipe.Run(c, verify, a, steps).p)
    decreases |steps|
  {
    hide FetchNext, Sorted, Push, CloseFile, Flush, OpenHasBytes;
    if steps != [] {
      if steps[0].Produce? {
        ApplyLeavesBytes(c, a.p, steps[0].op, steps[0].time);
      }
      RunLeavesBytes(c, verify, Next(c, verify, a, steps[0]), steps[1..]);
    }
  }

  lemma ApplyLeavesBytes(c: Config, s: Producer, op: Op, time: nat)
    requires OpenHasBytes(s)
    ensures OpenHasBytes(Apply(c, s, op, time))
  {
    hide Push, CloseFile, Flush;
    FlushKeepsBytes(s);
    CloseShape(c, s);
    CloseShape(c, Flush(s));
    match op
    case OpPush(msg, batch) => PushLeavesBytes(c, s, msg, batch, time);
    case OpSchema(data) =>
      var closed := CloseFile(c, Flush(s));
      PushLeavesBytes(c, closed.(header := closed.header.(schema := data)), data, false, time);
    case _ =>
  }

  lemma OpenHasMessages(c: Config, p: Producer, h: History)
    requires Inv(c, p, h) && p.file.Some? && OpenHasBytes(p)
    ensures h.open != []
  {
    hide FileOf, ClosedName, Marshal, GoodClock, ClosedFilesHold, NothingElse, TextFormat;
  }

  /** The directory has a listing. */
  lemma SomeListing(c: Config, p: Producer, h: History) returns (names: seq<string>)
    requires Inv(c, p, h)
    ensures Lists(names, p.dir)
  {
    hide Inv, Listed;
    ClosedFilesAreTimed(c, p, h);
    names := Listed(c, p, h);
    ListedIsSorted(c, p, h);
    forall name
      ensures name in names <==> name in p.dir
    {
      ListedIsDirectory(c, p, h, name);
    }
  }

  /** Fetching, with the file open or with another producer in place, goes as far as the closed files. */
  lemma {:induction false} DrainClosed(c: Config, verify: bool, format: Bytes, a: System, h: History, n: nat)
    returns (steps: seq<Step>, names: seq<string>)
    requires SysInv(c, a, h, n) && !IsOpen("." + c.key)
    ensures var r := Restarted(format, a);
      && Possible(c, verify, r, steps) && Produced(steps) == []
      && var b := FilePipe.Run(c, verify, r, steps);
      b.p == r.p && b.delivered == Joined(h.closed) && Done(c, verify, b, names)
    decreases |Joined(h.closed)| - |a.delivered|
  {
    hide FetchNext, Joined, Inv, Progress, AllCarried, Sorted, IsOpen;
    names := SomeListing(c, a.p, h);
    var m := FetchGivesNext(c, verify, names, a, h, n);
    var r, step := Restarted(format, a), Consume(names);
    steps := [];
    DeliveredWithinClosed(c, a, h, n);
    if |a.delivered| < |Joined(h.closed)| {
      var k := ConsumeKeepsInv(c, verify, a, h, n, names);
      var b := Next(c, verify, a, step);
      var rest;
      rest, names := DrainClosed(c, verify, format, b, h, k);
      steps := [step] + rest;
      assert steps[1..] == rest;
      assert Next(c, verify, r, step) == Restarted(format, b);
    }
  }

  lemma DeliveredWithinClosed(c: Config, a: System, h: History, n: nat)
    requires SysInv(c, a, h, n)
    ensures a.delivered <= Joined(h.closed)
  {
    hide Inv, ClosedName, AllCarried;
    PrefixOfJoined(h.closed, n);
  }

  // ---------------------------------------------------------------------------------------------
  // Restarts
  // ---------------------------------------------------------------------------------------------

  /** What the producers up to the last one, with `last` as its steps, left behind. */
  ghost function Ended(c: Config, verify: bool, format: Bytes, lives: seq<seq<Step>>, last: seq<Step>): System
    requires PossibleLives(c, verify, format, Begin(format), lives)
    requires Possible(c, verify, RunLives(c, verify, format, Begin(format), lives), last)
  {
    FilePipe.Run(c, verify, RunLives(c, verify, format, Begin(format), lives), last)
  }

  ghost predicate UsableLives(c: Config, verify: bool, format: Bytes, lives: seq<seq<Step>>, last: seq<Step>) {
    && Ascii(format) && !IsOpen("." + c.key)
    && PossibleLives(c, verify, format, Begin(format), lives) && Clean(c, verify, format, Begin(format), lives)
    && Possible(c, verify, RunLives(c, verify, format, Begin(format), lives), last)
    && AllCarried(TextFormat(format), PushedSoFar(lives, last))
    && GoodClock(CreatedSoFar(c, verify, format, lives, last))
  }

  function PushedSoFar(lives: seq<seq<Step>>, last: seq<Step>): seq<Bytes> {
    PushedLives(lives) + Pushed(Produced(last))
  }

  ghost function CreatedSoFar(c: Config, verify: bool, format: Bytes, lives: seq<seq<Step>>, last: seq<Step>): seq<Stamp>
    requires PossibleLives(c, verify, format, Begin(format), lives)
  {
    CreatedLives(c, verify, format, Begin(format), lives)
    + Created(c, RunLives(c, verify, format, Begin(format), lives).p, Produced(last))
  }

  /** Steps of the next producer and of the consumer. */
  ghost predicate GoesOn(c: Config, verify: bool, format: Bytes, lives: seq<seq<Step>>, last: seq<Step>,
                         next: seq<Step>)
    requires UsableLives(c, verify, format, lives, last)
  {
    var r := Restarted(format, Ended(c, verify, format, lives, last));
    && Possible(c, verify, r, next)
    && AllCarried(TextFormat(format), PushedSoFar(lives, last) + Pushed(Produced(next)))
    && GoodClock(CreatedSoFar(c, verify, format, lives, last) + Created(c, r.p, Produced(next)))
  }

  /** However the next producer and the consumer go on, everything pushed so far and then arrives once and in order. */
  ghost predicate GoodRestart(c: Config, verify: bool, format: Bytes, lives: seq<seq<Step>>, last: seq<Step>)
    requires UsableLives(c, verify, format, lives, last)
  {
    forall next :: GoesOn(c, verify, format, lives, last, next) ==>
      Complete(c, verify, FilePipe.Run(c, verify, Restarted(format, Ended(c, verify, format, lives, last)), next),
        PushedSoFar(lives, last) + Pushed(Produced(next)))
  }

  lemma ReachEnd(c: Config, verify: bool, format: Bytes, lives: seq<seq<Step>>, last: seq<Step>)
    returns (h: History, n: nat)
    requires UsableLives(c, verify, format, lives, last)
    ensures var b := Ended(c, verify, format, lives, last);
      && SysInv(c, b, h, n) && b.p.header.format == format && b.p.text == TextFormat(format)
      && Messages(h) == PushedSoFar(lives, last) && h.stamps == CreatedSoFar(c, verify, format, lives, last)
      && OpenHasBytes(b.p)
  {
    hide PossibleLives, RunLives, CreatedLives, Clean, Possible, FilePipe.Run, Created, Pushed, GoodClock, SysInv,
      Messages, AllCarried, TextFormat, PushedLives, OpenHasBytes;
    var start, none := Begin(format), History([], [], []);
    BeginsInOrder(c, format);
    var a := RunLives(c, verify, format, start, lives);
    var first, now := CreatedLives(c, verify, format, start, lives), Created(c, a.p, Produced(last));
    GoodPrefix(first, now);
    CarriedParts(TextFormat(format), PushedLives(lives), Pushed(Produced(last)));
    assert none.stamps + first == first && [] + PushedLives(lives) == PushedLives(lives);
    var g, m := LivesKeepInv(c, verify, format, start, none, 0, lives);
    h, n := RunKeepsInv(c, verify, a, g, m, last);
    FormatStays(c, verify, a, last);
    SameText(c, a, g, m, Ended(c, verify, format, lives, last), h, n);
    LivesLeaveBytes(c, verify, format, start, lives);
    RunLeavesBytes(c, verify, a, last);
  }

  lemma BeginsInOrder(c: Config, format: Bytes)
    requires Ascii(format)
    ensures var a := Begin(format);
      && SysInv(c, a, History([], [], []), 0) && a.p.header.format == format && a.p.text == TextFormat(format)
      && Messages(History([], [], [])) == [] && OpenHasBytes(a.p)
  {
    hide TextFormat;
    StartInv(c, format);
  }

  lemma {:induction false} LivesLeaveBytes(c: Config, verify: bool, format: Bytes, a: System, lives: seq<seq<Step>>)
    requires PossibleLives(c, verify, format, a, lives) && OpenHasBytes(a.p)
    ensures OpenHasBytes(RunLives(c, verify, format, a, lives).p)
    decreases |lives|
  {
    hide Possible, FilePipe.Run;
    if lives != [] {
      LivesLeaveBytes(c, verify, format, Restarted(format, FilePipe.Run(c, verify, a, lives[0])), lives[1..]);
    }
  }

  lemma CleanRestartIsGood(c: Config, verify: bool, format: Bytes, lives: seq<seq<Step>>, last: seq<Step>,
                           next: seq<Step>)
    requires UsableLives(c, verify, format, lives, last) && GoesOn(c, verify, format, lives, last, next)
    requires Ended(c, verify, format, lives, last).p.file.None?
    ensures Complete(c, verify, FilePipe.Run(c, verify, Restarted(format, Ended(c, verify, format, lives, last)), next),
      PushedSoFar(lives, last) + Pushed(Produced(next)))
  {
    hide Ended, PossibleLives, Clean, Possible, FilePipe.Run, Created, Pushed, GoodClock, SysInv, Messages, AllCarried,
      TextFormat, PushedSoFar, CreatedSoFar, Complete;
    var h, n := ReachEnd(c, verify, format, lives, last);
    var b := Ended(c, verify, format, lives, last);
    RestartKeepsInv(c, format, b, h, n);
    var r := Restarted(format, b);
    CarriedParts(TextFormat(format), PushedSoFar(lives, last), Pushed(Produced(next)));
    var g, m := RunKeepsInv(c, verify, r, h, n, next);
    ReachedIsComplete(c, verify, FilePipe.Run(c, verify, r, next), g, m);
  }

  lemma DeadFileIsMissed(c: Config, verify: bool, format: Bytes, lives: seq<seq<Step>>, last: seq<Step>)
    requires UsableLives(c, verify, format, lives, last)
    requires Ended(c, verify, format, lives, last).p.file.Some?
    ensures !GoodRestart(c, verify, format, lives, last)
  {
    hide Ended, PossibleLives, Clean, Possible, FilePipe.Run, Created, Pushed, GoodClock, AllCarried, TextFormat,
      PushedSoFar, CreatedSoFar, OpenHasBytes, Inv, Progress, Joined, IsOpen;
    var h, n := ReachEnd(c, verify, format, lives, last);
    var b := Ended(c, verify, format, lives, last);
    var r := Restarted(format, b);
    OpenHasMessages(c, b.p, h);
    var steps, names := DrainClosed(c, verify, format, b, h, n);
    NothingPushed(c, r.p);
    assert PushedSoFar(lives, last) + [] == PushedSoFar(lives, last);
    assert CreatedSoFar(c, verify, format, lives, last) + [] == CreatedSoFar(c, verify, format, lives, last);
    assert GoesOn(c, verify, format, lives, last, steps);
    if GoodRestart(c, verify, format, lives, last) {
      LongerDiffers(Joined(h.closed), h.open);
      assert false;
    }
  }

  lemma LongerDiffers(a: seq<Bytes>, b: seq<Bytes>)
    requires b != []
    ensures a != a + b
  {
    assert |a| < |a + b|;
  }

  lemma NothingPushed(c: Config, p: Producer)
    ensures Pushed([]) == [] && Created(c, p, []) == []
  {
  }

  /**
   After any number of producers that closed their last file, and one that ended anywhere, the next producer is a
   good one if and only if no file was left open. What is in such a file is never delivered.
   */
  lemma RestartIsGoodExactlyWhen(c: Config, verify: bool, format: Bytes, lives: seq<seq<Step>>, last: seq<Step>)
    requires UsableLives(c, verify, format, lives, last)
    ensures GoodRestart(c, verify, format, lives, last) <==> Ended(c, verify, format, lives, last).p.file.None?
  {
    hide Ended, PossibleLives, RunLives, Clean, Possible, FilePipe.Run, Complete, PushedSoFar, GoodClock, AllCarried;
    if Ended(c, verify, format, lives, last).p.file.None? {
      forall next | GoesOn(c, verify, format, lives, last, next)
        ensures Possible(c, verify, Restarted(format, Ended(c, verify, format, lives, last)), next)
        ensures Complete(c, verify,
          FilePipe.Run(c, verify, Restarted(format, Ended(c, verify, format, lives, last)), next),
          PushedSoFar(lives, last) + Pushed(Produced(next)))
      {
        CleanRestartIsGood(c, verify, format, lives, last, next);
      }
    } else {
      DeadFileIsMissed(c, verify, format, lives, last);
    }
  }

  // ---------------------------------------------------------------------------------------------
  // What comes behind a dead file
  // ---------------------------------------------------------------------------------------------

  /** What FetchNext finds: the names in the directory and their content. */
  datatype Look = Look(names: seq<string>, dir: map<string, Bytes>)

  ghost predicate AllSee(looks: seq<Look>, open: string) {
    forall i :: 0 <= i < |looks| ==> Sorted(looks[i].names) && open in looks[i].names
  }

  /** The consumer after one FetchNext for each look. */
  ghost function Fetched(c: Config, verify: bool, k: Consumer, looks: seq<Look>): Consumer
    requires forall i :: 0 <= i < |looks| ==> Sorted(looks[i].names)
    decreases |looks|
  {
    if looks == [] then k
    else Fetched(c, verify, FetchNext(c, verify, looks[0].names, looks[0].dir, k).1, looks[1..])
  }

  /** The first name after the current one is not behind a later one. */
  lemma {:induction false} FirstAfterIsFirst(names: seq<string>, current: string, i: nat)
    requires i < |names| && Less(current, names[i])
    ensures After(names, current) <= i
    decreases |names|
  {
    if i > 0 && !Less(current, names[0]) {
      FirstAfterIsFirst(names[1..], current, i - 1);
    }
  }

  lemma StepStaysBefore(c: Config, verify: bool, names: seq<string>, dir: map<string, Bytes>, k: Consumer, open: string)
    requires Sorted(names) && open in names && IsOpen(open) && Less(k.name, open)
    ensures Less(FetchStep(c, verify, names, dir, k).1.name, open)
  {
    hide Less, After, IsOpen, OpenForRead, Fetch;
    var i: nat :| i < |names| && names[i] == open;
    FirstAfterIsFirst(names, k.name, i);
  }

  lemma {:induction false} FetchStaysBefore(c: Config, verify: bool, names: seq<string>, dir: map<string, Bytes>,
                                            k: Consumer, open: string)
    requires Sorted(names) && open in names && IsOpen(open) && Less(k.name, open)
    ensures Less(FetchNext(c, verify, names, dir, k).1.name, open)
    decreases Left(names, k), if k.reader.Some? then 1 else 0
  {
    hide Less, FetchStep, IsOpen, After;
    var (outcome, t) := FetchStep(c, verify, names, dir, k);
    StepStaysBefore(c, verify, names, dir, k, open);
    if outcome.Moved? {
      StepMovesOn(c, verify, names, dir, k);
      FetchStaysBefore(c, verify, names, dir, t, open);
    }
  }

  /** As long as an open file is there no consumer before it ever opens it or any file behind it, whatever else happens. */
  lemma {:induction false} NeverPassesOpenFile(c: Config, verify: bool, k: Consumer, looks: seq<Look>, open: string)
    requires AllSee(looks, open) && IsOpen(open) && Less(k.name, open)
    ensures Less(Fetched(c, verify, k, looks).name, open)
    decreases |looks|
  {
    hide Less, FetchNext, IsOpen, Sorted;
    if looks != [] {
      var look := looks[0];
      FetchStaysBefore(c, verify, look.names, look.dir, k, open);
      NeverPassesOpenFile(c, verify, FetchNext(c, verify, look.names, look.dir, k).1, looks[1..], open);
    }
  }
}
