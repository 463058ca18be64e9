/**
 A producer and a consumer of one topic working side by side on its directory: the consumer gets the messages
 in the order they were pushed, each once, and none is missing once the producer has closed its file.
 */
module FilePipe {
  import opened Encodings
  import opened FileConsuming
  import opened FileHeader
  import opened FileNames
  import opened FileProducing
  import opened FileRuns
  import opened Framing
  import opened Json
  import opened Options

  datatype System = System(p: Producer, k: Consumer, delivered: seq<Bytes>, failed: bool)

  /** An operation of the producer, or a call of FetchNext that finds `names` in the directory. */
  datatype Step = Produce(op: Op, time: nat) | Consume(names: seq<string>)

  ghost function Next(c: Config, verify: bool, a: System, step: Step): System
    requires step.Consume? ==> Sorted(step.names)
  {
    match step
    case Produce(op, time) => a.(p := Apply(c, a.p, op, time))
    case Consume(names) =>
      var (outcome, t) := FetchNext(c, verify, names, a.p.dir, a.k);
      System(a.p, t, a.delivered + if outcome.Delivered? then [outcome.msg] else [], a.failed || outcome.Failed?)
  }

  /** Every call of FetchNext sees the directory as it is. */
  ghost predicate Possible(c: Config, verify: bool, a: System, steps: seq<Step>)
    decreases |steps|
  {
    steps == [] || (
      && (steps[0].Consume? ==> Lists(steps[0].names, a.p.dir))
      && Possible(c, verify, Next(c, verify, a, steps[0]), steps[1..]))
  }

  ghost function Run(c: Config, verify: bool, a: System, steps: seq<Step>): System
    requires Possible(c, verify, a, steps)
    decreases |steps|
  {
    if steps == [] then a else Run(c, verify, Next(c, verify, a, steps[0]), steps[1..])
  }

  /** The producer's part of a run. */
  function Produced(steps: seq<Step>): seq<Timed> {
    if steps == [] then []
    else (if steps[0].Produce? then [Timed(steps[0].op, steps[0].time)] else []) + Produced(steps[1..])
  }

  function Begin(format: Bytes): System {
    System(Start(format), Consumer("", None, false), [], false)
  }

  // ---------------------------------------------------------------------------------------------
  // What the directory lists
  // ---------------------------------------------------------------------------------------------

  function ClosedNames(c: Config, h: History): (names: seq<string>)
    requires |h.closed| <= |h.stamps|
    ensures |names| == |h.closed|
  {
    seq(|h.closed|, i requires 0 <= i < |h.closed| => ClosedName(c, h.stamps[i]))
  }

  function Listed(c: Config, p: Producer, h: History): seq<string>
    requires |h.closed| <= |h.stamps|
  {
    ClosedNames(c, h) + if p.file.Some? then [p.file.value.name] else []
  }

  lemma OpenNameIsLast(c: Config, p: Producer, h: History, i: nat)
    requires Inv(c, p, h) && p.file.Some? && i < |h.closed|
    ensures Less(ClosedName(c, h.stamps[i]), p.file.value.name)
  {
    hide Less, ClosedName, FileOf, Marshal, Frames, ClosedFilesHold, NothingElse, GoodClock;
    NamesIncrease(c, h.stamps, i, |h.closed|);
    LessExtended(ClosedName(c, h.stamps[i]), ClosedName(c, h.stamps[|h.closed|]), ".open");
  }

  lemma ListedIsSorted(c: Config, p: Producer, h: History)
    requires Inv(c, p, h)
    ensures Sorted(Listed(c, p, h))
  {
    hide Less, ClosedName, FileOf, Marshal, Frames, GoodClock;
    var names := Listed(c, p, h);
    forall i: nat, j: nat | i < j < |names|
      ensures Less(names[i], names[j])
    {
      if j < |h.closed| {
        NamesIncrease(c, h.stamps, i, j);
      } else {
        OpenNameIsLast(c, p, h, i);
      }
    }
  }

  lemma ListedIsThere(c: Config, p: Producer, h: History, i: nat)
    requires Inv(c, p, h) && |h.closed| <= |h.stamps| && i < |Listed(c, p, h)|
    ensures Listed(c, p, h)[i] in p.dir
  {
    hide Less, ClosedName, FileOf, Marshal, Frames, GoodClock, NothingElse;
    if i < |h.closed| {
      assert Listed(c, p, h)[i] == ClosedName(c, h.stamps[i]);
    }
  }

  lemma ThereIsListed(c: Config, p: Producer, h: History, name: string)
    requires Inv(c, p, h) && |h.closed| <= |h.stamps| && name in p.dir
    ensures name in Listed(c, p, h)
  {
    hide Less, ClosedName, FileOf, Marshal, Frames, GoodClock, ClosedFilesHold, OpenFileHolds;
    var names := Listed(c, p, h);
    if p.file.Some? && name == p.file.value.name {
      assert names[|h.closed|] == name;
    } else {
      var i: nat :| i < |h.closed| && name == ClosedName(c, h.stamps[i]);
      assert names[i] == name;
    }
  }

  lemma ListedIsDirectory(c: Config, p: Producer, h: History, name: string)
    requires Inv(c, p, h)
    ensures |h.closed| <= |h.stamps| && (name in Listed(c, p, h) <==> name in p.dir)
  {
    ClosedFilesAreTimed(c, p, h);
    hide Inv, Listed;
    var names := Listed(c, p, h);
    if name in names {
      var i: nat :| i < |names| && names[i] == name;
      ListedIsThere(c, p, h, i);
    }
    if name in p.dir {
      ThereIsListed(c, p, h, name);
    }
  }

  /** A listing of the directory has the closed files in the order they were made, then the open one. */
  lemma DirectoryLists(c: Config, p: Producer, h: History, names: seq<string>)
    requires Inv(c, p, h) && Lists(names, p.dir)
    ensures names == Listed(c, p, h)
  {
    hide Listed, Less, ClosedName, FileOf, Marshal, Frames, GoodClock, ClosedFilesHold, NothingElse;
    ListedIsSorted(c, p, h);
    forall name
      ensures name in Listed(c, p, h) <==> name in p.dir
    {
      ListedIsDirectory(c, p, h, name);
    }
    SortedListingIsUnique(names, Listed(c, p, h));
  }

  // ---------------------------------------------------------------------------------------------
  // Names that look open
  // ---------------------------------------------------------------------------------------------

  lemma OpenSpelled(name: string)
    requires |name| >= 5
    ensures var n := |name|;
      IsOpen(name) <==> name[n - 5] == '.' && name[n - 4] == 'o' && name[n - 3] == 'p' && name[n - 2] == 'e'
                        && name[n - 1] == 'n'
  {
    var end := name[|name| - 5..];
    assert end == ".open" <==> end[0] == '.' && end[1] == 'o' && end[2] == 'p' && end[3] == 'e' && end[4] == 'n';
  }

  /** The end of a name decides, because the part before the key is followed by a dot. */
  lemma SuffixDecides(name: string, t: string, dot: nat)
    requires |name| == dot + |t| && t != [] && t[0] == '.'
    requires forall i :: 0 <= i < |t| ==> name[dot + i] == t[i]
    ensures IsOpen(name) <==> IsOpen(t)
  {
    hide IsOpen;
    if |t| >= 5 {
      OpenSpelled(t);
      OpenSpelled(name);
      assert forall i :: |t| - 5 <= i < |t| ==> name[dot + i] == t[i];
    } else {
      ShortIsClosed(t);
      assert name[dot] == '.';
      if |name| >= 5 {
        OpenSpelled(name);
      } else {
        ShortIsClosed(name);
      }
    }
  }

  lemma ShortIsClosed(name: string)
    requires |name| < 5
    ensures !IsOpen(name)
  {
  }

  /** A closed file looks open exactly when its key makes it so; such a file is never read. */
  lemma ClosedFileLooksOpenExactlyWhen(c: Config, stamp: Stamp)
    ensures IsOpen(ClosedName(c, stamp)) <==> IsOpen("." + c.key)
  {
    hide IsOpen, Decimal, Digit;
    var name, t, a := ClosedName(c, stamp), Tail(c.key, false), Padded(stamp.time, 10) + ("." + Padded(stamp.number, 3));
    assert t == "." + c.key;
    assert name == a + t;
    SuffixDecides(name, t, |a|);
  }

  // ---------------------------------------------------------------------------------------------
  // The consumer's progress
  // ---------------------------------------------------------------------------------------------

  /** The open file `b` still has `rest` to read: with it everything in the first files is delivered. */
  ghost predicate LeftToRead(text: bool, b: Bytes, rest: seq<Bytes>, delivered: seq<Bytes>, files: seq<Closed>) {
    b == Frames(text, rest) && delivered + rest == Joined(files)
  }

  /** The consumer has opened the first n closed files and delivered what it read of them. */
  ghost predicate Progress(c: Config, p: Producer, h: History, k: Consumer, n: nat, delivered: seq<Bytes>) {
    && n <= |h.closed| <= |h.stamps|
    && k.name == (if n == 0 then "" else ClosedName(c, h.stamps[n - 1]))
    && match k.reader
       case None => delivered == Joined(h.closed[..n])
       case Some(b) =>
         k.text == p.text && exists rest :: LeftToRead(p.text, b, rest, delivered, h.closed[..n])
  }

  ghost predicate SysInv(c: Config, a: System, h: History, n: nat) {
    && Inv(c, a.p, h) && Progress(c, a.p, h, a.k, n, a.delivered) && !a.failed
    && AllCarried(a.p.text, Messages(h))
  }

  lemma {:induction false} JoinedSplit(a: seq<Closed>, b: seq<Closed>)
    ensures Joined(a + b) == Joined(a) + Joined(b)
    decreases |a|
  {
    if a == [] {
      assert a + b == b;
    } else {
      assert (a + b)[1..] == a[1..] + b;
      JoinedSplit(a[1..], b);
    }
  }

  /** The message delivered next, and the ones after it, are among those the pipe can carry. */
  lemma RestIsCarried(c: Config, a: System, h: History, n: nat, rest: seq<Bytes>)
    requires SysInv(c, a, h, n) && a.delivered + rest == Joined(h.closed[..n])
    ensures AllCarried(a.p.text, rest)
  {
    hide Inv, Carried, ClosedName;
    JoinedSplit(h.closed[..n], h.closed[n..]);
    assert h.closed == h.closed[..n] + h.closed[n..];
    var all := Messages(h);
    forall i | 0 <= i < |rest|
      ensures Carried(a.p.text, rest[i])
    {
      assert rest[i] == (a.delivered + rest)[|a.delivered| + i] == all[|a.delivered| + i];
    }
  }

  lemma PrefixOfJoined(closed: seq<Closed>, n: nat)
    requires n <= |closed|
    ensures Joined(closed[..n]) <= Joined(closed)
  {
    JoinedSplit(closed[..n], closed[n..]);
    assert closed == closed[..n] + closed[n..];
  }

  lemma TakeOneMoreFile(closed: seq<Closed>, n: nat)
    requires n < |closed|
    ensures Joined(closed[..n + 1]) == Joined(closed[..n]) + closed[n].msgs
  {
    assert closed[..n + 1] == closed[..n] + [closed[n]];
    JoinedAppend(closed[..n], closed[n]);
  }

  lemma ReadsNextMessage(c: Config, verify: bool, names: seq<string>, a: System, h: History, n: nat,
                         rest: seq<Bytes>)
    requires SysInv(c, a, h, n) && a.k.reader.Some? && rest != []
    requires LeftToRead(a.p.text, a.k.reader.value, rest, a.delivered, h.closed[..n])
    ensures var t := a.k.(reader := Some(Frames(a.p.text, rest[1..])));
      && FetchStep(c, verify, names, a.p.dir, a.k) == (Delivered(rest[0]), t)
      && Progress(c, a.p, h, t, n, a.delivered + [rest[0]])
      && |a.delivered| < |Joined(h.closed)| && Joined(h.closed)[|a.delivered|] == rest[0]
  {
    hide Inv, ClosedName, Frame, Fetch, Messages, Carried;
    RestIsCarried(c, a, h, n, rest);
    FrameReadsBack(a.p.text, rest[0], Frames(a.p.text, rest[1..]));
    assert a.delivered + rest == (a.delivered + [rest[0]]) + rest[1..];
    assert LeftToRead(a.p.text, Frames(a.p.text, rest[1..]), rest[1..], a.delivered + [rest[0]], h.closed[..n]);
    PrefixOfJoined(h.closed, n);
    assert rest[0] == (a.delivered + rest)[|a.delivered|];
  }

  lemma EndsFile(c: Config, verify: bool, names: seq<string>, a: System, h: History, n: nat)
    requires SysInv(c, a, h, n) && a.k.reader.Some?
    requires LeftToRead(a.p.text, a.k.reader.value, [], a.delivered, h.closed[..n])
    ensures FetchStep(c, verify, names, a.p.dir, a.k) == (Moved, a.k.(reader := None))
    ensures SysInv(c, a.(k := a.k.(reader := None)), h, n)
  {
    hide Inv, ClosedName, Messages, Carried;
    assert a.delivered + [] == a.delivered;
  }

  lemma AtFile(c: Config, a: System, h: History, n: nat, names: seq<string>)
    requires SysInv(c, a, h, n) && Lists(names, a.p.dir)
    ensures names == Listed(c, a.p, h) && After(names, a.k.name) == n
  {
    hide Inv, Less, ClosedName, Messages, Carried, LeftToRead;
    DirectoryLists(c, a.p, h, names);
    if n > 0 {
      MovesOn(names, n - 1);
    } else {
      NamesAreNotEmpty(c, a.p, h, names);
      AfterIs(names, "", 0);
    }
  }

  lemma ClosedNameIsNotEmpty(c: Config, stamp: Stamp)
    ensures ClosedName(c, stamp) != []
  {
    hide Padded, Tail;
  }

  lemma EmptyIsFirst(name: string)
    requires name != []
    ensures Less("", name)
  {
  }

  lemma NamesAreNotEmpty(c: Config, p: Producer, h: History, names: seq<string>)
    requires Inv(c, p, h) && names == Listed(c, p, h)
    ensures names != [] ==> Less("", names[0])
  {
    hide Marshal, FileOf, Frames, GoodClock, NothingElse, ClosedFilesHold, Less, ClosedName;
    if names != [] {
      ClosedNameIsNotEmpty(c, h.stamps[0]);
      var closed := ClosedName(c, h.stamps[0]);
      assert names[0] == closed || names[0] == closed + ".open";
      EmptyIsFirst(names[0]);
    }
  }

  lemma WaitsAtTheEnd(c: Config, verify: bool, a: System, h: History, n: nat, names: seq<string>)
    requires SysInv(c, a, h, n) && Lists(names, a.p.dir) && a.k.reader.None? && n == |h.closed|
    ensures FetchStep(c, verify, names, a.p.dir, a.k) == (Waiting, a.k)
    ensures a.delivered == Joined(h.closed)
  {
    hide Marshal, FileOf, Frames, GoodClock, NothingElse, ClosedFilesHold, Less, ClosedName;
    AtFile(c, a, h, n, names);
    assert h.closed[..n] == h.closed;
    if a.p.file.Some? {
      assert names[n] == a.p.file.value.name;
      EndsOpen(ClosedName(c, h.stamps[|h.closed|]));
    }
  }

  lemma EndsOpen(name: string)
    ensures IsOpen(name + ".open")
  {
    assert (name + ".open")[|name|..] == ".open";
  }

  /** A closed file is read with the schema and the digest its header was given. */
  lemma ClosedFileReads(c: Config, verify: bool, format: Bytes, file: Closed)
    requires Ascii(format)
    ensures OpenForRead(c, verify, FileOf(c, format, file))
         == Some((TextFormat(format), Frames(TextFormat(format), file.msgs)))
    ensures ReadHeader(FileOf(c, format, file)) == Some((
      Header(format, file.schema, true, Hex(c.mac(Frames(TextFormat(format), file.msgs)))),
      Frames(TextFormat(format), file.msgs)))
  {
    hide Marshal, ReadHeader, Frames, TextFormat;
    var body := Frames(TextFormat(format), file.msgs);
    var header := Header(format, file.schema, true, Hex(c.mac(body)));
    HexIsPlain(c.mac(body));
    HeaderReadsBack(header, body);
  }

  /** With verification on, a closed file whose body was changed is refused exactly when its digest changed. */
  lemma ChangedBodyIsRefusedExactlyWhen(c: Config, format: Bytes, schema: Bytes, written: Bytes, found: Bytes)
    requires Ascii(format)
    ensures OpenForRead(c, true, Marshal(Header(format, schema, true, Hex(c.mac(written)))) + found).None?
       <==> c.mac(written) != c.mac(found)
  {
    hide Marshal, ReadHeader, TextFormat, Hex;
    var header := Header(format, schema, true, Hex(c.mac(written)));
    HexIsPlain(c.mac(written));
    HeaderReadsBack(header, found);
    if Hex(c.mac(written)) == Hex(c.mac(found)) {
      HexIsInjective(c.mac(written), c.mac(found));
    }
  }

  /** The next closed file can be read, and holds its messages. */
  lemma NextClosedFile(c: Config, verify: bool, p: Producer, h: History, n: nat)
    requires Inv(c, p, h) && n < |h.closed| <= |h.stamps|
    ensures Listed(c, p, h)[n] == ClosedName(c, h.stamps[n])
    ensures OpenForRead(c, verify, Content(p.dir, ClosedName(c, h.stamps[n])))
         == Some((p.text, Frames(p.text, h.closed[n].msgs)))
  {
    hide FileOf, Frames, GoodClock, ClosedName, OpenForRead, TextFormat, NothingElse, OpenFileHolds;
    assert Content(p.dir, ClosedName(c, h.stamps[n])) == FileOf(c, p.header.format, h.closed[n]);
    ClosedFileReads(c, verify, p.header.format, h.closed[n]);
  }

  lemma ClosedFilesAreTimed(c: Config, p: Producer, h: History)
    requires Inv(c, p, h)
    ensures |h.closed| <= |h.stamps|
  {
    hide NothingElse, OpenFileHolds, GoodClock, FileOf, ClosedName;
  }

  lemma OpensNextFile(c: Config, verify: bool, a: System, h: History, n: nat, names: seq<string>)
    returns (t: Consumer)
    requires SysInv(c, a, h, n) && Lists(names, a.p.dir) && a.k.reader.None? && n < |h.closed|
    requires !IsOpen("." + c.key)
    ensures FetchStep(c, verify, names, a.p.dir, a.k) == (Moved, t)
    ensures SysInv(c, a.(k := t), h, n + 1)
  {
    hide FileOf, Frames, GoodClock, Less, ClosedName, OpenForRead, TextFormat, Messages, Carried, IsOpen, Inv;
    AtFile(c, a, h, n, names);
    var name, file := ClosedName(c, h.stamps[n]), h.closed[n];
    ClosedFilesAreTimed(c, a.p, h);
    ClosedFileLooksOpenExactlyWhen(c, h.stamps[n]);
    NextClosedFile(c, verify, a.p, h, n);
    TakeOneMoreFile(h.closed, n);
    t := Consumer(name, Some(Frames(a.p.text, file.msgs)), a.p.text);
    assert LeftToRead(a.p.text, Frames(a.p.text, file.msgs), file.msgs, a.delivered, h.closed[..n + 1]);
  }

  /** The next message that is in a closed file, if there is one. */
  function Upcoming(h: History, delivered: seq<Bytes>): Outcome {
    if |delivered| < |Joined(h.closed)| then Delivered(Joined(h.closed)[|delivered|]) else Waiting
  }

  function Extra(outcome: Outcome): seq<Bytes> {
    if outcome.Delivered? then [outcome.msg] else []
  }

  /** FetchNext delivers the next message of the closed files, and waits only when there is none. */
  lemma FetchGivesNext(c: Config, verify: bool, names: seq<string>, a: System, h: History, n: nat) returns (m: nat)
    requires SysInv(c, a, h, n) && Lists(names, a.p.dir) && !IsOpen("." + c.key)
    ensures var (outcome, t) := FetchNext(c, verify, names, a.p.dir, a.k);
      && outcome == Upcoming(h, a.delivered)
      && Progress(c, a.p, h, t, m, a.delivered + Extra(outcome))
    decreases Left(names, a.k), if a.k.reader.Some? then 1 else 0
  {
    hide Inv, ClosedName, FetchStep, Messages, Carried, Less, IsOpen, After, Joined;
    m := n;
    if a.k.reader.Some? {
      var rest :| LeftToRead(a.p.text, a.k.reader.value, rest, a.delivered, h.closed[..n]);
      if rest == [] {
        EndsFile(c, verify, names, a, h, n);
        m := FetchGivesNext(c, verify, names, a.(k := a.k.(reader := None)), h, n);
      } else {
        ReadsNextMessage(c, verify, names, a, h, n, rest);
      }
    } else if n == |h.closed| {
      WaitsAtTheEnd(c, verify, a, h, n, names);
      assert a.delivered + [] == a.delivered;
    } else {
      var t := OpensNextFile(c, verify, a, h, n, names);
      StepMovesOn(c, verify, names, a.p.dir, a.k);
      m := FetchGivesNext(c, verify, names, a.(k := t), h, n + 1);
    }
  }

  // ---------------------------------------------------------------------------------------------
  // Runs
  // ---------------------------------------------------------------------------------------------

  lemma ProduceKeepsInv(c: Config, a: System, h: History, n: nat, op: Op, time: nat) returns (g: History)
    requires SysInv(c, a, h, n) && AllCarried(a.p.text, PushedBy(op))
    requires GoodClock(h.stamps + CreatedBy(c, a.p, op, time))
    ensures SysInv(c, a.(p := Apply(c, a.p, op, time)), g, n)
    ensures Follows(h, g, PushedBy(op), CreatedBy(c, a.p, op, time))
    ensures Apply(c, a.p, op, time).text == a.p.text
  {
    hide Inv, ClosedName, Apply, PushedBy, Carried, LeftToRead, Joined, GoodClock, CreatedBy;
    g := ApplyFollows(c, a.p, h, op, time);
    ClosedFilesAreTimed(c, a.p, h);
    ClosedFilesAreTimed(c, Apply(c, a.p, op, time), g);
    assert h.closed[..n] == g.closed[..n];
    assert n > 0 ==> h.stamps[n - 1] == g.stamps[n - 1];
  }

  lemma ConsumeKeepsInv(c: Config, verify: bool, a: System, h: History, n: nat, names: seq<string>) returns (m: nat)
    requires SysInv(c, a, h, n) && Lists(names, a.p.dir) && !IsOpen("." + c.key)
    ensures SysInv(c, Next(c, verify, a, Consume(names)), h, m)
  {
    hide Inv, Progress, FetchNext, Carried, Messages;
    m := FetchGivesNext(c, verify, names, a, h, n);
  }

  lemma CarriedParts(text: bool, a: seq<Bytes>, b: seq<Bytes>)
    requires AllCarried(text, a + b)
    ensures AllCarried(text, a) && AllCarried(text, b)
  {
    hide Carried;
    forall i | 0 <= i < |a|
      ensures Carried(text, a[i])
    {
      assert a[i] == (a + b)[i];
    }
    forall i | 0 <= i < |b|
      ensures Carried(text, b[i])
    {
      assert b[i] == (a + b)[|a| + i];
    }
  }

  /** Over any run what is delivered is what the closed files hold, up to where the consumer is. */
  lemma {:induction false} RunKeepsInv(c: Config, verify: bool, a: System, h: History, n: nat, steps: seq<Step>)
    returns (g: History, m: nat)
    requires SysInv(c, a, h, n) && Possible(c, verify, a, steps) && !IsOpen("." + c.key)
    requires AllCarried(a.p.text, Pushed(Produced(steps)))
    requires GoodClock(h.stamps + Created(c, a.p, Produced(steps)))
    ensures SysInv(c, Run(c, verify, a, steps), g, m)
    ensures Messages(g) == Messages(h) + Pushed(Produced(steps))
    ensures g.stamps == h.stamps + Created(c, a.p, Produced(steps))
    decreases |steps|
  {
    hide SysInv, Messages, Apply, FetchNext, PushedBy, AllCarried, GoodClock;
    if steps == [] {
      g, m := h, n;
      assert Messages(h) + [] == Messages(h) && h.stamps + [] == h.stamps;
    } else if steps[0].Consume? {
      assert Produced(steps) == Produced(steps[1..]);
      var k := ConsumeKeepsInv(c, verify, a, h, n, steps[0].names);
      g, m := RunKeepsInv(c, verify, Next(c, verify, a, steps[0]), h, k, steps[1..]);
    } else {
      var op, time, rest := steps[0].op, steps[0].time, Produced(steps[1..]);
      FirstProduced(c, a.p, steps);
      CarriedParts(a.p.text, PushedBy(op), Pushed(rest));
      var now, later := CreatedBy(c, a.p, op, time), Created(c, Apply(c, a.p, op, time), rest);
      assert h.stamps + (now + later) == (h.stamps + now) + later;
      GoodPrefix(h.stamps + now, later);
      var h1 := ProduceKeepsInv(c, a, h, n, op, time);
      g, m := RunKeepsInv(c, verify, Next(c, verify, a, steps[0]), h1, n, steps[1..]);
      assert (Messages(h) + PushedBy(op)) + Pushed(rest) == Messages(h) + (PushedBy(op) + Pushed(rest));
    }
  }

  lemma FirstProduced(c: Config, p: Producer, steps: seq<Step>)
    requires steps != [] && steps[0].Produce?
    ensures var op, time, rest := steps[0].op, steps[0].time, Produced(steps[1..]);
      && Pushed(Produced(steps)) == PushedBy(op) + Pushed(rest)
      && Created(c, p, Produced(steps)) == CreatedBy(c, p, op, time) + Created(c, Apply(c, p, op, time), rest)
  {
    hide Apply, PushedBy;
    assert Produced(steps)[1..] == Produced(steps[1..]);
  }

  /** What a run needs: a clock that serves for file names, a key that does not look open, and carried messages. */
  ghost predicate Usable(c: Config, verify: bool, format: Bytes, steps: seq<Step>) {
    && Ascii(format) && !IsOpen("." + c.key)
    && Possible(c, verify, Begin(format), steps)
    && AllCarried(TextFormat(format), Pushed(Produced(steps)))
    && GoodClock(Created(c, Start(format), Produced(steps)))
  }

  lemma Reach(c: Config, verify: bool, format: Bytes, steps: seq<Step>) returns (h: History, n: nat)
    requires Usable(c, verify, format, steps)
    ensures SysInv(c, Run(c, verify, Begin(format), steps), h, n)
    ensures Messages(h) == Pushed(Produced(steps))
  {
    hide Possible, Run, Created, Pushed, GoodClock, Inv;
    var none := History([], [], []);
    StartInv(c, format);
    assert none.stamps + Created(c, Start(format), Produced(steps)) == Created(c, Start(format), Produced(steps));
    assert Messages(none) == [];
    h, n := RunKeepsInv(c, verify, Begin(format), none, 0, steps);
    assert [] + Pushed(Produced(steps)) == Pushed(Produced(steps));
  }

  /** At any moment the consumer has the first messages pushed, in order, and met no error. */
  lemma DeliveredIsPrefixOfPushed(c: Config, verify: bool, format: Bytes, steps: seq<Step>)
    requires Usable(c, verify, format, steps)
    ensures var b := Run(c, verify, Begin(format), steps);
      b.delivered <= Pushed(Produced(steps)) && !b.failed
  {
    hide Possible, Run, Inv, Usable, AllCarried;
    var h, n := Reach(c, verify, format, steps);
    PrefixOfJoined(h.closed, n);
  }

  /** Once the producer has no open file, FetchNext waits only when every message pushed is delivered. */
  lemma NothingIsLeftBehind(c: Config, verify: bool, format: Bytes, steps: seq<Step>, names: seq<string>)
    requires Usable(c, verify, format, steps)
    requires var b := Run(c, verify, Begin(format), steps); b.p.file.None? && Lists(names, b.p.dir)
    ensures var b, pushed := Run(c, verify, Begin(format), steps), Pushed(Produced(steps));
      FetchNext(c, verify, names, b.p.dir, b.k).0
        == if |b.delivered| < |pushed| then Delivered(pushed[|b.delivered|]) else Waiting
  {
    hide Possible, Run, Inv, FetchNext, AllCarried, Lists, Progress, Created, GoodClock;
    var h, n := Reach(c, verify, format, steps);
    var b := Run(c, verify, Begin(format), steps);
    var m := FetchGivesNext(c, verify, names, b, h, n);
    NotOpen(c, b.p, h);
    assert Joined(h.closed) + [] == Joined(h.closed);
  }

  // ---------------------------------------------------------------------------------------------
  // Headers
  // ---------------------------------------------------------------------------------------------

  /**
   After any run of the producer each closed file's header gives the digest of its body and the schema under
   which every message in the file was pushed.
   */
  lemma HeadersTellSchemaAndDigest(c: Config, format: Bytes, ops: seq<Timed>) returns (h: History)
    requires Ascii(format) && GoodClock(Created(c, Start(format), ops))
    ensures var p := FileProducing.Run(c, Start(format), ops);
      Everything(p, h) == StampedRun([], ops) && (p.file.None? ==> h.open == [])
    ensures |h.closed| <= |h.stamps|
    ensures var p := FileProducing.Run(c, Start(format), ops);
      forall i: nat :: i < |h.closed| ==>
        var body := Frames(TextFormat(format), h.closed[i].msgs);
        && ClosedName(c, h.stamps[i]) in p.dir
        && ReadHeader(p.dir[ClosedName(c, h.stamps[i])])
           == Some((Header(format, h.closed[i].schema, true, Hex(c.mac(body))), body))
  {
    hide FileProducing.Run, Created, GoodClock, Frames, ReadHeader, ClosedName, Hex, TextFormat, FileOf, Everything;
    var none, p := History([], [], []), FileProducing.Run(c, Start(format), ops);
    StartInv(c, format);
    assert none.stamps + Created(c, Start(format), ops) == Created(c, Start(format), ops);
    h := RunFollows(c, Start(format), none, ops);
    StartsEmpty(format);
    assert [] + StampedRun([], ops) == StampedRun([], ops);
    NotOpen(c, p, h);
    ClosedFilesAreTimed(c, p, h);
    forall i: nat | i < |h.closed|
      ensures var body := Frames(TextFormat(format), h.closed[i].msgs);
        && ClosedName(c, h.stamps[i]) in p.dir
        && ReadHeader(p.dir[ClosedName(c, h.stamps[i])])
           == Some((Header(format, h.closed[i].schema, true, Hex(c.mac(body))), body))
    {
      ClosedFileReads(c, true, format, h.closed[i]);
    }
  }

  lemma StartsEmpty(format: Bytes)
    ensures Everything(Start(format), History([], [], [])) == []
  {
  }
}
