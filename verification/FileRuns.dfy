/**
 What the files of a topic hold over any run of the file producer: every message once, in the order pushed,
 each file with the schema in force and the digest of its body in its header.
 */
module FileRuns {
  import opened Encodings
  import opened FileHeader
  import opened FileNames
  import opened FileProducing
  import opened Framing
  import opened Json
  import opened Options

  // ---------------------------------------------------------------------------------------------
  // Names
  // ---------------------------------------------------------------------------------------------

  lemma OpenTail(key: string)
    ensures Tail(key, true) == Tail(key, false) + ".open"
  {
    assert "." + key + "" == "." + key;
  }

  lemma Regroup(a: string, b: string, r: string, x: string)
    ensures a + ("." + (b + (r + x))) == a + ("." + (b + r)) + x
  {
    assert b + (r + x) == (b + r) + x;
    assert "." + ((b + r) + x) == ("." + (b + r)) + x;
  }

  lemma OpenName(c: Config, stamp: Stamp)
    ensures FileName(stamp.time, stamp.number, Tail(c.key, true)) == ClosedName(c, stamp) + ".open"
  {
    OpenTail(c.key);
    Regroup(Padded(stamp.time, 10), Padded(stamp.number, 3), Tail(c.key, false), ".open");
  }

  lemma TrimsOpen(name: string)
    ensures TrimOpen(name + ".open") == name
  {
    assert (name + ".open")[|name|..] == ".open" && (name + ".open")[..|name|] == name;
  }

  lemma LaterName(c: Config, a: Stamp, b: Stamp)
    requires Later(a, b)
    ensures Less(ClosedName(c, a), ClosedName(c, b))
  {
    hide FileName, Less, Width;
    if a.time < b.time {
      LaterSecond(a.time, a.number, Tail(c.key, false), b.time, b.number, Tail(c.key, false));
    } else {
      NextFileSortsAfterExactlyWhen(a.time, a.number, Tail(c.key, false), b.time, Tail(c.key, false));
    }
  }

  lemma {:induction false} NamesIncrease(c: Config, stamps: seq<Stamp>, i: nat, j: nat)
    requires GoodClock(stamps) && i < j < |stamps|
    ensures Less(ClosedName(c, stamps[i]), ClosedName(c, stamps[j]))
    decreases j
  {
    hide ClosedName, Less, Later;
    LaterName(c, stamps[j - 1], stamps[j]);
    if i < j - 1 {
      NamesIncrease(c, stamps, i, j - 1);
      LessTransitive(ClosedName(c, stamps[i]), ClosedName(c, stamps[j - 1]), ClosedName(c, stamps[j]));
    }
  }

  lemma GoodPrefix(stamps: seq<Stamp>, more: seq<Stamp>)
    requires GoodClock(stamps + more)
    ensures GoodClock(stamps)
  {
    hide Later;
    forall i: nat | i + 1 < |stamps|
      ensures Later(stamps[i], stamps[i + 1])
    {
      assert Later((stamps + more)[i], (stamps + more)[i + 1]);
    }
  }

  // ---------------------------------------------------------------------------------------------
  // Opening a file
  // ---------------------------------------------------------------------------------------------

  /** The name of a new file is not in the directory. */
  lemma NewNameIsFresh(c: Config, s: Producer, h: History, time: nat)
    requires Inv(c, s, h) && s.file.None? && GoodClock(h.stamps + [NextStamp(s, time)])
    ensures ClosedName(c, NextStamp(s, time)) + ".open" !in s.dir
  {
    hide FileName, Less, Tail, OpenFileHolds, ClosedFilesHold;
    var stamps := h.stamps + [NextStamp(s, time)];
    var closed := ClosedName(c, NextStamp(s, time));
    forall name | name in s.dir
      ensures name != closed + ".open"
    {
      var i: nat :| i < |h.closed| && name == ClosedName(c, h.stamps[i]);
      NamesIncrease(c, stamps, i, |h.stamps|);
      LessExtended(name, closed, ".open");
      LessIrreflexive(name);
    }
  }

  lemma FreshFile(c: Config, s: Producer, time: nat)
    requires FileName(time, s.seqno + 1, Tail(c.key, true)) !in s.dir
    ensures var name := FileName(time, s.seqno + 1, Tail(c.key, true));
      var header := s.header.(delimited := true, hmac := Hex(Zeros(32)));
      NewFile(c, s, time) == Producer(header, s.text, s.seqno + 1,
        Some(OpenFile(name, 0, |Marshal(header)|, [], [])), s.dir[name := Marshal(header)])
  {
    hide Marshal, FileName, Tail;
  }

  lemma NewFileKeepsClosedFiles(c: Config, s: Producer, h: History, time: nat, name: string, content: Bytes)
    requires ClosedFilesHold(c, s, h) && NothingElse(c, s, h) && s.file.None? && name !in s.dir
    ensures ClosedFilesHold(c, s.(dir := s.dir[name := content]), h.(stamps := h.stamps + [NextStamp(s, time)]))
    ensures forall other :: other in s.dir ==>
      exists i: nat :: i < |h.closed| && other == ClosedName(c, (h.stamps + [NextStamp(s, time)])[i])
  {
    hide FileOf, ClosedName;
    forall other | other in s.dir
      ensures exists i: nat :: i < |h.closed| && other == ClosedName(c, (h.stamps + [NextStamp(s, time)])[i])
    {
      var i: nat :| i < |h.closed| && other == ClosedName(c, h.stamps[i]);
      assert other == ClosedName(c, (h.stamps + [NextStamp(s, time)])[i]);
    }
  }

  lemma NewFileKeepsInv(c: Config, s: Producer, h: History, time: nat)
    requires Inv(c, s, h) && s.file.None? && GoodClock(h.stamps + [NextStamp(s, time)])
    ensures Inv(c, NewFile(c, s, time), h.(stamps := h.stamps + [NextStamp(s, time)]))
  {
    hide Marshal, FileName, FileOf, Tail, NewFile, Less, ClosedName, GoodClock;
    NewNameIsFresh(c, s, h, time);
    OpenName(c, NextStamp(s, time));
    FreshFile(c, s, time);
    var t := NewFile(c, s, time);
    NewFileKeepsClosedFiles(c, s, h, time, t.file.value.name, Marshal(t.header));
    assert Frames(t.text, h.open) == [];
    assert Marshal(t.header) + [] == Marshal(t.header);
  }

  // ---------------------------------------------------------------------------------------------
  // Writing to it
  // ---------------------------------------------------------------------------------------------

  lemma OneFrame(text: bool, msgs: seq<Bytes>, msg: Bytes)
    ensures Frames(text, msgs + [msg]) == Frames(text, msgs) + Frame(text, msg)
  {
    hide Frame;
    FramesAppend(text, msgs, [msg]);
    assert [msg][1..] == [] && Frame(text, msg) + [] == Frame(text, msg);
  }

  lemma WriteKeepsInv(c: Config, s: Producer, h: History, msg: Bytes)
    requires Inv(c, s, h) && s.file.Some?
    ensures Inv(c, Write(s, Frame(s.text, msg)), h.(open := h.open + [msg]))
  {
    hide Marshal, FileName, FileOf, Less, Frame, Frames, ClosedName, GoodClock, TextFormat;
    var f := s.file.value;
    OneFrame(s.text, h.open, msg);
    assert f.hashed + (f.pending + Frame(s.text, msg)) == (f.hashed + f.pending) + Frame(s.text, msg);
  }

  lemma WriteAtEnd(content: Bytes, data: Bytes)
    ensures WriteAt(content, |content|, data) == content + data
  {
    assert content[..|content|] == content;
    if data == [] {
      assert content[|content|..] == [];
    }
  }

  lemma OpenNameIsNotClosed(c: Config, s: Producer, h: History, i: nat)
    requires Inv(c, s, h) && s.file.Some? && i < |h.closed|
    ensures ClosedName(c, h.stamps[i]) != s.file.value.name
  {
    hide Marshal, FileOf, Less, ClosedName;
    var a, b := ClosedName(c, h.stamps[i]), ClosedName(c, h.stamps[|h.closed|]);
    NamesIncrease(c, h.stamps, i, |h.closed|);
    LessExtended(a, b, ".open");
    LessIrreflexive(a);
  }

  lemma Flushed(s: Producer)
    requires s.file.Some? && s.file.value.position == |Content(s.dir, s.file.value.name)|
    ensures var f := s.file.value;
      var content := Content(s.dir, f.name) + f.pending;
      Flush(s) == s.(file := Some(f.(position := |content|, hashed := f.hashed + f.pending, pending := [])),
                     dir := s.dir[f.name := content])
  {
    WriteAtEnd(Content(s.dir, s.file.value.name), s.file.value.pending);
  }

  lemma FlushKeepsInv(c: Config, s: Producer, h: History)
    requires Inv(c, s, h)
    ensures Inv(c, Flush(s), h)
  {
    hide Marshal, FileOf, Less, ClosedName, Frames, WriteAt;
    if s.file.Some? {
      var f := s.file.value;
      Flushed(s);
      forall i: nat | i < |h.closed|
        ensures ClosedName(c, h.stamps[i]) != f.name
      {
        OpenNameIsNotClosed(c, s, h, i);
      }
      assert Marshal(s.header) + f.hashed + f.pending == Marshal(s.header) + (f.hashed + f.pending);
      assert f.hashed + f.pending + [] == f.hashed + f.pending;
    }
  }

  /** What is flushed is in the directory. */
  lemma FlushedIsOnDisk(c: Config, s: Producer, h: History)
    requires Inv(c, s, h) && (s.file.Some? ==> s.file.value.pending == [])
    ensures OnDisk(s, h)
  {
    hide Marshal, FileOf, Less, ClosedName, Frames;
    if s.file.Some? {
      assert s.file.value.hashed + [] == s.file.value.hashed;
    }
  }

  lemma OffsetKeepsInv(c: Config, s: Producer, h: History, offset: int)
    requires Inv(c, s, h) && s.file.Some?
    ensures Inv(c, s.(file := Some(s.file.value.(offset := offset))), h)
  {
    hide Marshal, FileOf, Less, ClosedName, Frames;
  }

  // ---------------------------------------------------------------------------------------------
  // Closing it
  // ---------------------------------------------------------------------------------------------

  /** Closing a flushed file leaves its body alone and puts the digest into the header. */
  lemma ClosedContent(c: Config, header: Header, text: bool, msgs: seq<Bytes>)
    requires header.delimited && header.hmac == Hex(Zeros(32)) && text == TextFormat(header.format)
    ensures var body := Frames(text, msgs);
      WriteAt(Marshal(header) + body, 0, Marshal(header.(hmac := Hex(c.mac(body)))))
        == FileOf(c, header.format, Closed(header.schema, msgs))
  {
    var body := Frames(text, msgs);
    DigestDoesNotChangeLength(header, Zeros(32), c.mac(body));
    assert header.(hmac := Hex(Zeros(32))) == header;
    RewriteKeepsBodyExactlyWhen(header, header.(hmac := Hex(c.mac(body))), body);
    assert header.(hmac := Hex(c.mac(body))) == Header(header.format, header.schema, true, Hex(c.mac(body)));
  }

  lemma ClosedFile(c: Config, s: Producer, h: History)
    requires Inv(c, s, h) && s.file.Some?
    ensures var name := ClosedName(c, h.stamps[|h.closed|]);
      var body := Frames(s.text, h.open);
      CloseFile(c, s) == s.(header := s.header.(hmac := Hex(c.mac(body))), file := None,
        dir := (s.dir - {s.file.value.name})[name := FileOf(c, s.header.format, Closed(s.header.schema, h.open))])
  {
    hide Marshal, FileOf, Less, ClosedName, Frames, Flush, TrimOpen;
    var f := s.file.value;
    FlushKeepsInv(c, s, h);
    Flushed(s);
    var t := Flush(s);
    assert t.file.value.hashed + [] == t.file.value.hashed;
    assert t.file.value.hashed == Frames(s.text, h.open);
    ClosedContent(c, s.header, s.text, h.open);
    TrimsOpen(ClosedName(c, h.stamps[|h.closed|]));
    assert t.dir - {f.name} == s.dir - {f.name};
  }

  lemma CloseKeepsInv(c: Config, s: Producer, h: History)
    requires Inv(c, s, h) && s.file.Some?
    ensures Inv(c, CloseFile(c, s), h.(closed := h.closed + [Closed(s.header.schema, h.open)], open := []))
  {
    hide Marshal, FileOf, Less, ClosedName, Frames, CloseFile;
    var t, g := CloseFile(c, s), h.(closed := h.closed + [Closed(s.header.schema, h.open)], open := []);
    ClosedFile(c, s, h);
    ClosedFilesStay(c, s, h);
    NothingElseAfterClose(c, s, h);
  }

  lemma ClosedFilesStay(c: Config, s: Producer, h: History)
    requires Inv(c, s, h) && s.file.Some?
    ensures ClosedFilesHold(c, CloseFile(c, s),
      h.(closed := h.closed + [Closed(s.header.schema, h.open)], open := []))
  {
    hide Marshal, FileOf, Less, ClosedName, Frames, CloseFile;
    ClosedFile(c, s, h);
    var t, g := CloseFile(c, s), h.(closed := h.closed + [Closed(s.header.schema, h.open)], open := []);
    var last := |h.closed|;
    forall i: nat | i < |g.closed|
      ensures ClosedName(c, g.stamps[i]) in t.dir
      ensures t.dir[ClosedName(c, g.stamps[i])] == FileOf(c, t.header.format, g.closed[i])
    {
      if i < last {
        OpenNameIsNotClosed(c, s, h, i);
        NamesIncrease(c, h.stamps, i, last);
        LessIrreflexive(ClosedName(c, h.stamps[i]));
        assert g.closed[i] == h.closed[i];
      }
    }
  }

  lemma NothingElseAfterClose(c: Config, s: Producer, h: History)
    requires Inv(c, s, h) && s.file.Some?
    ensures NothingElse(c, CloseFile(c, s),
      h.(closed := h.closed + [Closed(s.header.schema, h.open)], open := []))
  {
    hide Marshal, FileOf, Less, ClosedName, Frames, CloseFile;
    ClosedFile(c, s, h);
    var t, g := CloseFile(c, s), h.(closed := h.closed + [Closed(s.header.schema, h.open)], open := []);
    forall name | name in t.dir
      ensures exists i: nat :: i < |g.closed| && name == ClosedName(c, g.stamps[i])
    {
      var last := ClosedName(c, h.stamps[|h.closed|]);
      if name == last {
        assert name == ClosedName(c, g.stamps[|h.closed|]);
      } else {
        assert name in s.dir && name != s.file.value.name;
        var i: nat :| i < |h.closed| && name == ClosedName(c, h.stamps[i]);
        assert i < |g.closed| && name == ClosedName(c, g.stamps[i]);
      }
    }
  }

  // ---------------------------------------------------------------------------------------------
  // Operations and runs
  // ---------------------------------------------------------------------------------------------

  lemma {:induction false} JoinedAppend(a: seq<Closed>, file: Closed)
    ensures Joined(a + [file]) == Joined(a) + file.msgs
  {
    if a == [] {
      assert a + [file] == [file] && [file][1..] == [];
    } else {
      assert (a + [file])[1..] == a[1..] + [file];
      JoinedAppend(a[1..], file);
    }
  }

  /** From h to g the messages `msgs` were added and files were created at `more`. */
  ghost predicate Follows(h: History, g: History, msgs: seq<Bytes>, more: seq<Stamp>) {
    h.closed <= g.closed && Messages(g) == Messages(h) + msgs && g.stamps == h.stamps + more
  }

  /** A message with the schema that was in force when it was pushed. */
  datatype Stamped = Stamped(schema: Bytes, msg: Bytes)

  function Stamp(schema: Bytes, msgs: seq<Bytes>): seq<Stamped> {
    if msgs == [] then [] else [Stamped(schema, msgs[0])] + Stamp(schema, msgs[1..])
  }

  /** The messages of closed files, each with the schema in the header of its file. */
  function StampAll(closed: seq<Closed>): seq<Stamped> {
    if closed == [] then [] else Stamp(closed[0].schema, closed[0].msgs) + StampAll(closed[1..])
  }

  function Everything(s: Producer, h: History): seq<Stamped> {
    StampAll(h.closed) + Stamp(s.header.schema, h.open)
  }

  lemma {:induction false} StampAllAppend(a: seq<Closed>, file: Closed)
    ensures StampAll(a + [file]) == StampAll(a) + Stamp(file.schema, file.msgs)
  {
    if a == [] {
      assert a + [file] == [file] && [file][1..] == [];
      assert StampAll([file]) == Stamp(file.schema, file.msgs) + StampAll([]);
    } else {
      assert (a + [file])[1..] == a[1..] + [file];
      StampAllAppend(a[1..], file);
    }
  }

  lemma {:induction false} StampAppend(schema: Bytes, msgs: seq<Bytes>, msg: Bytes)
    ensures Stamp(schema, msgs + [msg]) == Stamp(schema, msgs) + [Stamped(schema, msg)]
  {
    if msgs == [] {
      assert msgs + [msg] == [msg] && [msg][1..] == [];
    } else {
      assert (msgs + [msg])[1..] == msgs[1..] + [msg];
      StampAppend(schema, msgs[1..], msg);
    }
  }

  /** From s to t the messages `more` were added, in a file with the right schema. */
  ghost predicate Adds(s: Producer, h: History, t: Producer, g: History, more: seq<Stamped>) {
    Everything(t, g) == Everything(s, h) + more
  }

  lemma AddsNothing(s: Producer, h: History)
    ensures Adds(s, h, s, h, [])
  {
  }

  lemma AddsMessage(s: Producer, h: History, t: Producer, msg: Bytes)
    requires t.header.schema == s.header.schema
    ensures Adds(s, h, t, h.(open := h.open + [msg]), [Stamped(s.header.schema, msg)])
  {
    StampAppend(s.header.schema, h.open, msg);
  }

  lemma AddsThenAdds(s: Producer, h: History, t: Producer, g: History, u: Producer, f: History,
                     first: seq<Stamped>, second: seq<Stamped>)
    requires Adds(s, h, t, g, first) && Adds(t, g, u, f, second)
    ensures Adds(s, h, u, f, first + second)
  {
    hide Everything;
    assert Everything(s, h) + (first + second) == (Everything(s, h) + first) + second;
  }

  lemma NotOpen(c: Config, s: Producer, h: History)
    requires Inv(c, s, h)
    ensures s.file.None? ==> h.open == []
  {
    hide FileOf, ClosedName, Marshal, GoodClock, ClosedFilesHold, NothingElse, OpenFileHolds;
  }

  lemma CloseShape(c: Config, s: Producer)
    ensures var t := CloseFile(c, s);
      && t.file.None? && t.seqno == s.seqno && t.text == s.text
      && t.header.format == s.header.format && t.header.schema == s.header.schema
  {
    hide Marshal, WriteAt, TrimOpen;
  }

  lemma CloseFollows(c: Config, s: Producer, h: History) returns (g: History)
    requires Inv(c, s, h)
    ensures Inv(c, CloseFile(c, s), g) && Follows(h, g, [], [])
    ensures CloseFile(c, s).file.None? && g.open == []
    ensures CloseFile(c, s).seqno == s.seqno && CloseFile(c, s).text == s.text
    ensures CloseFile(c, s).header.format == s.header.format && CloseFile(c, s).header.schema == s.header.schema
    ensures Adds(s, h, CloseFile(c, s), g, [])
    ensures g == if s.file.None? then h else h.(closed := h.closed + [Closed(s.header.schema, h.open)], open := [])
  {
    hide FileOf, ClosedName, Marshal, Inv, WriteAt, Frames;
    NotOpen(c, s, h);
    g := h;
    if s.file.Some? {
      CloseKeepsInv(c, s, h);
      CloseShape(c, s);
      JoinedAppend(h.closed, Closed(s.header.schema, h.open));
      StampAllAppend(h.closed, Closed(s.header.schema, h.open));
      g := h.(closed := h.closed + [Closed(s.header.schema, h.open)], open := []);
    }
    assert Messages(h) + [] == Messages(h) && h.stamps + [] == h.stamps;
  }

  lemma GetFileKeepsOpenFile(c: Config, s: Producer, time: nat)
    ensures s.file.Some? ==> GetFile(c, s, time) == s
  {
    hide NewFile;
  }

  lemma NewFileShape(c: Config, s: Producer, time: nat)
    ensures var t := NewFile(c, s, time);
      && t.text == s.text && t.seqno == s.seqno + 1 && t.file.Some?
      && t.header.format == s.header.format && t.header.schema == s.header.schema
  {
    hide Marshal, FileName, Tail;
  }

  lemma NewFileIsEmpty(c: Config, s: Producer, h: History, time: nat)
    requires Inv(c, s, h) && s.file.None? && GoodClock(h.stamps + [NextStamp(s, time)])
    ensures NewFile(c, s, time).file.Some? && NewFile(c, s, time).file.value.offset == 0
  {
    hide Inv, GoodClock, NewFile, FileName, Tail, Marshal;
    NewNameIsFresh(c, s, h, time);
    OpenName(c, NextStamp(s, time));
    FreshFile(c, s, time);
  }

  lemma GetFileFollows(c: Config, s: Producer, h: History, time: nat) returns (g: History)
    requires Inv(c, s, h) && (s.file.None? ==> GoodClock(h.stamps + [NextStamp(s, time)]))
    ensures Inv(c, GetFile(c, s, time), g)
    ensures Follows(h, g, [], if s.file.None? then [NextStamp(s, time)] else [])
    ensures GetFile(c, s, time).text == s.text && GetFile(c, s, time).header.format == s.header.format
    ensures GetFile(c, s, time).seqno == s.seqno + if s.file.None? then 1 else 0
    ensures GetFile(c, s, time).header.schema == s.header.schema && Adds(s, h, GetFile(c, s, time), g, [])
    ensures g.open == h.open && g.closed == h.closed
    ensures s.file.None? ==> GetFile(c, s, time).file.value.offset == 0
  {
    hide Inv, GoodClock, NewFile, Joined;
    g := h;
    NewFileShape(c, s, time);
    if s.file.None? {
      NewFileIsEmpty(c, s, h, time);
      NewFileKeepsInv(c, s, h, time);
      g := h.(stamps := h.stamps + [NextStamp(s, time)]);
    }
    assert Messages(h) + [] == Messages(h) && h.stamps + [] == h.stamps;
  }

  lemma RotateFollows(c: Config, s: Producer, h: History, batch: bool) returns (g: History)
    requires Inv(c, s, h) && s.file.Some?
    ensures Inv(c, Rotate(c, s, batch), g) && Follows(h, g, [], [])
    ensures Rotate(c, s, batch).text == s.text && Rotate(c, s, batch).seqno == s.seqno
    ensures Rotate(c, s, batch).header.format == s.header.format
    ensures Rotate(c, s, batch).header.schema == s.header.schema && Adds(s, h, Rotate(c, s, batch), g, [])
    ensures var full := s.file.value.offset >= c.max;
      && (full ==> Rotate(c, s, batch).file.None?) && (!full ==> Rotate(c, s, batch) == s)
      && g == if full then h.(closed := h.closed + [Closed(s.header.schema, h.open)], open := []) else h
  {
    hide Inv, CloseFile, WriteAt, Joined;
    g := h;
    if s.file.value.offset >= c.max {
      if batch {
        FlushKeepsInv(c, s, h);
        g := CloseFollows(c, Flush(s), h);
      } else {
        g := CloseFollows(c, s, h);
      }
    }
    assert Messages(h) + [] == Messages(h) && h.stamps + [] == h.stamps;
  }

  lemma SizeOfOneMore(msgs: seq<Bytes>, msg: Bytes)
    ensures Size([]) == 0 && Size(msgs + [msg]) == Size(msgs) + |msg| + 1
  {
    assert (msgs + [msg])[..|msgs|] == msgs;
  }

  /**
   What a push does to the files: the message goes to the open file, which stays open as long as its messages sum up
   to less than the maximum, and is closed with the message that makes them reach it.
   */
  ghost predicate Grows(c: Config, s: Producer, h: History, t: Producer, g: History, msg: Bytes) {
    var msgs := h.open + [msg];
    && (t.file.Some? <==> Size(msgs) < c.max)
    && (t.file.Some? ==> g.open == msgs && g.closed == h.closed)
    && (t.file.None? ==> g.open == [] && g.closed == h.closed + [Closed(s.header.schema, msgs)])
  }

  lemma PushFollows(c: Config, s: Producer, h: History, msg: Bytes, batch: bool, time: nat) returns (g: History)
    requires Inv(c, s, h) && (s.file.None? ==> GoodClock(h.stamps + [NextStamp(s, time)]))
    ensures Inv(c, Push(c, s, msg, batch, time), g)
    ensures Follows(h, g, [msg], if s.file.None? then [NextStamp(s, time)] else [])
    ensures Push(c, s, msg, batch, time).seqno == s.seqno + if s.file.None? then 1 else 0
    ensures Push(c, s, msg, batch, time).text == s.text
    ensures Push(c, s, msg, batch, time).header.format == s.header.format
    ensures Push(c, s, msg, batch, time).header.schema == s.header.schema
    ensures Adds(s, h, Push(c, s, msg, batch, time), g, [Stamped(s.header.schema, msg)])
    ensures !batch ==> OnDisk(Push(c, s, msg, batch, time), g)
    ensures Sized(c, s, h) ==> Sized(c, Push(c, s, msg, batch, time), g) && Grows(c, s, h, Push(c, s, msg, batch, time), g, msg)
  {
    hide Inv, GoodClock, Frame, NewFile, GetFile, CloseFile, Rotate, Adds, WriteAt, Size, OnDisk;
    NotOpen(c, s, h);
    SizeOfOneMore(h.open, msg);
    GetFileKeepsOpenFile(c, s, time);
    var stamped := [Stamped(s.header.schema, msg)];
    var h1 := GetFileFollows(c, s, h, time);
    var got := GetFile(c, s, time);
    WriteKeepsInv(c, got, h1, msg);
    var written := Write(got, Frame(got.text, msg));
    var h2 := h1.(open := h1.open + [msg]);
    FlushKeepsInv(c, written, h2);
    var flushed := if batch then written else Flush(written);
    var offset := flushed.file.value.offset + |msg| + 1;
    OffsetKeepsInv(c, flushed, h2, offset);
    var last := flushed.(file := Some(flushed.file.value.(offset := offset)));
    g := RotateFollows(c, last, h2, batch);
    if !batch {
      FlushShape(written);
      FlushedIsOnDisk(c, Rotate(c, last, batch), g);
    }
    AddsMessage(got, h1, last, msg);
    assert [] + stamped == stamped && stamped + [] == stamped;
    AddsThenAdds(s, h, got, h1, last, h2, [], stamped);
    AddsThenAdds(s, h, last, h2, Rotate(c, last, batch), g, stamped, []);
    assert Joined(h1.closed) + (h1.open + [msg]) == (Joined(h1.closed) + h1.open) + [msg];
    assert Messages(h2) + [] == Messages(h2) && h2.stamps + [] == h2.stamps;
    assert Messages(h1) == Messages(h) + [] == Messages(h);
  }

  lemma SchemaKeepsInv(c: Config, s: Producer, h: History, schema: Bytes)
    requires Inv(c, s, h) && s.file.None?
    ensures Inv(c, s.(header := s.header.(schema := schema)), h)
  {
    hide FileOf, ClosedName, GoodClock;
  }

  /** The schema in force after an operation, and what the operation adds under the schema before it. */
  function SchemaAfter(schema: Bytes, op: Op): Bytes {
    if op.OpSchema? && op.data != [] then op.data else schema
  }

  function StampedBy(schema: Bytes, op: Op): seq<Stamped> {
    Stamp(SchemaAfter(schema, op), PushedBy(op))
  }

  lemma OneStamped(schema: Bytes, msg: Bytes)
    ensures Stamp(schema, [msg]) == [Stamped(schema, msg)]
  {
    assert [msg][1..] == [];
  }

  lemma FlushAddsNothing(s: Producer, h: History)
    ensures Adds(s, h, Flush(s), h, [])
  {
    hide WriteAt, Stamp, StampAll;
  }

  lemma NewSchemaAddsNothing(s: Producer, h: History, schema: Bytes)
    requires h.open == []
    ensures Adds(s, h, s.(header := s.header.(schema := schema)), h, [])
  {
  }

  /** What a new schema does to the files: the open one is closed, and the schema is pushed to a new one. */
  ghost predicate Renews(c: Config, s: Producer, h: History, t: Producer, g: History, data: Bytes) {
    var closed := h.closed + (if s.file.Some? then [Closed(s.header.schema, h.open)] else []);
    && (t.file.Some? <==> data != [] && Size([data]) < c.max)
    && (t.file.Some? ==> g.open == [data])
    && (t.file.None? ==> g.open == [])
    && g.closed == closed + (if data != [] && t.file.None? then [Closed(data, [data])] else [])
  }

  lemma PushSchemaFollows(c: Config, s: Producer, h: History, data: Bytes, time: nat) returns (g: History)
    requires Inv(c, s, h) && (data != [] ==> GoodClock(h.stamps + [NextStamp(s, time)]))
    ensures var t := PushSchema(c, s, data, time);
      && Inv(c, t, g) && Follows(h, g, PushedBy(OpSchema(data)), if data == [] then [] else [NextStamp(s, time)])
      && t.seqno == s.seqno + (if data == [] then 0 else 1)
      && t.text == s.text && t.header.format == s.header.format
      && t.header.schema == SchemaAfter(s.header.schema, OpSchema(data))
      && Adds(s, h, t, g, StampedBy(s.header.schema, OpSchema(data)))
      && OnDisk(t, g)
      && (Sized(c, s, h) ==> Sized(c, t, g) && Renews(c, s, h, t, g, data))
  {
    hide Inv, GoodClock, Messages, Push, Flush, CloseFile, Adds, Size;
    FlushKeepsInv(c, s, h);
    FlushShape(s);
    var h1 := CloseFollows(c, Flush(s), h);
    var closed := CloseFile(c, Flush(s));
    var nothing: seq<Stamped> := [];
    assert nothing + nothing == nothing && nothing + [Stamped(data, data)] == [Stamped(data, data)];
    OneStamped(data, data);
    FlushAddsNothing(s, h);
    AddsThenAdds(s, h, Flush(s), h, closed, h1, nothing, nothing);
    g := h1;
    assert h1.stamps == h.stamps && Messages(h1) == Messages(h);
    if data != [] {
      SchemaKeepsInv(c, closed, h1, data);
      var renewed := closed.(header := closed.header.(schema := data));
      g := PushFollows(c, renewed, h1, data, false, time);
      NewSchemaAddsNothing(closed, h1, data);
      AddsThenAdds(s, h, closed, h1, renewed, h1, nothing, nothing);
      AddsThenAdds(s, h, renewed, h1, Push(c, renewed, data, false, time), g, nothing, [Stamped(data, data)]);
    }
    assert Messages(h) + [] == Messages(h) && h.stamps + [] == h.stamps;
    assert [] + [data] == [data];
  }

  lemma FlushShape(s: Producer)
    ensures s.file.Some? ==> Flush(s).file.value.offset == s.file.value.offset && Flush(s).file.value.pending == []
    ensures Flush(s).seqno == s.seqno && Flush(s).text == s.text && Flush(s).header == s.header
    ensures Flush(s).file.Some? == s.file.Some?
  {
    hide WriteAt;
  }

  /** A file that no message but its first was added to when it was full. */
  predicate NeverOverfull(c: Config, msgs: seq<Bytes>) {
    msgs != [] && (|msgs| == 1 || Size(msgs[..|msgs| - 1]) < c.max)
  }

  ghost predicate FilesNeverOverfull(c: Config, files: seq<Closed>) {
    forall i :: 0 <= i < |files| ==> NeverOverfull(c, files[i].msgs)
  }

  ghost predicate FilesFull(c: Config, files: seq<Closed>) {
    forall i :: 0 <= i < |files| ==> Size(files[i].msgs) >= c.max
  }

  /** The files an operation closes are full, unless it is there to close them, and they never were before. */
  ghost predicate Cuts(c: Config, h: History, g: History, op: Op) {
    && h.closed <= g.closed
    && FilesNeverOverfull(c, g.closed[|h.closed|..])
    && (op.OpPush? || op.OpCommit? ==> FilesFull(c, g.closed[|h.closed|..]))
  }

  /** Every operation but a batched push leaves everything pushed so far in the directory. */
  predicate Commits(op: Op) {
    op.OpPush? ==> !op.batch
  }

  lemma OpenIsNotOverfull(c: Config, s: Producer, h: History)
    requires Sized(c, s, h) && s.file.Some?
    ensures NeverOverfull(c, h.open)
  {
    var before, last := h.open[..|h.open| - 1], h.open[|h.open| - 1];
    assert h.open == before + [last];
    SizeOfOneMore(before, last);
  }

  lemma PushCuts(c: Config, s: Producer, h: History, t: Producer, g: History, msg: Bytes, batch: bool)
    requires Sized(c, s, h) && (s.file.None? ==> h.open == []) && Grows(c, s, h, t, g, msg)
    ensures Cuts(c, h, g, OpPush(msg, batch))
  {
    hide Size;
    assert (h.open + [msg])[..|h.open|] == h.open;
    if t.file.None? {
      assert g.closed[|h.closed|..] == [Closed(s.header.schema, h.open + [msg])];
    } else {
      assert g.closed[|h.closed|..] == [];
    }
  }

  lemma SchemaCuts(c: Config, s: Producer, h: History, t: Producer, g: History, data: Bytes)
    requires Sized(c, s, h) && Renews(c, s, h, t, g, data)
    ensures Cuts(c, h, g, OpSchema(data))
  {
    hide Size;
    if s.file.Some? {
      OpenIsNotOverfull(c, s, h);
    }
  }

  lemma CloseCuts(c: Config, s: Producer, h: History)
    requires Sized(c, s, h) && s.file.Some?
    ensures Cuts(c, h, h.(closed := h.closed + [Closed(s.header.schema, h.open)], open := []), OpClose)
  {
    OpenIsNotOverfull(c, s, h);
  }

  /** The stamp of the file created by one operation, if it created one. */
  function CreatedBy(c: Config, s: Producer, op: Op, time: nat): seq<Stamp> {
    if Apply(c, s, op, time).seqno > s.seqno then [NextStamp(s, time)] else []
  }

  /**
   One operation adds its message after all earlier ones and leaves every closed file alone; it keeps the
   format of the topic.
   */
  lemma ApplyFollows(c: Config, s: Producer, h: History, op: Op, time: nat) returns (g: History)
    requires Inv(c, s, h) && GoodClock(h.stamps + CreatedBy(c, s, op, time))
    ensures Inv(c, Apply(c, s, op, time), g)
    ensures Follows(h, g, PushedBy(op), CreatedBy(c, s, op, time))
    ensures Apply(c, s, op, time).text == s.text && Apply(c, s, op, time).header.format == s.header.format
    ensures Apply(c, s, op, time).header.schema == SchemaAfter(s.header.schema, op)
    ensures Adds(s, h, Apply(c, s, op, time), g, StampedBy(s.header.schema, op))
    ensures Sized(c, s, h) ==> Sized(c, Apply(c, s, op, time), g) && Cuts(c, h, g, op)
    ensures Commits(op) ==> OnDisk(Apply(c, s, op, time), g)
  {
    hide Inv, GoodClock, Messages, Push, PushSchema, Flush, CloseFile, Adds, Size;
    NotOpen(c, s, h);
    PushSeqno(c, s, op, time);
    match op
    case OpPush(msg, batch) =>
      OneStamped(s.header.schema, msg);
      g := PushFollows(c, s, h, msg, batch, time);
      if Sized(c, s, h) {
        PushCuts(c, s, h, Push(c, s, msg, batch, time), g, msg, batch);
      }
    case OpSchema(data) =>
      g := PushSchemaFollows(c, s, h, data, time);
      if Sized(c, s, h) {
        SchemaCuts(c, s, h, PushSchema(c, s, data, time), g, data);
      }
    case OpClose =>
      g := CloseFollows(c, s, h);
      if Sized(c, s, h) && s.file.Some? {
        CloseCuts(c, s, h);
      }
    case OpCommit =>
      FlushKeepsInv(c, s, h);
      FlushShape(s);
      FlushAddsNothing(s, h);
      FlushedIsOnDisk(c, Flush(s), h);
      g := h;
      assert Messages(h) + [] == Messages(h) && h.stamps + [] == h.stamps;
  }

  lemma PushShape(c: Config, s: Producer, msg: Bytes, batch: bool, time: nat)
    ensures Push(c, s, msg, batch, time).seqno == s.seqno + if s.file.None? then 1 else 0
  {
    hide WriteAt, NewFile, Frame, CloseFile;
    NewFileShape(c, s, time);
    var got := GetFile(c, s, time);
    var written := Write(got, Frame(s.text, msg));
    FlushShape(written);
    var flushed := if batch then written else Flush(written);
    var f := flushed.file.value;
    var last := flushed.(file := Some(f.(offset := f.offset + |msg| + 1)));
    FlushShape(last);
    CloseShape(c, last);
    CloseShape(c, Flush(last));
  }

  /** Which operations take a new file number. */
  lemma PushSeqno(c: Config, s: Producer, op: Op, time: nat)
    ensures op.OpPush? && s.file.None? ==> CreatedBy(c, s, op, time) == [NextStamp(s, time)]
    ensures op.OpSchema? && op.data != [] ==> CreatedBy(c, s, op, time) == [NextStamp(s, time)]
  {
    hide Push, Flush, CloseFile;
    FlushShape(s);
    CloseShape(c, Flush(s));
    if op.OpPush? {
      PushShape(c, s, op.msg, op.batch, time);
    } else if op.OpSchema? {
      var closed := CloseFile(c, Flush(s));
      PushShape(c, closed.(header := closed.header.(schema := op.data)), op.data, false, time);
    }
  }

  lemma StartInv(c: Config, format: Bytes)
    requires Ascii(format)
    ensures Inv(c, Start(format), History([], [], []))
  {
  }

  /** The messages of a run, each with the schema in force when it is pushed. */
  function StampedRun(schema: Bytes, ops: seq<Timed>): seq<Stamped>
    decreases |ops|
  {
    if ops == [] then []
    else StampedBy(schema, ops[0].op) + StampedRun(SchemaAfter(schema, ops[0].op), ops[1..])
  }

  ghost predicate OnlyPushes(ops: seq<Timed>) {
    forall i :: 0 <= i < |ops| ==> ops[i].op.OpPush? || ops[i].op.OpCommit?
  }

  lemma OnlyPushesStep(ops: seq<Timed>)
    requires ops != []
    ensures OnlyPushes(ops) ==> (ops[0].op.OpPush? || ops[0].op.OpCommit?) && OnlyPushes(ops[1..])
  {
  }

  lemma CutsAddUp(c: Config, h: History, g: History, op: Op)
    requires Cuts(c, h, g, op)
    ensures FilesNeverOverfull(c, h.closed) ==> FilesNeverOverfull(c, g.closed)
    ensures (op.OpPush? || op.OpCommit?) && FilesFull(c, h.closed) ==> FilesFull(c, g.closed)
  {
    hide NeverOverfull, Size;
    var more := g.closed[|h.closed|..];
    assert g.closed == h.closed + more;
  }

  /** After any run every message pushed is in the closed files or in the open one, once and in order. */
  lemma {:induction false} RunFollows(c: Config, s: Producer, h: History, ops: seq<Timed>) returns (g: History)
    requires Inv(c, s, h) && GoodClock(h.stamps + Created(c, s, ops))
    ensures Inv(c, Run(c, s, ops), g)
    ensures Follows(h, g, Pushed(ops), Created(c, s, ops))
    ensures Run(c, s, ops).header.format == s.header.format
    ensures Adds(s, h, Run(c, s, ops), g, StampedRun(s.header.schema, ops))
    ensures ops == [] ==> g == h
    ensures ops != [] && Commits(ops[|ops| - 1].op) ==> OnDisk(Run(c, s, ops), g)
    ensures Sized(c, s, h) ==> Sized(c, Run(c, s, ops), g)
    ensures Sized(c, s, h) && FilesNeverOverfull(c, h.closed) ==> FilesNeverOverfull(c, g.closed)
    ensures Sized(c, s, h) && FilesFull(c, h.closed) && OnlyPushes(ops) ==> FilesFull(c, g.closed)
    decreases |ops|
  {
    hide Inv, GoodClock, Apply, PushedBy, Messages, Adds, StampedBy, Sized, NeverOverfull, Size, Commits, OnDisk;
    if ops == [] {
      g := h;
      assert Messages(h) + [] == Messages(h) && h.stamps + [] == h.stamps;
      AddsNothing(s, h);
    } else {
      var op, time := ops[0].op, ops[0].time;
      var now, later := CreatedBy(c, s, op, time), Created(c, Apply(c, s, op, time), ops[1..]);
      assert h.stamps + (now + later) == (h.stamps + now) + later;
      GoodPrefix(h.stamps + now, later);
      var h1 := ApplyFollows(c, s, h, op, time);
      if Sized(c, s, h) {
        CutsAddUp(c, h, h1, op);
        OnlyPushesStep(ops);
      }
      g := RunFollows(c, Apply(c, s, op, time), h1, ops[1..]);
      AddsThenAdds(s, h, Apply(c, s, op, time), h1, Run(c, s, ops), g, StampedBy(s.header.schema, op),
        StampedRun(SchemaAfter(s.header.schema, op), ops[1..]));
      assert (Messages(h) + PushedBy(op)) + Pushed(ops[1..]) == Messages(h) + (PushedBy(op) + Pushed(ops[1..]));
    }
  }

  /**
   After any run whose last operation is not a batched push, the directory has every message pushed: those of the
   closed files, and the open one holds the frames of the rest behind its header.
   */
  lemma CommittedIsOnDisk(c: Config, format: Bytes, ops: seq<Timed>) returns (h: History)
    requires Ascii(format) && GoodClock(Created(c, Start(format), ops))
    requires ops != [] && (ops[|ops| - 1].op.OpPush? ==> !ops[|ops| - 1].op.batch)
    ensures var t := Run(c, Start(format), ops);
      && Joined(h.closed) + h.open == Pushed(ops)
      && ClosedFilesHold(c, t, h)
      && (t.file.None? ==> h.open == [])
      && (t.file.Some? ==>
            && t.file.value.name in t.dir
            && t.dir[t.file.value.name] == Marshal(t.header) + Frames(t.text, h.open))
  {
    hide GoodClock, Run, Created, Pushed, Marshal, FileOf, ClosedName, Frames, NothingElse, Size;
    var none := History([], [], []);
    StartInv(c, format);
    assert none.stamps + Created(c, Start(format), ops) == Created(c, Start(format), ops);
    h := RunFollows(c, Start(format), none, ops);
    assert Messages(none) == [] && [] + Pushed(ops) == Pushed(ops);
  }

  /**
   Over any run no file gets a message after its first once the lengths of its messages, and one for each, reach the
   maximum; the open file is below it. As long as no schema comes and the producer is not closed, every closed file
   has reached it, with its last message.
   */
  lemma FilesAreCutAtTheMaximum(c: Config, format: Bytes, ops: seq<Timed>) returns (h: History)
    requires Ascii(format) && GoodClock(Created(c, Start(format), ops))
    ensures Inv(c, Run(c, Start(format), ops), h) && Messages(h) == Pushed(ops)
    ensures Run(c, Start(format), ops).file.Some? ==> h.open != [] && Size(h.open) < c.max
    ensures forall i :: 0 <= i < |h.closed| ==>
      var msgs := h.closed[i].msgs;
      && msgs != [] && (|msgs| == 1 || Size(msgs[..|msgs| - 1]) < c.max)
      && (OnlyPushes(ops) ==> Size(msgs) >= c.max)
  {
    hide Inv, GoodClock, Run, Created, Pushed, OnlyPushes, Size;
    var none := History([], [], []);
    StartInv(c, format);
    assert none.stamps + Created(c, Start(format), ops) == Created(c, Start(format), ops);
    h := RunFollows(c, Start(format), none, ops);
    assert Messages(none) == [] && [] + Pushed(ops) == Pushed(ops);
    assert forall i :: 0 <= i < |h.closed| ==> NeverOverfull(c, h.closed[i].msgs);
  }
}
