/**
 The producer of the file pipe (newFile, push, PushSchema, closeFile and Close in pipe/file.go) for one key,
 delimited messages, files with headers on a file system that can seek, without encryption or compression.
 States are values here; class FileProducer in FileProducer.dfy carries the operations out in place.
 */
module FileProducing {
  import opened Encodings
  import opened FileHeader
  import opened FileNames
  import opened Framing
  import opened Json
  import opened Options

  type Digest = d: Bytes | |d| == 32 witness Zeros(32)

  /** `mac` is the keyed digest, `max` the size a file is rotated at. */
  datatype Config = Config(mac: Bytes -> Digest, key: string, max: int)

  /** A file being written: `pending` is still in the writer's buffer, `hashed` went through the digest. */
  datatype OpenFile = OpenFile(name: string, offset: int, position: nat, hashed: Bytes, pending: Bytes)

  datatype Producer =
    Producer(header: Header, text: bool, seqno: nat, file: Option<OpenFile>, dir: map<string, Bytes>)

  predicate TextFormat(format: Bytes) {
    // "json" and "text"
    format == [106, 115, 111, 110] || format == [116, 101, 120, 116]
  }

  predicate IsOpen(name: string) {
    |name| >= 5 && name[|name| - 5..] == ".open"
  }

  function TrimOpen(name: string): string {
    if IsOpen(name) then name[..|name| - 5] else name
  }

  function Content(dir: map<string, Bytes>, name: string): Bytes {
    if name in dir then dir[name] else []
  }

  // ---------------------------------------------------------------------------------------------
  // Steps
  // ---------------------------------------------------------------------------------------------

  /** newFile: a name that is in the directory already is appended to and gets no header. */
  function NewFile(c: Config, s: Producer, time: nat): Producer {
    var seqno := s.seqno + 1;
    var name := FileName(time, seqno, Tail(c.key, true));
    var before := Content(s.dir, name);
    var header := if before == [] then s.header.(delimited := true, hmac := Hex(Zeros(32))) else s.header;
    var content := if before == [] then Marshal(header) else before;
    Producer(header, s.text, seqno, Some(OpenFile(name, |before|, |content|, [], [])), s.dir[name := content])
  }

  function GetFile(c: Config, s: Producer, time: nat): (r: Producer)
    ensures r.file.Some?
  {
    if s.file.None? then NewFile(c, s, time) else s
  }

  /** A write to the file's buffered writer. */
  function Write(s: Producer, data: Bytes): Producer
    requires s.file.Some?
  {
    s.(file := Some(s.file.value.(pending := s.file.value.pending + data)))
  }

  /** Flush: what is buffered goes through the digest to the file, at the position of the handle. */
  function Flush(s: Producer): Producer {
    if s.file.None? then s
    else
      var f := s.file.value;
      s.(file := Some(f.(position := f.position + |f.pending|, hashed := f.hashed + f.pending, pending := [])),
         dir := s.dir[f.name := WriteAt(Content(s.dir, f.name), f.position, f.pending)])
  }

  /** closeFile: flush, rewrite the header with the digest of the body, and drop ".open" from the name. */
  function CloseFile(c: Config, s: Producer): Producer {
    if s.file.None? then s
    else
      var t := Flush(s);
      var f := t.file.value;
      var header := t.header.(hmac := Hex(c.mac(f.hashed)));
      var content := WriteAt(Content(t.dir, f.name), 0, Marshal(header));
      t.(header := header, file := None, dir := (t.dir - {f.name})[TrimOpen(f.name) := content])
  }

  function Rotate(c: Config, s: Producer, batch: bool): Producer
    requires s.file.Some?
  {
    if s.file.value.offset >= c.max then CloseFile(c, if batch then Flush(s) else s) else s
  }

  function Push(c: Config, s: Producer, msg: Bytes, batch: bool, time: nat): Producer {
    var written := Write(GetFile(c, s, time), Frame(s.text, msg));
    var flushed := if batch then written else Flush(written);
    var f := flushed.file.value;
    Rotate(c, flushed.(file := Some(f.(offset := f.offset + |msg| + 1))), batch)
  }

  function PushSchema(c: Config, s: Producer, data: Bytes, time: nat): Producer {
    var closed := CloseFile(c, Flush(s));
    if data == [] then closed
    else Push(c, closed.(header := closed.header.(schema := data)), data, false, time)
  }

  datatype Op =
    | OpPush(msg: Bytes, batch: bool)
    | OpCommit
    | OpSchema(data: Bytes)
    | OpClose

  function Apply(c: Config, s: Producer, op: Op, time: nat): Producer {
    match op
    case OpPush(msg, batch) => Push(c, s, msg, batch, time)
    case OpCommit => Flush(s)
    case OpSchema(data) => PushSchema(c, s, data, time)
    case OpClose => CloseFile(c, s)
  }

  /** The messages an operation hands to the pipe. */
  function PushedBy(op: Op): seq<Bytes> {
    match op
    case OpPush(msg, _) => [msg]
    case OpSchema(data) => if data == [] then [] else [data]
    case _ => []
  }

  datatype Timed = Timed(op: Op, time: nat)

  function Run(c: Config, s: Producer, ops: seq<Timed>): Producer
    decreases |ops|
  {
    if ops == [] then s else Run(c, Apply(c, s, ops[0].op, ops[0].time), ops[1..])
  }

  function Pushed(ops: seq<Timed>): seq<Bytes> {
    if ops == [] then [] else PushedBy(ops[0].op) + Pushed(ops[1..])
  }

  /** The second a file is created at and its producer's number of it, which are in its name. */
  datatype Stamp = Stamp(time: nat, number: nat)

  function NextStamp(s: Producer, time: nat): Stamp {
    Stamp(time, s.seqno + 1)
  }

  /** The files a run creates. */
  function Created(c: Config, s: Producer, ops: seq<Timed>): seq<Stamp>
    decreases |ops|
  {
    if ops == [] then []
    else
      var t := Apply(c, s, ops[0].op, ops[0].time);
      (if t.seqno > s.seqno then [NextStamp(s, ops[0].time)] else []) + Created(c, t, ops[1..])
  }

  function Start(format: Bytes): Producer {
    Producer(Header(format, [], false, []), TextFormat(format), 0, None, map[])
  }

  // ---------------------------------------------------------------------------------------------
  // What the files hold
  // ---------------------------------------------------------------------------------------------

  /** A closed file: the schema in force when it was opened and the messages in it. */
  datatype Closed = Closed(schema: Bytes, msgs: seq<Bytes>)

  /** The closed files, the messages of the open one, and the stamps of all of them. */
  datatype History = History(closed: seq<Closed>, open: seq<Bytes>, stamps: seq<Stamp>)

  function Joined(closed: seq<Closed>): seq<Bytes> {
    if closed == [] then [] else closed[0].msgs + Joined(closed[1..])
  }

  function Messages(h: History): seq<Bytes> {
    Joined(h.closed) + h.open
  }

  /** A closed file holds the header with the digest of its body, and the body. */
  function FileOf(c: Config, format: Bytes, file: Closed): Bytes {
    var body := Frames(TextFormat(format), file.msgs);
    Marshal(Header(format, file.schema, true, Hex(c.mac(body)))) + body
  }

  /** What messages count for the size of their file: their lengths, and one for each. */
  function Size(msgs: seq<Bytes>): nat {
    if msgs == [] then 0 else Size(msgs[..|msgs| - 1]) + |msgs[|msgs| - 1]| + 1
  }

  /** The open file has messages, and has room for more. */
  ghost predicate Sized(c: Config, s: Producer, h: History) {
    s.file.Some? ==> h.open != [] && s.file.value.offset == Size(h.open) < c.max
  }

  /** All messages of the open file are in the directory. */
  ghost predicate OnDisk(s: Producer, h: History) {
    s.file.Some? ==>
      s.file.value.name in s.dir && s.dir[s.file.value.name] == Marshal(s.header) + Frames(s.text, h.open)
  }

  function ClosedName(c: Config, stamp: Stamp): string {
    FileName(stamp.time, stamp.number, Tail(c.key, false))
  }

  /** A file of a later second, or the next one of the same producer in a second in which numbers get no longer. */
  predicate Later(a: Stamp, b: Stamp) {
    && b.time < 10000000000
    && (a.time < b.time || (a.time == b.time && b.number == a.number + 1 && Width(a.number) == Width(b.number)))
  }

  /** The clock does not go back and moves on whenever file numbers get longer or start again. */
  ghost predicate GoodClock(stamps: seq<Stamp>) {
    forall i: nat :: i + 1 < |stamps| ==> Later(stamps[i], stamps[i + 1])
  }

  ghost predicate ClosedFilesHold(c: Config, s: Producer, h: History) {
    && |h.closed| <= |h.stamps|
    && forall i: nat :: i < |h.closed| ==>
      ClosedName(c, h.stamps[i]) in s.dir
      && s.dir[ClosedName(c, h.stamps[i])] == FileOf(c, s.header.format, h.closed[i])
  }

  ghost predicate OpenFileHolds(c: Config, s: Producer, h: History)
    requires s.file.Some?
  {
    var f := s.file.value;
    && |h.stamps| == |h.closed| + 1
    && f.name == ClosedName(c, h.stamps[|h.closed|]) + ".open"
    && f.name in s.dir && s.dir[f.name] == Marshal(s.header) + f.hashed
    && f.position == |s.dir[f.name]|
    && s.header.delimited && s.header.hmac == Hex(Zeros(32))
    && f.hashed + f.pending == Frames(s.text, h.open)
  }

  /** Nothing else is in the directory. */
  ghost predicate NothingElse(c: Config, s: Producer, h: History)
    requires |h.closed| <= |h.stamps|
  {
    forall name :: name in s.dir ==>
      (s.file.Some? && name == s.file.value.name)
      || exists i: nat :: i < |h.closed| && name == ClosedName(c, h.stamps[i])
  }

  ghost predicate Inv(c: Config, s: Producer, h: History) {
    && s.text == TextFormat(s.header.format) && Ascii(s.header.format)
    && GoodClock(h.stamps)
    && ClosedFilesHold(c, s, h)
    && NothingElse(c, s, h)
    && if s.file.Some? then OpenFileHolds(c, s, h) else h.open == [] && |h.stamps| == |h.closed|
  }
}
