/**
 The consumer of the file pipe (nextFile, openFile, fetchNextLow and FetchNext in pipe/file.go), as functions
 on values; class FileConsumer in FileConsumer.dfy carries them out in place. `names` is what reading the
 topic's directory returns: its file names in order.
 */
module FileConsuming {
  import opened Encodings
  import opened FileHeader
  import opened FileNames
  import opened FileProducing
  import opened Framing
  import opened Options

  /** `name` is the file last opened, `reader` what is left of it, `text` its format. */
  datatype Consumer = Consumer(name: string, reader: Option<Bytes>, text: bool)

  /** Waiting stands for blocking until the directory changes. */
  datatype Outcome = Delivered(msg: Bytes) | Failed | Waiting | Moved

  ghost predicate Lists(names: seq<string>, dir: map<string, Bytes>) {
    Sorted(names) && forall name :: name in names <==> name in dir
  }

  /** The format and the body of a file that can be read, its digest checked when `verify` is set. */
  function OpenForRead(c: Config, verify: bool, content: Bytes): Option<(bool, Bytes)> {
    match ReadHeader(content)
    case None => None
    case Some((header, body)) =>
      if !header.delimited || (verify && header.hmac != Hex(c.mac(body))) then None
      else Some((TextFormat(header.format), body))
  }

  /** How many names come before the first one after `current`. */
  function After(names: seq<string>, current: string): (n: nat)
    ensures n <= |names|
  {
    if names == [] || Less(current, names[0]) then 0 else 1 + After(names[1..], current)
  }

  /** One message of the open file, or the step to the next closed file. */
  function FetchStep(c: Config, verify: bool, names: seq<string>, dir: map<string, Bytes>, k: Consumer)
    : (Outcome, Consumer)
  {
    match k.reader
    case Some(b) =>
      (match Fetch(k.text, b)
       case Message(msg, rest) => (Delivered(msg), k.(reader := Some(rest)))
       case Broken(left) => (Failed, k.(reader := left))
       case End => (Moved, k.(reader := None)))
    case None =>
      var n := After(names, k.name);
      if n == |names| || IsOpen(names[n]) then (Waiting, k)
      else
        match OpenForRead(c, verify, Content(dir, names[n]))
        case None => (Failed, k)
        case Some((text, body)) => (Moved, Consumer(names[n], Some(body), text))
  }

  lemma {:induction false} AfterIs(names: seq<string>, current: string, n: nat)
    requires n <= |names| && forall i :: 0 <= i < n ==> !Less(current, names[i])
    requires n < |names| ==> Less(current, names[n])
    ensures After(names, current) == n
    decreases |names|
  {
    if n > 0 {
      forall i | 0 <= i < n - 1
        ensures !Less(current, names[1..][i])
      {
        assert names[1..][i] == names[i + 1];
      }
      AfterIs(names[1..], current, n - 1);
    }
  }

  /** Going to the next file leaves one name less to visit. */
  lemma MovesOn(names: seq<string>, n: nat)
    requires Sorted(names) && n < |names|
    ensures After(names, names[n]) == n + 1
  {
    LessIrreflexive(names[n]);
    forall i | 0 <= i < n
      ensures !Less(names[n], names[i])
    {
      if Less(names[n], names[i]) {
        LessTransitive(names[i], names[n], names[i]);
        LessIrreflexive(names[i]);
      }
    }
    AfterIs(names, names[n], n + 1);
  }

  function Left(names: seq<string>, k: Consumer): nat {
    |names| - After(names, k.name)
  }

  lemma StepMovesOn(c: Config, verify: bool, names: seq<string>, dir: map<string, Bytes>, k: Consumer)
    requires Sorted(names) && FetchStep(c, verify, names, dir, k).0.Moved?
    ensures var t := FetchStep(c, verify, names, dir, k).1;
      if k.reader.Some? then t == k.(reader := None) else t.reader.Some? && Left(names, t) < Left(names, k)
  {
    hide OpenForRead, Fetch;
    if k.reader.None? {
      MovesOn(names, After(names, k.name));
    }
  }

  /** FetchNext: steps until there is a message, an error, or nothing to read yet. */
  ghost function FetchNext(c: Config, verify: bool, names: seq<string>, dir: map<string, Bytes>, k: Consumer)
    : (r: (Outcome, Consumer))
    requires Sorted(names)
    ensures !r.0.Moved?
    decreases Left(names, k), if k.reader.Some? then 1 else 0
  {
    var (outcome, t) := FetchStep(c, verify, names, dir, k);
    if outcome.Moved? then
      StepMovesOn(c, verify, names, dir, k);
      FetchNext(c, verify, names, dir, t)
    else
      (outcome, t)
  }

  // ---------------------------------------------------------------------------------------------
  // Starting on a file that is being written
  // ---------------------------------------------------------------------------------------------

  /**
   initConsumer opens the file that seek names, or none; when that fails the consumer is as on an empty directory,
   and no error is returned.
   */
  function OpenFirst(c: Config, verify: bool, name: string, dir: map<string, Bytes>, newest: bool): Consumer {
    match OpenForRead(c, verify, Content(dir, name))
    case None => Consumer("", None, false)
    case Some((text, body)) => Consumer(name, Some(if newest then [] else body), text)
  }

  /**
   The oldest offset is the start of the first file of the directory, the newest one the end of the last file,
   whatever their names.
   */
  function Seek(c: Config, verify: bool, names: seq<string>, dir: map<string, Bytes>, newest: bool): Consumer {
    if names == [] then Consumer("", None, false)
    else OpenFirst(c, verify, if newest then names[|names| - 1] else names[0], dir, newest)
  }

  /** A consumer that is on an open file never opens it again under the name it is closed with. */
  lemma RestOfOpenFileIsSkipped(base: string, later: seq<string>, i: nat)
    requires Sorted(later) && i < |later| && later[i] == base
    ensures After(later, base + ".open") > i
  {
    hide Less, After;
    var open := base + ".open";
    LongerIsLater(base, ".open");
    forall j | 0 <= j <= i
      ensures !Less(open, later[j])
    {
      if Less(open, later[j]) {
        if j < i {
          LessTransitive(open, later[j], base);
        }
        LessTransitive(base, open, base);
        LessIrreflexive(base);
      }
    }
    AfterBeyond(later, open, i);
  }

  lemma {:induction false} AfterBeyond(names: seq<string>, current: string, i: nat)
    requires i < |names| && forall j :: 0 <= j <= i ==> !Less(current, names[j])
    ensures After(names, current) > i
    decreases |names|
  {
    if i > 0 {
      forall j | 0 <= j <= i - 1
        ensures !Less(current, names[1..][j])
      {
        assert names[1..][j] == names[j + 1];
      }
      AfterBeyond(names[1..], current, i - 1);
    }
  }
}
