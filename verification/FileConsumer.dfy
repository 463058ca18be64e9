/** The file consumer as an object updated in place (pipe/file.go). */
module FileConsumer {
  import opened Encodings
  import opened FileConsuming
  import opened FileHeader
  import opened FileNames
  import opened FileProducing
  import opened Framing
  import opened Options

  class FileConsumer {
    const config: Config
    const verify: bool
    var name: string
    var reader: Option<Bytes>
    var header: Header
    var text: bool
    var msg: Bytes
    var err: bool

    ghost function State(): Consumer
      reads this
    {
      Consumer(name, reader, text)
    }

    constructor (config: Config, verify: bool)
      ensures State() == Consumer("", None, false) && this.config == config && this.verify == verify
    {
      this.config, this.verify := config, verify;
      name, reader, header, text, msg, err := "", None, NO_HEADER, false, [], false;
    }

    /** fetchNextLow: true when there is a message or an error. */
    method FetchNextLow(ghost names: seq<string>, ghost dir: map<string, Bytes>) returns (has: bool)
      modifies this`reader, this`msg, this`err
      ensures old(reader).None? ==> !has && State() == old(State()) && err == old(err)
      ensures old(reader).Some? ==>
        FetchStep(config, verify, names, dir, old(State()))
          == (if !has then Moved else if err then Failed else Delivered(msg), State())
      ensures old(reader).Some? && !has ==> !err
    {
      hide Fetch;
      has := false;
      if reader.Some? {
        match Fetch(text, reader.value) {
          case Message(m, rest) =>
            msg, reader, err, has := m, Some(rest), false, true;
          case Broken(left) =>
            reader, err, has := left, true, true;
          case End =>
            reader, err := None, false;
        }
      }
    }

    /** openFile: on an error the consumer stays where it was. */
    method OpenFile(fn: string, content: Bytes)
      requires reader.None?
      modifies this
      ensures match OpenForRead(config, verify, content)
        case None => err && reader.None? && name == old(name) && State() == old(State())
        case Some((t, body)) => !err && State() == Consumer(fn, Some(body), t)
    {
      hide ReadHeader, Hex;
      err := true;
      match ReadHeader(content) {
        case None =>
        case Some((h, body)) =>
          header := h;
          if header.delimited && (!verify || header.hmac == Hex(config.mac(body))) {
            text := TextFormat(header.format);
            name := fn;
            reader := Some(body);
            err := false;
          }
      }
    }

    /** initConsumer: what seek names is opened, whatever its name, and an error in that is not returned. */
    method InitConsumer(names: seq<string>, dir: map<string, Bytes>, newest: bool)
      requires State() == Consumer("", None, false)
      modifies this
      ensures State() == Seek(config, verify, names, dir, newest)
    {
      hide OpenForRead;
      if names != [] {
        var fn := if newest then names[|names| - 1] else names[0];
        OpenFile(fn, Content(dir, fn));
        if newest && !err {
          reader := Some([]);
        }
      }
    }

    /** One look at the directory by waitAndOpenNextFile; false when it has to wait for a change. */
    method OpenNextFile(names: seq<string>, dir: map<string, Bytes>) returns (moved: bool)
      requires Sorted(names) && reader.None?
      modifies this
      ensures FetchStep(config, verify, names, dir, old(State()))
           == (if !moved then Waiting else if err then Failed else Moved, State())
    {
      hide OpenForRead, Less, IsOpen;
      var next := NextFile(names, name);
      AfterIs(names, name, if next.Some? then next.value else |names|);
      moved := next.Some? && !IsOpen(names[next.value]);
      if moved {
        OpenFile(names[next.value], Content(dir, names[next.value]));
      }
    }

    /** FetchNext: Waiting stands for blocking in waitForNextFile. */
    method FetchNext(names: seq<string>, dir: map<string, Bytes>) returns (r: Outcome)
      requires Sorted(names)
      modifies this
      ensures (r, State()) == FileConsuming.FetchNext(config, verify, names, dir, old(State()))
    {
      hide FetchStep, After, Less;
      while true
        invariant FileConsuming.FetchNext(config, verify, names, dir, State())
               == FileConsuming.FetchNext(config, verify, names, dir, old(State()))
        decreases Left(names, State()), if reader.Some? then 1 else 0
      {
        ghost var k := State();
        var has := FetchNextLow(names, dir);
        if has {
          return if err then Failed else Delivered(msg);
        }
        if k.reader.Some? {
          StepMovesOn(config, verify, names, dir, k);
        }
        ghost var closed := State();
        var moved := OpenNextFile(names, dir);
        if !moved {
          return Waiting;
        }
        if err {
          return Failed;
        }
        StepMovesOn(config, verify, names, dir, closed);
      }
    }
  }
}
