/** The file producer as an object updated in place (pipe/file.go). */
module FileProducer {
  import opened Encodings
  import opened FileHeader
  import opened FileNames
  import P = FileProducing
  import R = FileRuns
  import opened Framing
  import opened Json
  import opened Options

  /**
   `dir` is the topic's directory and `file` the entry of the files map for the key of `config`. As long as the clock
   serves for file names, `history` has the messages of each file.
   */
  class FileProducer {
    const config: P.Config
    var header: Header
    var text: bool
    var seqno: nat
    var file: Option<P.OpenFile>
    var dir: map<string, Bytes>
    ghost var history: P.History

    /** The directory holds exactly the files and messages of `history`, and the open file is not full. */
    ghost predicate Valid()
      reads this
    {
      P.Inv(config, State(), history) && P.Sized(config, State(), history)
    }

    /** Whether a file created now would have a name of its own, behind the others. */
    ghost predicate ClockServes(time: nat)
      reads this
    {
      P.GoodClock(history.stamps + [P.NextStamp(State(), time)])
    }

    ghost function State(): P.Producer
      reads this
    {
      P.Producer(header, text, seqno, file, dir)
    }

    constructor (config: P.Config, format: Bytes)
      ensures State() == P.Start(format) && this.config == config
      ensures history == P.History([], [], []) && (Ascii(format) ==> Valid())
    {
      this.config := config;
      header := Header(format, [], false, []);
      text := P.TextFormat(format);
      seqno := 0;
      file := None;
      dir := map[];
      history := P.History([], [], []);
    }

    /** writeHeader: the bytes for the file; the digest is remembered in the header. */
    method WriteHeader(hash: Bytes) returns (b: Bytes)
      modifies this`header
      ensures header == if hash != [] then old(header).(hmac := Hex(hash)) else old(header)
      ensures b == Marshal(header)
    {
      if hash != [] {
        header := header.(hmac := Hex(hash));
      }
      b := Marshal(header);
    }

    method NewFile(time: nat)
      requires file.None?
      modifies this
      ensures State() == P.NewFile(config, old(State()), time) && history == old(history)
    {
      hide Marshal, FileName, Tail, Hex, Zeros;
      seqno := seqno + 1;
      var name := FileName(time, seqno, Tail(config.key, true));
      var content := P.Content(dir, name);
      var offset := |content|;
      if offset == 0 {
        header := header.(delimited := true);
        content := WriteHeader(Zeros(32));
      }
      dir := dir[name := content];
      file := Some(P.OpenFile(name, offset, |content|, [], []));
    }

    method GetFile(time: nat)
      modifies this
      ensures State() == P.GetFile(config, old(State()), time) && history == old(history)
    {
      hide P.NewFile;
      if file.None? {
        NewFile(time);
      }
    }

    method Write(data: Bytes)
      requires file.Some?
      modifies this`file
      ensures State() == P.Write(old(State()), data)
    {
      file := Some(file.value.(pending := file.value.pending + data));
    }

    /** writeBinaryMsgLength */
    method WriteBinaryMsgLength(size: nat)
      requires file.Some?
      modifies this`file
      ensures State() == P.Write(old(State()), if text then [] else Uvarint(size))
    {
      if !text {
        Write(Uvarint(size));
      } else {
        assert file.value.pending + [] == file.value.pending;
      }
    }

    /** writeTextMsgDelimiter */
    method WriteTextMsgDelimiter()
      requires file.Some?
      modifies this`file
      ensures State() == P.Write(old(State()), if text then [DELIMITER] else [])
    {
      if text {
        Write([DELIMITER]);
      } else {
        assert file.value.pending + [] == file.value.pending;
      }
    }

    method Flush()
      modifies this`file, this`dir
      ensures State() == P.Flush(old(State()))
    {
      hide WriteAt;
      if file.Some? {
        var f := file.value;
        dir := dir[f.name := WriteAt(P.Content(dir, f.name), f.position, f.pending)];
        file := Some(f.(position := f.position + |f.pending|, hashed := f.hashed + f.pending, pending := []));
      }
    }

    method CloseFile()
      modifies this
      ensures State() == P.CloseFile(config, old(State())) && history == old(history)
    {
      hide WriteAt, Marshal, Hex, P.Flush;
      if file.Some? {
        FlushKeepsFile(State());
        Flush();
        var f := file.value;
        var content := P.Content(dir, f.name);
        var b := WriteHeader(config.mac(f.hashed));
        dir := (dir - {f.name})[P.TrimOpen(f.name) := WriteAt(content, 0, b)];
        file := None;
      }
    }

    /** The message with its delimiter goes to the file's buffer. */
    method WriteMessage(msg: Bytes)
      requires file.Some?
      modifies this`file
      ensures State() == P.Write(old(State()), Frame(text, msg))
    {
      ghost var before := file.value.pending;
      WriteBinaryMsgLength(|msg|);
      Write(msg);
      WriteTextMsgDelimiter();
      if text {
        assert before + [] + msg + [DELIMITER] == before + (msg + [DELIMITER]);
      } else {
        assert before + Uvarint(|msg|) + msg + [] == before + (Uvarint(|msg|) + msg);
      }
    }

    method RotateIfFull(batch: bool)
      requires file.Some?
      modifies this
      ensures State() == P.Rotate(config, old(State()), batch) && history == old(history)
    {
      hide P.Flush, P.CloseFile;
      if file.value.offset >= config.max {
        if batch {
          Flush();
        }
        CloseFile();
      }
    }

    /**
     The message comes behind all earlier ones; files that were closed before stay as they are. Its file is closed
     exactly when it has reached the maximum.
     */
    method Push(msg: Bytes, batch: bool, time: nat)
      modifies this
      ensures State() == P.Push(config, old(State()), msg, batch, time)
      ensures old(Valid() && (file.None? ==> ClockServes(time))) ==>
        && Valid() && (!batch ==> P.OnDisk(State(), history))
        && R.Grows(config, old(State()), old(history), State(), history, msg)
        && R.Follows(old(history), history, [msg],
                     if old(file).None? then [P.NextStamp(old(State()), time)] else [])
    {
      hide P.Flush, P.GetFile, P.Rotate, Frame, P.Inv, R.Follows, P.GoodClock, P.Sized, P.OnDisk, R.Grows;
      ghost var before, serves := State(), Valid() && (file.None? ==> ClockServes(time));
      GetFileKeepsText(config, State(), time);
      GetFile(time);
      WriteMessage(msg);
      FlushKeepsFile(State());
      if !batch {
        Flush();
      }
      file := Some(file.value.(offset := file.value.offset + |msg| + 1));
      RotateIfFull(batch);
      if serves {
        ghost var after := R.PushFollows(config, before, history, msg, batch, time);
        history := after;
      }
    }

    /** Nothing but what is written changes: everything pushed is in the directory. */
    method PushBatchCommit()
      modifies this
      ensures State() == P.Flush(old(State())) && history == old(history)
      ensures old(Valid()) ==> Valid() && P.OnDisk(State(), history)
    {
      hide P.Flush, P.Inv, P.OnDisk;
      if Valid() {
        R.FlushKeepsInv(config, State(), history);
        R.FlushShape(State());
        R.FlushedIsOnDisk(config, P.Flush(State()), history);
      }
      Flush();
    }

    /** The schema comes behind all earlier messages, in a new file. */
    method PushSchema(data: Bytes, time: nat)
      modifies this
      ensures State() == P.PushSchema(config, old(State()), data, time)
      ensures old(Valid() && (data != [] ==> ClockServes(time))) ==>
        && Valid() && (data == [] ==> history.open == [])
        && R.Renews(config, old(State()), old(history), State(), history, data)
        && R.Follows(old(history), history, if data == [] then [] else [data],
                     if data == [] then [] else [P.NextStamp(old(State()), time)])
    {
      hide P.Flush, P.CloseFile, P.Push, P.Inv, R.Follows, P.GoodClock, R.Adds, P.Sized, R.Renews;
      ghost var before, was, serves := State(), history, Valid() && (data != [] ==> ClockServes(time));
      PushBatchCommit();
      CloseFile();
      if data != [] {
        header := header.(schema := data);
        Push(data, false, time);
      }
      if serves {
        ghost var after := R.PushSchemaFollows(config, before, was, data, time);
        history := after;
        if data == [] {
          ClosesFile(config, before);
          R.NotOpen(config, State(), history);
        }
      }
    }

    /** Every message is in a closed file. */
    method Close()
      modifies this
      ensures State() == P.CloseFile(config, old(State()))
      ensures old(Valid()) ==> Valid() && R.Follows(old(history), history, [], []) && history.open == []
    {
      hide P.CloseFile, P.Inv, R.Follows;
      ghost var before, valid := State(), Valid();
      CloseFile();
      if valid {
        ghost var after := R.CloseFollows(config, before, history);
        history := after;
      }
    }
  }

  lemma GetFileKeepsText(c: P.Config, s: P.Producer, time: nat)
    ensures P.GetFile(c, s, time).text == s.text
  {
    hide Marshal, FileName, Tail;
  }

  lemma ClosesFile(c: P.Config, s: P.Producer)
    ensures P.CloseFile(c, P.Flush(s)).file.None?
  {
    hide Marshal, P.Flush, WriteAt;
  }

  lemma FlushKeepsFile(s: P.Producer)
    ensures P.Flush(s).file.Some? == s.file.Some?
  {
    hide WriteAt;
  }
}
