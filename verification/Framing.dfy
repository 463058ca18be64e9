/**
 How messages are delimited in a file, and how a consumer takes them apart again (writeBinaryMsgLength,
 writeTextMsgDelimiter and fetchNextLow in pipe/file.go). Binary messages carry their length as unsigned
 LEB128 (section 7.6 of DWARF 5); text messages end with a newline.
 */
module Framing {
  import opened Options

  type Byte = x: int | 0 <= x < 256
  type Bytes = seq<Byte>

  const DELIMITER: Byte := 10

  function Zeros(n: nat): (b: Bytes)
    ensures |b| == n
  {
    if n == 0 then [] else [0] + Zeros(n - 1)
  }

  // ---------------------------------------------------------------------------------------------
  // Lengths
  // ---------------------------------------------------------------------------------------------

  function Uvarint(x: nat): (b: Bytes)
    ensures b != []
  {
    if x < 128 then [x] else [x % 128 + 128] + Uvarint(x / 128)
  }

  datatype Length = Length(value: nat, rest: Bytes) | Eof | Overflow(rest: Bytes)

  /** Reads a length whose first `i` bytes are already consumed; ten bytes hold 64 bits. */
  function ReadUvarint(b: Bytes, i: nat): (r: Length)
    ensures !r.Eof? ==> |r.rest| < |b|
    decreases |b|
  {
    if b == [] then
      Eof
    else if b[0] < 128 then
      if i > 9 || (i == 9 && b[0] > 1) then Overflow(b[1..]) else Length(b[0], b[1..])
    else
      match ReadUvarint(b[1..], i + 1)
      case Length(v, rest) => Length(b[0] - 128 + 128 * v, rest)
      case Eof => Eof
      case Overflow(rest) => Overflow(rest)
  }

  /** One more than the largest value the bytes from the i-th on can hold. */
  function Capacity(i: nat): (n: nat)
    ensures i < 10 ==> n >= 2
    decreases 10 - i
  {
    if i >= 10 then 0 else if i == 9 then 2 else 128 * Capacity(i + 1)
  }

  lemma {:induction false} UvarintReadsBack(x: nat, i: nat, tail: Bytes)
    requires x < Capacity(i)
    ensures ReadUvarint(Uvarint(x) + tail, i) == Length(x, tail)
    decreases x
  {
    var b := Uvarint(x) + tail;
    if x < 128 {
      assert b == [x] + tail && b[1..] == tail;
    } else {
      UvarintReadsBack(x / 128, i + 1, tail);
      ContinuedLength(b, i, x % 128, x / 128, Uvarint(x / 128) + tail, tail);
    }
  }

  lemma ContinuedLength(b: Bytes, i: nat, low: nat, high: nat, after: Bytes, tail: Bytes)
    requires low < 128 && b == [low + 128] + after && ReadUvarint(after, i + 1) == Length(high, tail)
    ensures ReadUvarint(b, i) == Length(low + 128 * high, tail)
  {
    assert b[1..] == after;
  }

  /** A length that is cut off reads as the end of the file. */
  lemma {:induction false} CutUvarint(x: nat, i: nat, k: nat)
    requires k < |Uvarint(x)|
    ensures ReadUvarint(Uvarint(x)[..k], i) == Eof
    decreases x
  {
    if k > 0 {
      assert Uvarint(x)[..k][1..] == Uvarint(x / 128)[..k - 1];
      CutUvarint(x / 128, i + 1, k - 1);
    }
  }

  /** The largest length Go's make accepts fits. */
  lemma SliceLengthsFit(x: nat)
    requires x < 0x8000_0000_0000_0000
    ensures x < Capacity(0)
  {
    assert Capacity(7) == 32768;
    assert Capacity(4) == 68719476736;
    assert Capacity(2) == 1125899906842624;
  }

  // ---------------------------------------------------------------------------------------------
  // Messages
  // ---------------------------------------------------------------------------------------------

  function Frame(text: bool, msg: Bytes): (b: Bytes)
    ensures |b| > |msg|
  {
    if text then msg + [DELIMITER] else Uvarint(|msg|) + msg
  }

  function Frames(text: bool, msgs: seq<Bytes>): Bytes {
    if msgs == [] then [] else Frame(text, msgs[0]) + Frames(text, msgs[1..])
  }

  lemma {:induction false} FramesAppend(text: bool, a: seq<Bytes>, b: seq<Bytes>)
    ensures Frames(text, a + b) == Frames(text, a) + Frames(text, b)
    decreases |a|
  {
    if a == [] {
      assert a + b == b;
    } else {
      assert (a + b)[1..] == a[1..] + b;
      FramesAppend(text, a[1..], b);
    }
  }

  /** After an error `left` is still to be read, unless the file was closed. */
  datatype Fetched = Message(msg: Bytes, rest: Bytes) | End | Broken(left: Option<Bytes>)

  function Line(b: Bytes): (n: nat)
    ensures n <= |b| && DELIMITER !in b[..n] && (n < |b| ==> b[n] == DELIMITER)
  {
    if b == [] || b[0] == DELIMITER then 0 else
      var n := 1 + Line(b[1..]);
      assert b[..n] == [b[0]] + b[1..][..n - 1];
      n
  }

  /** The next message of an open file: a message, the end of the file, or an error. */
  function Fetch(text: bool, b: Bytes): (r: Fetched)
    ensures r.Message? ==> |r.rest| < |b|
    ensures r.Broken? && r.left.Some? ==> |r.left.value| < |b|
  {
    if text then
      var n := Line(b);
      if n < |b| then Message(b[..n], b[n + 1..]) else if b == [] then End else Broken(None)
    else
      match ReadUvarint(b, 0)
      case Eof => End
      case Overflow(rest) => Broken(Some(rest))
      case Length(n, rest) =>
        if n <= |rest| then Message(rest[..n], rest[n..]) else if rest == [] then End else Broken(Some([]))
  }

  datatype Reading = Reading(msgs: seq<Bytes>, broken: bool)

  /** What a consumer gets out of a file until it ends or an error is delivered. */
  function FetchAll(text: bool, b: Bytes): Reading
    decreases |b|
  {
    match Fetch(text, b)
    case End => Reading([], false)
    case Broken(_) => Reading([], true)
    case Message(msg, rest) =>
      var after := FetchAll(text, rest);
      Reading([msg] + after.msgs, after.broken)
  }

  /** Messages the format can carry: a text message is one line. */
  predicate Carried(text: bool, msg: Bytes) {
    |msg| < 0x8000_0000_0000_0000 && (text ==> DELIMITER !in msg)
  }

  ghost predicate AllCarried(text: bool, msgs: seq<Bytes>) {
    forall i :: 0 <= i < |msgs| ==> Carried(text, msgs[i])
  }

  lemma {:induction false} LineOf(msg: Bytes, tail: Bytes)
    requires DELIMITER !in msg
    ensures Line(msg + [DELIMITER] + tail) == |msg|
  {
    if msg != [] {
      assert (msg + [DELIMITER] + tail)[1..] == msg[1..] + [DELIMITER] + tail;
      LineOf(msg[1..], tail);
    }
  }

  lemma FrameReadsBack(text: bool, msg: Bytes, tail: Bytes)
    requires Carried(text, msg)
    ensures Fetch(text, Frame(text, msg) + tail) == Message(msg, tail)
  {
    if text {
      LineOf(msg, tail);
    } else {
      assert Uvarint(|msg|) + msg + tail == Uvarint(|msg|) + (msg + tail);
      SliceLengthsFit(|msg|);
      UvarintReadsBack(|msg|, 0, msg + tail);
      assert (msg + tail)[..|msg|] == msg && (msg + tail)[|msg|..] == tail;
    }
  }

  lemma FetchAllStep(text: bool, b: Bytes, msg: Bytes, rest: Bytes)
    requires Fetch(text, b) == Message(msg, rest)
    ensures FetchAll(text, b) == Reading([msg] + FetchAll(text, rest).msgs, FetchAll(text, rest).broken)
  {
  }

  lemma FetchAllFrame(text: bool, msg: Bytes, rest: Bytes)
    requires Carried(text, msg)
    ensures FetchAll(text, Frame(text, msg) + rest)
         == Reading([msg] + FetchAll(text, rest).msgs, FetchAll(text, rest).broken)
  {
    FrameReadsBack(text, msg, rest);
    FetchAllStep(text, Frame(text, msg) + rest, msg, rest);
  }

  lemma FirstFrame(text: bool, msgs: seq<Bytes>, tail: Bytes)
    requires msgs != []
    ensures Frames(text, msgs) + tail == Frame(text, msgs[0]) + (Frames(text, msgs[1..]) + tail)
  {
  }

  function Prepend(msgs: seq<Bytes>, r: Reading): Reading {
    Reading(msgs + r.msgs, r.broken)
  }

  lemma PrependOne(msgs: seq<Bytes>, r: Reading)
    requires msgs != []
    ensures Prepend(msgs, r) == Prepend([msgs[0]], Prepend(msgs[1..], r))
  {
    assert msgs + r.msgs == [msgs[0]] + (msgs[1..] + r.msgs);
  }

  /** Framed messages read back in order, and what follows them is read as if it stood alone. */
  lemma {:induction false} FramesReadBack(text: bool, msgs: seq<Bytes>, tail: Bytes)
    requires AllCarried(text, msgs)
    ensures FetchAll(text, Frames(text, msgs) + tail) == Prepend(msgs, FetchAll(text, tail))
    decreases |msgs|
  {
    if msgs == [] {
      assert Frames(text, msgs) + tail == tail;
      assert msgs + FetchAll(text, tail).msgs == FetchAll(text, tail).msgs;
    } else {
      FirstFrame(text, msgs, tail);
      FetchAllFrame(text, msgs[0], Frames(text, msgs[1..]) + tail);
      FramesReadBack(text, msgs[1..], tail);
      PrependOne(msgs, FetchAll(text, tail));
    }
  }

  lemma RoundTrip(text: bool, msgs: seq<Bytes>)
    requires AllCarried(text, msgs)
    ensures FetchAll(text, Frames(text, msgs)) == Reading(msgs, false)
  {
    assert Frames(text, msgs) + [] == Frames(text, msgs);
    assert FetchAll(text, []) == Reading([], false);
    FramesReadBack(text, msgs, []);
  }

  // ---------------------------------------------------------------------------------------------
  // Text messages with newlines in them
  // ---------------------------------------------------------------------------------------------

  function Newlines(b: Bytes): nat {
    if b == [] then 0 else (if b[0] == DELIMITER then 1 else 0) + Newlines(b[1..])
  }

  lemma {:induction false} NewlinesAppend(a: Bytes, b: Bytes)
    ensures Newlines(a + b) == Newlines(a) + Newlines(b)
    decreases |a|
  {
    if a == [] {
      assert a + b == b;
    } else {
      assert (a + b)[1..] == a[1..] + b;
      NewlinesAppend(a[1..], b);
    }
  }

  lemma {:induction false} NewlinesOf(b: Bytes)
    ensures Newlines(b) == 0 <==> DELIMITER !in b
  {
    if b != [] {
      NewlinesOf(b[1..]);
    }
  }

  /** A text file holds as many messages as newlines. */
  lemma {:induction false} OneMessagePerNewline(b: Bytes)
    ensures |FetchAll(true, b).msgs| == Newlines(b)
    decreases |b|
  {
    var n := Line(b);
    NewlinesOf(b[..n]);
    NewlinesAppend(b[..n], b[n..]);
    assert b == b[..n] + b[n..];
    if n < |b| {
      OneMessagePerNewline(b[n + 1..]);
      assert b[n..][1..] == b[n + 1..];
    }
  }

  lemma {:induction false} NewlinesOfFrames(msgs: seq<Bytes>)
    ensures Newlines(Frames(true, msgs)) >= |msgs|
    ensures Newlines(Frames(true, msgs)) == |msgs| <==> forall i :: 0 <= i < |msgs| ==> DELIMITER !in msgs[i]
  {
    if msgs != [] {
      NewlinesOfFrames(msgs[1..]);
      NewlinesAppend(Frame(true, msgs[0]), Frames(true, msgs[1..]));
      NewlinesAppend(msgs[0], [DELIMITER]);
      NewlinesOf(msgs[0]);
      assert forall i :: 0 < i < |msgs| ==> msgs[i] == msgs[1..][i - 1];
    }
  }

  /** In text mode messages come back exactly when none of them has a newline in it. */
  lemma TextReadsBackExactlyWhen(msgs: seq<Bytes>)
    requires forall i :: 0 <= i < |msgs| ==> |msgs[i]| < 0x8000_0000_0000_0000
    ensures FetchAll(true, Frames(true, msgs)) == Reading(msgs, false)
       <==> forall i :: 0 <= i < |msgs| ==> DELIMITER !in msgs[i]
  {
    OneMessagePerNewline(Frames(true, msgs));
    NewlinesOfFrames(msgs);
    if forall i :: 0 <= i < |msgs| ==> DELIMITER !in msgs[i] {
      RoundTrip(true, msgs);
    }
  }

  // ---------------------------------------------------------------------------------------------
  // Files that are cut off
  // ---------------------------------------------------------------------------------------------

  /** Whether the end of the file hides that a message was cut `k` bytes into its frame. */
  predicate CutUnnoticed(text: bool, msg: Bytes, k: nat) {
    k == 0 || (!text && k <= |Uvarint(|msg|)|)
  }

  lemma CutFrame(text: bool, msg: Bytes, k: nat)
    requires Carried(text, msg) && k < |Frame(text, msg)|
    ensures var r := Fetch(text, Frame(text, msg)[..k]);
      if CutUnnoticed(text, msg, k) then r.End? else r.Broken?
  {
    var b := Frame(text, msg)[..k];
    if text {
      assert b == msg[..k];
    } else if k < |Uvarint(|msg|)| {
      assert b == Uvarint(|msg|)[..k];
      CutUvarint(|msg|, 0, k);
    } else {
      var part := msg[..k - |Uvarint(|msg|)|];
      assert b == Uvarint(|msg|) + part;
      SliceLengthsFit(|msg|);
      UvarintReadsBack(|msg|, 0, part);
    }
  }

  /** The number of messages that are whole in the first k bytes. */
  function Whole(text: bool, msgs: seq<Bytes>, k: nat): (n: nat)
    ensures n <= |msgs|
  {
    if msgs == [] || k < |Frame(text, msgs[0])| then 0
    else 1 + Whole(text, msgs[1..], k - |Frame(text, msgs[0])|)
  }

  lemma CutAfterFirst(text: bool, msgs: seq<Bytes>, k: nat)
    requires msgs != [] && |Frame(text, msgs[0])| <= k <= |Frames(text, msgs)|
    ensures Frames(text, msgs)[..k] == Frame(text, msgs[0]) + Frames(text, msgs[1..])[..k - |Frame(text, msgs[0])|]
  {
  }

  /** What is left of the first k bytes once the whole messages are taken from them. */
  function Remainder(text: bool, msgs: seq<Bytes>, k: nat): (r: nat)
    ensures r <= k
  {
    if msgs == [] || k < |Frame(text, msgs[0])| then k
    else Remainder(text, msgs[1..], k - |Frame(text, msgs[0])|)
  }

  lemma CutInFirst(text: bool, msgs: seq<Bytes>, k: nat)
    requires msgs != [] && Carried(text, msgs[0]) && k < |Frame(text, msgs[0])| && k <= |Frames(text, msgs)|
    ensures FetchAll(text, Frames(text, msgs)[..k]) == Reading([], !CutUnnoticed(text, msgs[0], k))
  {
    assert Frames(text, msgs)[..k] == Frame(text, msgs[0])[..k];
    CutFrame(text, msgs[0], k);
  }

  lemma CutLater(text: bool, msgs: seq<Bytes>, k: nat)
    requires msgs != [] && Carried(text, msgs[0]) && |Frame(text, msgs[0])| <= k <= |Frames(text, msgs)|
    ensures FetchAll(text, Frames(text, msgs)[..k])
         == Prepend([msgs[0]], FetchAll(text, Frames(text, msgs[1..])[..k - |Frame(text, msgs[0])|]))
  {
    CutAfterFirst(text, msgs, k);
    FetchAllFrame(text, msgs[0], Frames(text, msgs[1..])[..k - |Frame(text, msgs[0])|]);
  }

  lemma TakeOneMore(msgs: seq<Bytes>, n: nat)
    requires n < |msgs|
    ensures msgs[..n + 1] == [msgs[0]] + msgs[1..][..n]
  {
  }

  /** A file cut at any byte gives its whole messages and never a wrong one. */
  lemma {:induction false} CutFileGivesWholeMessages(text: bool, msgs: seq<Bytes>, k: nat)
    requires AllCarried(text, msgs) && k <= |Frames(text, msgs)|
    ensures FetchAll(text, Frames(text, msgs)[..k]).msgs == msgs[..Whole(text, msgs, k)]
    decreases |msgs|
  {
    if msgs == [] {
    } else if k < |Frame(text, msgs[0])| {
      CutInFirst(text, msgs, k);
    } else {
      CutLater(text, msgs, k);
      CutFileGivesWholeMessages(text, msgs[1..], k - |Frame(text, msgs[0])|);
      TakeOneMore(msgs, Whole(text, msgs[1..], k - |Frame(text, msgs[0])|));
    }
  }

  lemma FramesOfOneMore(text: bool, msgs: seq<Bytes>, n: nat)
    requires n < |msgs|
    ensures |Frames(text, msgs[..n + 1])| == |Frame(text, msgs[0])| + |Frames(text, msgs[1..][..n])|
  {
    TakeOneMore(msgs, n);
    assert msgs[..n + 1][1..] == msgs[1..][..n];
  }

  /** Whole and Remainder say where the cut is. */
  lemma {:induction false} WhereTheCutIs(text: bool, msgs: seq<Bytes>, k: nat)
    requires k <= |Frames(text, msgs)|
    ensures k == |Frames(text, msgs[..Whole(text, msgs, k)])| + Remainder(text, msgs, k)
    ensures Whole(text, msgs, k) < |msgs| ==> Remainder(text, msgs, k) < |Frame(text, msgs[Whole(text, msgs, k)])|
    ensures Whole(text, msgs, k) == |msgs| ==> Remainder(text, msgs, k) == 0
    decreases |msgs|
  {
    hide Frame;
    if msgs != [] && k >= |Frame(text, msgs[0])| {
      var left := k - |Frame(text, msgs[0])|;
      WhereTheCutIs(text, msgs[1..], left);
      FramesOfOneMore(text, msgs, Whole(text, msgs[1..], left));
    }
  }

  /** The consumer is told that the file is cut except when CutUnnoticed. */
  lemma {:induction false} CutFileIsReportedExactlyWhen(text: bool, msgs: seq<Bytes>, k: nat)
    requires AllCarried(text, msgs) && k <= |Frames(text, msgs)|
    ensures FetchAll(text, Frames(text, msgs)[..k]).broken
       <==> Whole(text, msgs, k) < |msgs|
            && !CutUnnoticed(text, msgs[Whole(text, msgs, k)], Remainder(text, msgs, k))
    decreases |msgs|
  {
    if msgs == [] {
    } else if k < |Frame(text, msgs[0])| {
      CutInFirst(text, msgs, k);
    } else {
      CutLater(text, msgs, k);
      CutFileIsReportedExactlyWhen(text, msgs[1..], k - |Frame(text, msgs[0])|);
    }
  }
}
