/**
 The JSON objects a file header is stored as: text and true members in the escaping of Go's encoding/json,
 for ASCII text.
 */
module Json {
  import opened Encodings
  import opened Framing
  import opened Options

  datatype Value = Text(text: Bytes) | True
  datatype Member = Member(name: Bytes, value: Value)

  const QUOTE: Byte := 34
  const BACKSLASH: Byte := 92

  predicate Ascii(s: Bytes) {
    forall i :: 0 <= i < |s| ==> s[i] < 128
  }

  function HexValue(c: Byte): Option<Byte> {
    if 48 <= c <= 57 then Some(c - 48) else if 97 <= c <= 102 then Some(c - 87) else None
  }

  predicate Plain(c: Byte) {
    32 <= c && c !in [QUOTE, BACKSLASH, 60, 62, 38]
  }

  /** One character inside quotes: the markup characters < > & are escaped as well. */
  function Escape(c: Byte): (e: Bytes)
    ensures e != []
  {
    if Plain(c) then [c]
    else if c == QUOTE || c == BACKSLASH then [BACKSLASH, c]
    else if c == 10 then [BACKSLASH, 110]
    else if c == 13 then [BACKSLASH, 114]
    else if c == 9 then [BACKSLASH, 116]
    else [BACKSLASH, 117, 48, 48, HexDigit(c / 16), HexDigit(c % 16)]
  }

  function EscapeAll(s: Bytes): Bytes {
    if s == [] then [] else Escape(s[0]) + EscapeAll(s[1..])
  }

  function Quoted(s: Bytes): Bytes {
    [QUOTE] + EscapeAll(s) + [QUOTE]
  }

  /** Reads the character an escape sequence stands for. */
  function Unescape(b: Bytes): (r: Option<(Byte, Bytes)>)
    requires b != []
    ensures r.Some? ==> |r.value.1| < |b|
  {
    if b[0] != BACKSLASH then
      if b[0] < 32 then None else Some((b[0], b[1..]))
    else if |b| < 2 then None
    else if b[1] in [QUOTE, BACKSLASH, 47] then Some((b[1], b[2..]))
    else if b[1] == 110 then Some((10, b[2..]))
    else if b[1] == 114 then Some((13, b[2..]))
    else if b[1] == 116 then Some((9, b[2..]))
    else if b[1] == 117 && |b| >= 6 && b[2] == 48 && b[3] == 48 then
      match (HexValue(b[4]), HexValue(b[5]))
      case (Some(h), Some(l)) => if h < 8 then Some((16 * h + l, b[6..])) else None
      case _ => None
    else None
  }

  /** The text up to the closing quote. */
  function ReadText(b: Bytes): (r: Option<(Bytes, Bytes)>)
    ensures r.Some? ==> |r.value.1| < |b|
    decreases |b|
  {
    if b == [] then None
    else if b[0] == QUOTE then Some(([], b[1..]))
    else
      match Unescape(b)
      case None => None
      case Some((c, rest)) =>
        match ReadText(rest)
        case None => None
        case Some((s, after)) => Some(([c] + s, after))
  }

  function PrintValue(v: Value): Bytes {
    match v
    case True => [116, 114, 117, 101]
    case Text(s) => Quoted(s)
  }

  function PrintMember(m: Member): Bytes {
    Quoted(m.name) + [58] + PrintValue(m.value)
  }

  /** The members after the opening brace, up to and with the closing one. */
  function PrintMembers(ms: seq<Member>): Bytes
    requires ms != []
  {
    PrintMember(ms[0]) + if |ms| == 1 then [125] else [44] + PrintMembers(ms[1..])
  }

  function Print(ms: seq<Member>): Bytes
    requires ms != []
  {
    [123] + PrintMembers(ms)
  }

  function ReadValue(b: Bytes): (r: Option<(Value, Bytes)>)
    ensures r.Some? ==> |r.value.1| < |b|
  {
    if |b| >= 4 && b[..4] == [116, 114, 117, 101] then Some((True, b[4..]))
    else if b == [] || b[0] != QUOTE then None
    else
      match ReadText(b[1..])
      case None => None
      case Some((s, rest)) => Some((Text(s), rest))
  }

  function ReadMember(b: Bytes): (r: Option<(Member, Bytes)>)
    ensures r.Some? ==> |r.value.1| < |b|
  {
    if b == [] || b[0] != QUOTE then None
    else
      match ReadText(b[1..])
      case None => None
      case Some((name, rest)) =>
        if rest == [] || rest[0] != 58 then None
        else
          match ReadValue(rest[1..])
          case None => None
          case Some((v, after)) => Some((Member(name, v), after))
  }

  function ReadMembers(b: Bytes): (r: Option<(seq<Member>, Bytes)>)
    decreases |b|
  {
    match ReadMember(b)
    case None => None
    case Some((m, rest)) =>
      if rest == [] then None
      else if rest[0] == 125 then Some(([m], rest[1..]))
      else if rest[0] != 44 then None
      else
        match ReadMembers(rest[1..])
        case None => None
        case Some((ms, after)) => Some(([m] + ms, after))
  }

  /** The object at the start of `b` and what follows it. */
  function Read(b: Bytes): Option<(seq<Member>, Bytes)> {
    if b == [] || b[0] != 123 then None else ReadMembers(b[1..])
  }

  // ---------------------------------------------------------------------------------------------
  // Reading back what was printed
  // ---------------------------------------------------------------------------------------------

  predicate Printable(m: Member) {
    Ascii(m.name) && (m.value.Text? ==> Ascii(m.value.text))
  }

  lemma EscapeReadsBack(c: Byte, tail: Bytes)
    requires c < 128
    ensures (Escape(c) + tail)[0] != QUOTE
    ensures Unescape(Escape(c) + tail) == Some((c, tail))
  {
    var b := Escape(c) + tail;
    assert b[|Escape(c)|..] == tail;
    if !Plain(c) && c !in [QUOTE, BACKSLASH, 10, 13, 9] {
      assert HexValue(b[4]) == Some(c / 16) && HexValue(b[5]) == Some(c % 16);
    }
  }

  lemma OneCharacter(b: Bytes, c: Byte, s: Bytes, rest: Bytes, after: Bytes)
    requires c < 128 && b == Escape(c) + rest && ReadText(rest) == Some((s, after))
    ensures ReadText(b) == Some(([c] + s, after))
  {
    EscapeReadsBack(c, rest);
  }

  lemma {:induction false} TextReadsBack(s: Bytes, tail: Bytes)
    requires Ascii(s)
    ensures ReadText(EscapeAll(s) + [QUOTE] + tail) == Some((s, tail))
    decreases |s|
  {
    var b := EscapeAll(s) + [QUOTE] + tail;
    if s == [] {
      assert b[1..] == tail;
    } else {
      var rest := EscapeAll(s[1..]) + [QUOTE] + tail;
      assert b == Escape(s[0]) + rest;
      TextReadsBack(s[1..], tail);
      assert s == [s[0]] + s[1..];
      OneCharacter(b, s[0], s[1..], rest, tail);
    }
  }

  /** The same for a text with both its quotes. */
  lemma QuotedReadsBack(b: Bytes, s: Bytes, tail: Bytes)
    requires Ascii(s) && b == Quoted(s) + tail
    ensures b[0] == QUOTE && ReadText(b[1..]) == Some((s, tail))
  {
    TextReadsBack(s, tail);
    assert b[1..] == EscapeAll(s) + [QUOTE] + tail;
  }

  lemma ValueReadsBack(b: Bytes, v: Value, tail: Bytes)
    requires (v.Text? ==> Ascii(v.text)) && b == PrintValue(v) + tail
    ensures ReadValue(b) == Some((v, tail))
  {
    if v.Text? {
      QuotedReadsBack(b, v.text, tail);
    } else {
      assert b[..4] == [116, 114, 117, 101] && b[4..] == tail;
    }
  }

  lemma MemberReadsBack(b: Bytes, m: Member, tail: Bytes)
    requires Printable(m) && b == PrintMember(m) + tail
    ensures ReadMember(b) == Some((m, tail))
  {
    hide Quoted, PrintValue, ReadValue, ReadText;
    var rest := [58] + (PrintValue(m.value) + tail);
    assert b == Quoted(m.name) + rest;
    QuotedReadsBack(b, m.name, rest);
    assert rest[1..] == PrintValue(m.value) + tail;
    ValueReadsBack(rest[1..], m.value, tail);
  }

  lemma LastMember(b: Bytes, m: Member, tail: Bytes)
    requires ReadMember(b) == Some((m, [125] + tail))
    ensures ReadMembers(b) == Some(([m], tail))
  {
    assert ([125] + tail)[1..] == tail;
  }

  lemma FirstMember(b: Bytes, m: Member, rest: Bytes, ms: seq<Member>, tail: Bytes)
    requires ReadMember(b) == Some((m, [44] + rest)) && ReadMembers(rest) == Some((ms, tail))
    ensures ReadMembers(b) == Some(([m] + ms, tail))
  {
    assert ([44] + rest)[1..] == rest;
  }

  lemma {:induction false} MembersReadBack(ms: seq<Member>, tail: Bytes)
    requires ms != [] && forall i :: 0 <= i < |ms| ==> Printable(ms[i])
    ensures ReadMembers(PrintMembers(ms) + tail) == Some((ms, tail))
    decreases |ms|
  {
    hide PrintMember, ReadMember;
    var b := PrintMembers(ms) + tail;
    if |ms| == 1 {
      assert b == PrintMember(ms[0]) + ([125] + tail);
      MemberReadsBack(b, ms[0], [125] + tail);
      LastMember(b, ms[0], tail);
      assert ms == [ms[0]];
    } else {
      var rest := PrintMembers(ms[1..]) + tail;
      assert b == PrintMember(ms[0]) + ([44] + rest);
      MemberReadsBack(b, ms[0], [44] + rest);
      MembersReadBack(ms[1..], tail);
      FirstMember(b, ms[0], rest, ms[1..], tail);
      assert ms == [ms[0]] + ms[1..];
    }
  }

  lemma ReadsBack(ms: seq<Member>, tail: Bytes)
    requires ms != [] && forall i :: 0 <= i < |ms| ==> Printable(ms[i])
    ensures Read(Print(ms) + tail) == Some((ms, tail))
  {
    assert (Print(ms) + tail)[1..] == PrintMembers(ms) + tail;
    MembersReadBack(ms, tail);
  }

  // ---------------------------------------------------------------------------------------------
  // One line
  // ---------------------------------------------------------------------------------------------

  lemma {:induction false} EscapedOnOneLine(s: Bytes)
    ensures DELIMITER !in EscapeAll(s)
  {
    if s != [] {
      EscapedOnOneLine(s[1..]);
    }
  }

  lemma MemberOnOneLine(m: Member)
    ensures DELIMITER !in PrintMember(m)
  {
    EscapedOnOneLine(m.name);
    if m.value.Text? {
      EscapedOnOneLine(m.value.text);
    }
  }

  lemma {:induction false} MembersOnOneLine(ms: seq<Member>)
    requires ms != []
    ensures DELIMITER !in PrintMembers(ms)
  {
    MemberOnOneLine(ms[0]);
    if |ms| > 1 {
      MembersOnOneLine(ms[1..]);
    }
  }

  lemma {:induction false} PlainIsNotEscaped(s: Bytes)
    requires forall i :: 0 <= i < |s| ==> Plain(s[i])
    ensures EscapeAll(s) == s
  {
    if s != [] {
      PlainIsNotEscaped(s[1..]);
      assert s == [s[0]] + s[1..];
    }
  }
}
