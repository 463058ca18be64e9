/**
 The header at the start of a file (writeHeader and readHeader in pipe/header.go), for files that are neither
 encrypted nor compressed: one line of JSON, rewritten in place when the file is closed.
 */
module FileHeader {
  import opened Encodings
  import opened Framing
  import opened Json
  import opened Options

  /** `hmac` is the hexadecimal text of the digest of the body. */
  datatype Header = Header(format: Bytes, schema: Bytes, delimited: bool, hmac: Bytes)

  const NO_HEADER := Header([], [], false, [])

  // "Format", "Schema", "Delimited" and "HMAC-SHA256"
  const FORMAT: Bytes := [70, 111, 114, 109, 97, 116]
  const SCHEMA: Bytes := [83, 99, 104, 101, 109, 97]
  const DELIMITED: Bytes := [68, 101, 108, 105, 109, 105, 116, 101, 100]
  const HMAC: Bytes := [72, 77, 65, 67, 45, 83, 72, 65, 50, 53, 54]

  /** The members before the digest: all but the format are left out when they are empty. */
  function Front(h: Header): (ms: seq<Member>)
    ensures ms != []
  {
    [Member(FORMAT, Text(h.format))]
    + (if h.schema != [] then [Member(SCHEMA, Text(ToBase64(h.schema)))] else [])
    + (if h.delimited then [Member(DELIMITED, True)] else [])
  }

  function Members(h: Header): (ms: seq<Member>)
    ensures ms != []
  {
    Front(h) + if h.hmac != [] then [Member(HMAC, Text(h.hmac))] else []
  }

  /** What writeHeader writes. */
  function Marshal(h: Header): Bytes {
    Print(Members(h)) + [DELIMITER]
  }

  /** Decoding one member: unknown names are skipped, a value of the wrong kind is an error. */
  function Fill(h: Header, m: Member): Option<Header> {
    if m.name == FORMAT then
      if m.value.Text? then Some(h.(format := m.value.text)) else None
    else if m.name == SCHEMA then
      if m.value.True? then None else
        match FromBase64(m.value.text)
        case Some(schema) => Some(h.(schema := schema))
        case None => None
    else if m.name == DELIMITED then
      if m.value.True? then Some(h.(delimited := true)) else None
    else if m.name == HMAC then
      if m.value.Text? then Some(h.(hmac := m.value.text)) else None
    else
      Some(h)
  }

  function FillAll(h: Header, ms: seq<Member>): Option<Header>
    decreases |ms|
  {
    if ms == [] then Some(h)
    else
      match Fill(h, ms[0])
      case None => None
      case Some(filled) => FillAll(filled, ms[1..])
  }

  /** What readHeader returns, and the bytes it leaves to read. */
  function ReadHeader(b: Bytes): Option<(Header, Bytes)> {
    var n := Line(b);
    if n == |b| then None
    else
      match Read(b[..n])
      case None => None
      case Some((ms, after)) =>
        if after != [] then None
        else
          match FillAll(NO_HEADER, ms)
          case None => None
          case Some(h) => Some((h, b[n + 1..]))
  }

  // ---------------------------------------------------------------------------------------------
  // Reading back
  // ---------------------------------------------------------------------------------------------

  /** Headers the producer writes: the name of a format and a digest in hexadecimal are ASCII text. */
  predicate Writable(h: Header) {
    Ascii(h.format) && Ascii(h.hmac)
  }

  lemma {:induction false} Base64IsAscii(b: Bytes)
    ensures Ascii(ToBase64(b))
  {
    if |b| >= 3 {
      Base64IsAscii(b[3..]);
    }
  }

  lemma {:induction false} HexIsPlain(b: Bytes)
    ensures forall i :: 0 <= i < |Hex(b)| ==> Plain(Hex(b)[i]) && Hex(b)[i] < 128
  {
    if b != [] {
      HexIsPlain(b[1..]);
    }
  }

  lemma MembersArePrintable(h: Header)
    requires Writable(h)
    ensures forall i :: 0 <= i < |Members(h)| ==> Printable(Members(h)[i])
  {
    Base64IsAscii(h.schema);
  }

  lemma {:induction false} FillAllAppend(h: Header, a: seq<Member>, b: seq<Member>, filled: Header)
    requires FillAll(h, a) == Some(filled)
    ensures FillAll(h, a + b) == FillAll(filled, b)
    decreases |a|
  {
    if a == [] {
      assert a + b == b;
    } else {
      assert (a + b)[1..] == a[1..] + b;
      FillAllAppend(Fill(h, a[0]).value, a[1..], b, filled);
    }
  }

  lemma FillOne(h: Header, m: Member, filled: Header)
    requires Fill(h, m) == Some(filled)
    ensures FillAll(h, [m]) == Some(filled)
  {
    assert [m][1..] == [];
  }

  lemma NamesDiffer()
    ensures FORMAT != SCHEMA && FORMAT != DELIMITED && FORMAT != HMAC
    ensures SCHEMA != DELIMITED && SCHEMA != HMAC && DELIMITED != HMAC
  {
    assert FORMAT[0] != SCHEMA[0];
    assert |FORMAT| == 6 && |SCHEMA| == 6 && |DELIMITED| == 9 && |HMAC| == 11;
  }

  lemma FormatFills(format: Bytes)
    ensures FillAll(NO_HEADER, [Member(FORMAT, Text(format))]) == Some(Header(format, [], false, []))
  {
    FillOne(NO_HEADER, Member(FORMAT, Text(format)), Header(format, [], false, []));
  }

  lemma SchemaFills(h: Header, schema: Bytes)
    ensures FillAll(h, [Member(SCHEMA, Text(ToBase64(schema)))]) == Some(h.(schema := schema))
  {
    NamesDiffer();
    Base64ReadsBack(schema);
    FillOne(h, Member(SCHEMA, Text(ToBase64(schema))), h.(schema := schema));
  }

  lemma DelimitedFills(h: Header)
    ensures FillAll(h, [Member(DELIMITED, True)]) == Some(h.(delimited := true))
  {
    NamesDiffer();
    FillOne(h, Member(DELIMITED, True), h.(delimited := true));
  }

  lemma DigestFills(h: Header, hmac: Bytes)
    ensures FillAll(h, [Member(HMAC, Text(hmac))]) == Some(h.(hmac := hmac))
  {
    NamesDiffer();
    FillOne(h, Member(HMAC, Text(hmac)), h.(hmac := hmac));
  }

  lemma FrontFills(h: Header)
    ensures FillAll(NO_HEADER, Front(h)) == Some(h.(hmac := []))
  {
    var a := [Member(FORMAT, Text(h.format))];
    var b := if h.schema != [] then [Member(SCHEMA, Text(ToBase64(h.schema)))] else [];
    var c := if h.delimited then [Member(DELIMITED, True)] else [];
    var h1 := Header(h.format, [], false, []);
    var h2 := h1.(schema := h.schema);
    FormatFills(h.format);
    SchemaFills(h1, h.schema);
    FillAllAppend(NO_HEADER, a, b, h1);
    DelimitedFills(h2);
    FillAllAppend(NO_HEADER, a + b, c, h2);
  }

  lemma MembersFill(h: Header)
    ensures FillAll(NO_HEADER, Members(h)) == Some(h)
  {
    FrontFills(h);
    DigestFills(h.(hmac := []), h.hmac);
    FillAllAppend(NO_HEADER, Front(h), if h.hmac != [] then [Member(HMAC, Text(h.hmac))] else [], h.(hmac := []));
  }

  lemma ReadHeaderStep(b: Bytes, text: Bytes, ms: seq<Member>, h: Header, body: Bytes)
    requires b == text + [DELIMITER] + body && DELIMITER !in text
    requires Read(text) == Some((ms, [])) && FillAll(NO_HEADER, ms) == Some(h)
    ensures ReadHeader(b) == Some((h, body))
  {
    LineOf(text, body);
    assert b[..|text|] == text && b[|text| + 1..] == body;
  }

  /** readHeader recovers the header that was written and stops right before the body. */
  lemma HeaderReadsBack(h: Header, body: Bytes)
    requires Writable(h)
    ensures ReadHeader(Marshal(h) + body) == Some((h, body))
  {
    MembersArePrintable(h);
    ReadsBack(Members(h), []);
    assert Print(Members(h)) + [] == Print(Members(h));
    MembersOnOneLine(Members(h));
    MembersFill(h);
    ReadHeaderStep(Marshal(h) + body, Print(Members(h)), Members(h), h, body);
  }

  // ---------------------------------------------------------------------------------------------
  // Rewriting the header of a written file
  // ---------------------------------------------------------------------------------------------

  /** A write of `data` at a position of a file; a gap before it is filled with zeros. */
  function WriteAt(content: Bytes, position: nat, data: Bytes): Bytes {
    (if position <= |content| then content[..position] else content + Zeros(position - |content|))
    + data
    + if position + |data| <= |content| then content[position + |data|..] else []
  }

  lemma {:induction false} LastMemberDecidesLength(front: seq<Member>, a: Member, b: Member)
    requires |PrintMember(a)| == |PrintMember(b)|
    ensures |PrintMembers(front + [a])| == |PrintMembers(front + [b])|
    decreases |front|
  {
    if front == [] {
      assert front + [a] == [a] && front + [b] == [b];
    } else {
      assert (front + [a])[1..] == front[1..] + [a] && (front + [b])[1..] == front[1..] + [b];
      LastMemberDecidesLength(front[1..], a, b);
    }
  }

  /** Digests of one size give headers of one length. */
  lemma DigestDoesNotChangeLength(h: Header, a: Bytes, b: Bytes)
    requires |a| == |b| > 0
    ensures |Marshal(h.(hmac := Hex(a)))| == |Marshal(h.(hmac := Hex(b)))|
  {
    HexIsPlain(a);
    HexIsPlain(b);
    PlainIsNotEscaped(Hex(a));
    PlainIsNotEscaped(Hex(b));
    LastMemberDecidesLength(Front(h), Member(HMAC, Text(Hex(a))), Member(HMAC, Text(Hex(b))));
  }

  /** Writing another header over the one of a file leaves its body alone exactly when it is as long. */
  lemma RewriteKeepsBodyExactlyWhen(written: Header, rewritten: Header, body: Bytes)
    ensures WriteAt(Marshal(written) + body, 0, Marshal(rewritten)) == Marshal(rewritten) + body
       <==> |Marshal(rewritten)| == |Marshal(written)|
            || (body == [] && |Marshal(rewritten)| > |Marshal(written)|)
  {
    OverwriteKeepsRestExactlyWhen(Marshal(written), body, Marshal(rewritten));
  }

  lemma OverwriteKeepsRestExactlyWhen(start: Bytes, body: Bytes, data: Bytes)
    ensures WriteAt(start + body, 0, data) == data + body
       <==> |data| == |start| || (body == [] && |data| > |start|)
  {
    var content := start + body;
    if |data| == |start| {
      assert content[|data|..] == body;
    } else if WriteAt(content, 0, data) == data + body {
      assert |WriteAt(content, 0, data)| == |data| + |body|;
    }
  }
}
