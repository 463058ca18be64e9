/** Standard base64 with padding and lower-case hexadecimal, as the header of a file uses them. */
module Encodings {
  import opened Framing
  import opened Options

  function Char64(v: nat): Byte
    requires v < 64
  {
    if v < 26 then 65 + v else if v < 52 then 71 + v else if v < 62 then v - 4 else if v == 62 then 43 else 47
  }

  function Value64(c: Byte): (r: Option<nat>)
    ensures r.Some? ==> r.value < 64
  {
    if 65 <= c <= 90 then Some(c - 65)
    else if 97 <= c <= 122 then Some(c - 71)
    else if 48 <= c <= 57 then Some(c + 4)
    else if c == 43 then Some(62)
    else if c == 47 then Some(63)
    else None
  }

  const PAD: Byte := 61

  function ToBase64(b: Bytes): Bytes {
    if b == [] then []
    else if |b| == 1 then [Char64(b[0] / 4), Char64(b[0] % 4 * 16), PAD, PAD]
    else if |b| == 2 then
      [Char64(b[0] / 4), Char64(b[0] % 4 * 16 + b[1] / 16), Char64(b[1] % 16 * 4), PAD]
    else
      [Char64(b[0] / 4), Char64(b[0] % 4 * 16 + b[1] / 16), Char64(b[1] % 16 * 4 + b[2] / 64), Char64(b[2] % 64)]
      + ToBase64(b[3..])
  }

  /** The three bytes four characters stand for, or fewer when the last characters are padding. */
  function Quad(c0: Byte, c1: Byte, c2: Byte, c3: Byte): Option<Bytes> {
    match (Value64(c0), Value64(c1), Value64(c2), Value64(c3))
    case (Some(x), Some(y), Some(z), Some(w)) => Some([x * 4 + y / 16, y % 16 * 16 + z / 4, z % 4 * 64 + w])
    case (Some(x), Some(y), Some(z), None) => if c3 == PAD then Some([x * 4 + y / 16, y % 16 * 16 + z / 4]) else None
    case (Some(x), Some(y), None, None) => if c2 == PAD && c3 == PAD then Some([x * 4 + y / 16]) else None
    case _ => None
  }

  function FromBase64(s: Bytes): Option<Bytes> {
    if s == [] then Some([])
    else if |s| < 4 then None
    else
      match (Quad(s[0], s[1], s[2], s[3]), FromBase64(s[4..]))
      case (Some(b), Some(rest)) => if |b| < 3 && |s| > 4 then None else Some(b + rest)
      case _ => None
  }

  lemma CharsReadBack(v: nat)
    requires v < 64
    ensures Value64(Char64(v)) == Some(v)
  {
  }

  lemma Sextets(a: Byte, b: Byte, c: Byte)
    ensures a / 4 * 4 + (a % 4 * 16 + b / 16) / 16 == a
    ensures (a % 4 * 16 + b / 16) % 16 * 16 + (b % 16 * 4 + c / 64) / 4 == b
    ensures (b % 16 * 4 + c / 64) % 4 * 64 + c % 64 == c
  {
    var y, z := a % 4 * 16 + b / 16, b % 16 * 4 + c / 64;
    assert y / 16 == a % 4 && y % 16 == b / 16;
    assert z / 4 == b % 16 && z % 4 == c / 64;
  }

  lemma ThreeBytes(a: Byte, b: Byte, c: Byte)
    ensures Quad(Char64(a / 4), Char64(a % 4 * 16 + b / 16), Char64(b % 16 * 4 + c / 64), Char64(c % 64))
         == Some([a, b, c])
  {
    Sextets(a, b, c);
    CharsReadBack(a / 4);
    CharsReadBack(a % 4 * 16 + b / 16);
    CharsReadBack(b % 16 * 4 + c / 64);
    CharsReadBack(c % 64);
  }

  lemma TwoBytes(a: Byte, b: Byte)
    ensures Quad(Char64(a / 4), Char64(a % 4 * 16 + b / 16), Char64(b % 16 * 4), PAD) == Some([a, b])
  {
    Sextets(a, b, 0);
    CharsReadBack(a / 4);
    CharsReadBack(a % 4 * 16 + b / 16);
    CharsReadBack(b % 16 * 4);
  }

  lemma OneByte(a: Byte)
    ensures Quad(Char64(a / 4), Char64(a % 4 * 16), PAD, PAD) == Some([a])
  {
    Sextets(a, 0, 0);
    CharsReadBack(a / 4);
    CharsReadBack(a % 4 * 16);
  }

  lemma FirstQuad(c0: Byte, c1: Byte, c2: Byte, c3: Byte, s: Bytes, b: Bytes, rest: Bytes)
    requires Quad(c0, c1, c2, c3) == Some(b) && FromBase64(s) == Some(rest)
    requires |b| < 3 ==> s == []
    ensures FromBase64([c0, c1, c2, c3] + s) == Some(b + rest)
  {
    assert ([c0, c1, c2, c3] + s)[4..] == s;
  }

  lemma LastQuad(c0: Byte, c1: Byte, c2: Byte, c3: Byte, b: Bytes)
    requires Quad(c0, c1, c2, c3) == Some(b)
    ensures FromBase64([c0, c1, c2, c3]) == Some(b)
  {
    FirstQuad(c0, c1, c2, c3, [], b, []);
    assert [c0, c1, c2, c3] + [] == [c0, c1, c2, c3] && b + [] == b;
  }

  lemma OneReadsBack(b: Bytes)
    requires |b| == 1
    ensures FromBase64(ToBase64(b)) == Some(b)
  {
    assert b == [b[0]];
    OneByte(b[0]);
    LastQuad(Char64(b[0] / 4), Char64(b[0] % 4 * 16), PAD, PAD, b);
  }

  lemma TwoReadBack(b: Bytes)
    requires |b| == 2
    ensures FromBase64(ToBase64(b)) == Some(b)
  {
    assert b == [b[0], b[1]];
    TwoBytes(b[0], b[1]);
    LastQuad(Char64(b[0] / 4), Char64(b[0] % 4 * 16 + b[1] / 16), Char64(b[1] % 16 * 4), PAD, b);
  }

  lemma LongReadsBack(b: Bytes, t: Bytes, c0: Byte, c1: Byte, c2: Byte, c3: Byte, s: Bytes)
    requires |b| >= 3 && t == [c0, c1, c2, c3] + s && FromBase64(s) == Some(b[3..])
    requires Quad(c0, c1, c2, c3) == Some([b[0], b[1], b[2]])
    ensures FromBase64(t) == Some(b)
  {
    assert b == [b[0], b[1], b[2]] + b[3..];
    FirstQuad(c0, c1, c2, c3, s, [b[0], b[1], b[2]], b[3..]);
  }

  lemma {:induction false} Base64ReadsBack(b: Bytes)
    ensures FromBase64(ToBase64(b)) == Some(b)
  {
    if |b| == 1 {
      OneReadsBack(b);
    } else if |b| == 2 {
      TwoReadBack(b);
    } else if b != [] {
      Base64ReadsBack(b[3..]);
      ThreeBytes(b[0], b[1], b[2]);
      LongReadsBack(b, ToBase64(b), Char64(b[0] / 4), Char64(b[0] % 4 * 16 + b[1] / 16),
        Char64(b[1] % 16 * 4 + b[2] / 64), Char64(b[2] % 64), ToBase64(b[3..]));
    }
  }

  // ---------------------------------------------------------------------------------------------
  // Hexadecimal
  // ---------------------------------------------------------------------------------------------

  function HexDigit(v: nat): Byte
    requires v < 16
  {
    if v < 10 then 48 + v else 87 + v
  }

  function Hex(b: Bytes): (s: Bytes)
    ensures |s| == 2 * |b|
  {
    if b == [] then [] else [HexDigit(b[0] / 16), HexDigit(b[0] % 16)] + Hex(b[1..])
  }

  lemma {:induction false} HexIsInjective(a: Bytes, b: Bytes)
    requires Hex(a) == Hex(b)
    ensures a == b
  {
    assert |a| == |b|;
    if a != [] {
      assert Hex(a)[0] == Hex(b)[0] && Hex(a)[1] == Hex(b)[1];
      assert a[0] / 16 == b[0] / 16 && a[0] % 16 == b[0] % 16;
      assert Hex(a)[2..] == Hex(a[1..]) && Hex(b)[2..] == Hex(b[1..]);
      HexIsInjective(a[1..], b[1..]);
      assert a == [a[0]] + a[1..] && b == [b[0]] + b[1..];
    }
  }
}
