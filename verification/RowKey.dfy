/** The text a row is keyed by in the output (GetRowKey and GetCommonFormatKey in encoder/encoder.go). */
module RowKey {
  import opened ColumnFilter
  import opened FileNames
  import opened Options

  /** The verb %v for the values of key columns. */
  function Shown(v: Value): string {
    match v
    case Null => "<nil>"
    case Untyped(text) => text
    case Typed(text, _) => text
  }

  function AllShown(key: seq<Value>): seq<string> {
    seq(|key|, i requires 0 <= i < |key| => Shown(key[i]))
  }

  function Prefixed(text: string): string {
    Padded(|text|, 1) + text
  }

  /** Every text behind its length. */
  function KeyText(texts: seq<string>): string {
    if texts == [] then "" else Prefixed(texts[0]) + KeyText(texts[1..])
  }

  lemma {:induction false} KeyTextAppend(texts: seq<string>, text: string)
    ensures KeyText(texts + [text]) == KeyText(texts) + Prefixed(text)
  {
    if texts == [] {
      assert texts + [text] == [text] && [text][1..] == [];
    } else {
      assert (texts + [text])[1..] == texts[1..] + [text];
      KeyTextAppend(texts[1..], text);
    }
  }

  lemma KeyFromStep(columns: seq<Column>, row: Option<Row>, i: nat)
    requires i < |columns| && (row.Some? ==> |row.value| >= |columns|)
    ensures KeyFrom(columns, row, i)
         == (if columns[i].primary then [if row.Some? then row.value[i] else Untyped(columns[i].name)] else [])
            + KeyFrom(columns, row, i + 1)
  {
  }

  /** The key text of a row, or of the names of its key columns, is that of the event made from the row. */
  method GetRowKey(columns: seq<Column>, row: Option<Row>) returns (key: string)
    requires row.Some? ==> |row.value| >= |columns|
    ensures key == KeyText(AllShown(KeyFrom(columns, row, 0)))
  {
    hide Prefixed, KeyFrom, Shown;
    key := "";
    var i := 0;
    ghost var done: seq<Value> := [];
    while i < |columns|
      invariant 0 <= i <= |columns|
      invariant done + KeyFrom(columns, row, i) == KeyFrom(columns, row, 0)
      invariant key == KeyText(AllShown(done))
    {
      KeyFromStep(columns, row, i);
      if columns[i].primary {
        var v := if row.None? then Untyped(columns[i].name) else row.value[i];
        var k := Shown(v);
        key := key + (Padded(|k|, 1) + k);
        assert Padded(|k|, 1) + k == Prefixed(k) by { PrefixedIs(k); }
        KeyTextAppend(AllShown(done), k);
        assert AllShown(done + [v]) == AllShown(done) + [k];
        done := done + [v];
      }
      i := i + 1;
    }
    KeyFromEnd(columns, row);
    assert done + [] == done;
  }

  lemma PrefixedIs(text: string)
    ensures Padded(|text|, 1) + text == Prefixed(text)
  {
  }

  lemma KeyFromEnd(columns: seq<Column>, row: Option<Row>)
    requires row.Some? ==> |row.value| >= |columns|
    ensures KeyFrom(columns, row, |columns|) == []
  {
  }

  method GetCommonFormatKey(e: Event) returns (key: string)
    ensures key == KeyText(AllShown(e.key))
  {
    hide Prefixed, Shown;
    key := "";
    var i := 0;
    while i < |e.key|
      invariant 0 <= i <= |e.key|
      invariant key == KeyText(AllShown(e.key[..i]))
    {
      var s := Shown(e.key[i]);
      key := key + (Padded(|s|, 1) + s);
      PrefixedIs(s);
      KeyTextAppend(AllShown(e.key[..i]), s);
      assert AllShown(e.key[..i + 1]) == AllShown(e.key[..i]) + [s];
      i := i + 1;
    }
    assert e.key[..|e.key|] == e.key;
  }

  // ---------------------------------------------------------------------------------------------
  // Which keys have texts of their own
  // ---------------------------------------------------------------------------------------------

  lemma {:induction false} MoreDigits(m: nat, n: nat)
    requires m <= n
    ensures |Decimal(m)| <= |Decimal(n)|
  {
    if m > 0 {
      MoreDigits(m / 10, n / 10);
    }
  }

  lemma LongerTextIsLonger(a: string, b: string)
    requires |a| < |b|
    ensures |Prefixed(a)| < |Prefixed(b)|
  {
    MoreDigits(|a| / 10, |b| / 10);
  }

  /** A key of one column never shares its text with another. */
  lemma OneColumnIsUnambiguous(a: string, b: string)
    requires Prefixed(a) == Prefixed(b)
    ensures a == b
  {
    if |a| < |b| {
      LongerTextIsLonger(a, b);
    } else if |b| < |a| {
      LongerTextIsLonger(b, a);
    } else {
      var n := |Padded(|a|, 1)|;
      assert Prefixed(a)[n..] == a && Prefixed(b)[n..] == b;
    }
  }

  lemma ShortPrefix(text: string)
    requires |text| < 10
    ensures Prefixed(text) == [Digit(|text|)] + text
  {
    assert Padded(|text|, 1) == Decimal(0) + [Digit(|text|)];
  }

  lemma ShortFirstText(a: string, b: string, x: string, y: string)
    requires |a| < 10 && |b| < 10 && Prefixed(a) + x == Prefixed(b) + y
    ensures a == b && x == y
  {
    ShortPrefix(a);
    ShortPrefix(b);
    var l, r := Prefixed(a) + x, Prefixed(b) + y;
    assert l[0] == Digit(|a|) && r[0] == Digit(|b|);
    assert l[1..][..|a|] == a && r[1..][..|b|] == b;
    assert l[1 + |a|..] == x && r[1 + |b|..] == y;
  }

  /** With texts shorter than ten characters in all key columns but the last, no two keys share their text. */
  lemma {:induction false} ShortKeysAreUnambiguous(a: seq<string>, b: seq<string>)
    requires |a| == |b| && KeyText(a) == KeyText(b)
    requires forall i :: 0 <= i < |a| - 1 ==> |a[i]| < 10 && |b[i]| < 10
    ensures a == b
    decreases |a|
  {
    hide Prefixed;
    if |a| == 1 {
      assert KeyText(a) == Prefixed(a[0]) && KeyText(b) == Prefixed(b[0]);
      OneColumnIsUnambiguous(a[0], b[0]);
    } else if a != [] {
      ShortFirstText(a[0], b[0], KeyText(a[1..]), KeyText(b[1..]));
      ShortKeysAreUnambiguous(a[1..], b[1..]);
      assert a == [a[0]] + a[1..] && b == [b[0]] + b[1..];
    }
  }

  /** Values of one column that are not null: raw texts, or values of the same type. */
  predicate SameForm(a: Value, b: Value) {
    (a.Untyped? && b.Untyped?) || (a.Typed? && b.Typed? && a.dataType == b.dataType)
  }

  /** Rows without nulls in their key and with short texts before the last have the same key text only for the same key. */
  lemma ShortKeysTellValuesApart(a: seq<Value>, b: seq<Value>)
    requires |a| == |b| && forall i :: 0 <= i < |a| ==> SameForm(a[i], b[i])
    requires forall i :: 0 <= i < |a| - 1 ==> |Shown(a[i])| < 10 && |Shown(b[i])| < 10
    ensures KeyText(AllShown(a)) == KeyText(AllShown(b)) <==> a == b
  {
    hide KeyText;
    if KeyText(AllShown(a)) == KeyText(AllShown(b)) {
      ShortKeysAreUnambiguous(AllShown(a), AllShown(b));
      forall i | 0 <= i < |a|
        ensures a[i] == b[i]
      {
        assert AllShown(a)[i] == AllShown(b)[i];
      }
    }
  }

  /** In a key of one column, only null and the text it is written as share their key text. */
  lemma NullSharesKeyText(a: Value, b: Value)
    requires a.Null? || b.Null? || SameForm(a, b)
    ensures KeyText(AllShown([a])) == KeyText(AllShown([b])) && a != b
       <==> (a.Null? && !b.Null? && b.text == "<nil>") || (b.Null? && !a.Null? && a.text == "<nil>")
  {
    assert AllShown([a]) == [Shown(a)] && AllShown([b]) == [Shown(b)];
    if KeyText([Shown(a)]) == KeyText([Shown(b)]) {
      ShortKeysAreUnambiguous([Shown(a)], [Shown(b)]);
      assert [Shown(a)][0] == [Shown(b)][0];
    }
  }

  /** One character more, and keys of two columns can share their text. */
  lemma TenCharactersCanCollide()
    ensures KeyText(["0", "xxxxxxxx1y"]) == KeyText(["10xxxxxxxx", "y"])
  {
    var a, b := ["0", "xxxxxxxx1y"], ["10xxxxxxxx", "y"];
    assert a[1..] == ["xxxxxxxx1y"] && b[1..] == ["y"];
    assert Decimal(1) == "1" && Padded(1, 1) == "1" && Padded(10, 1) == "10";
    assert KeyText(a) == "10" + ("10" + "xxxxxxxx1y");
    assert KeyText(b) == "1010xxxxxxxx" + "1y";
  }

  /** No two keys of this many columns share their text while all but the last text keep within the limit. */
  ghost predicate Unambiguous(columns: nat, limit: nat) {
    forall a: seq<string>, b: seq<string> ::
      (|a| == columns && |b| == columns && KeyText(a) == KeyText(b) && Within(a, limit) && Within(b, limit))
      ==> a == b
  }

  ghost predicate Within(texts: seq<string>, limit: nat) {
    forall i :: 0 <= i < |texts| - 1 ==> |texts[i]| <= limit
  }

  function Empties(n: nat): (texts: seq<string>)
    ensures |texts| == n
    ensures forall i :: 0 <= i < n ==> texts[i] == ""
  {
    if n == 0 then [] else [""] + Empties(n - 1)
  }

  lemma {:induction false} SameBehindEmpties(n: nat, a: seq<string>, b: seq<string>)
    requires KeyText(a) == KeyText(b)
    ensures KeyText(Empties(n) + a) == KeyText(Empties(n) + b)
  {
    hide Prefixed;
    if n == 0 {
      assert Empties(0) + a == a && Empties(0) + b == b;
    } else {
      SameBehindEmpties(n - 1, a, b);
      assert (Empties(n) + a)[1..] == Empties(n - 1) + a && (Empties(n) + b)[1..] == Empties(n - 1) + b;
    }
  }

  /** For every number of columns from two on there are keys that share their text. */
  lemma KeysCollide(columns: nat, limit: nat)
    requires columns >= 2 && limit >= 10
    ensures !Unambiguous(columns, limit)
  {
    hide KeyText;
    var x, y := ["0", "xxxxxxxx1y"], ["10xxxxxxxx", "y"];
    TenCharactersCanCollide();
    SameBehindEmpties(columns - 2, x, y);
    var a, b := Empties(columns - 2) + x, Empties(columns - 2) + y;
    assert a[columns - 2] == "0" && |b[columns - 2]| == 10;
    assert Within(a, limit) && Within(b, limit);
  }

  /** Key texts tell keys apart exactly for one column, or with texts below ten characters before the last. */
  lemma UnambiguousExactlyWhen(columns: nat, limit: nat)
    ensures Unambiguous(columns, limit) <==> columns <= 1 || limit < 10
  {
    if columns <= 1 || limit < 10 {
      forall a: seq<string>, b: seq<string> |
        |a| == columns && |b| == columns && KeyText(a) == KeyText(b) && Within(a, limit) && Within(b, limit)
        ensures a == b
      {
        ShortKeysAreUnambiguous(a, b);
      }
    } else {
      KeysCollide(columns, limit);
    }
  }
}
