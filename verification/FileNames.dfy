/**
 Names of the files of a topic and the order a consumer visits them in (newFileName and nextFile in
 pipe/file.go).
 */
module FileNames {
  import opened Options

  /** Go's order of strings. */
  predicate Less(a: string, b: string) {
    if b == [] then false
    else if a == [] then true
    else a[0] < b[0] || (a[0] == b[0] && Less(a[1..], b[1..]))
  }

  lemma {:induction false} LessIrreflexive(a: string)
    ensures !Less(a, a)
  {
    if a != [] {
      LessIrreflexive(a[1..]);
    }
  }

  lemma {:induction false} LessTransitive(a: string, b: string, c: string)
    requires Less(a, b) && Less(b, c)
    ensures Less(a, c)
  {
    if a != [] && a[0] == b[0] && b[0] == c[0] {
      LessTransitive(a[1..], b[1..], c[1..]);
    }
  }

  lemma {:induction false} CommonPrefix(p: string, a: string, b: string)
    ensures Less(p + a, p + b) <==> Less(a, b)
    decreases |p|
  {
    if p == [] {
      assert p + a == a && p + b == b;
    } else {
      assert (p + a)[1..] == p[1..] + a && (p + b)[1..] == p[1..] + b;
      CommonPrefix(p[1..], a, b);
    }
  }

  lemma {:induction false} LessExtended(a: string, b: string, x: string)
    requires Less(a, b)
    ensures Less(a, b + x)
    decreases |a|
  {
    if a != [] && a[0] == b[0] {
      assert (b + x)[1..] == b[1..] + x;
      LessExtended(a[1..], b[1..], x);
    }
  }

  lemma {:induction false} LongerIsLater(a: string, x: string)
    requires x != []
    ensures Less(a, a + x)
    decreases |a|
  {
    if a != [] {
      assert (a + x)[1..] == a[1..] + x;
      LongerIsLater(a[1..], x);
    }
  }

  // ---------------------------------------------------------------------------------------------
  // Names
  // ---------------------------------------------------------------------------------------------

  function Digit(d: nat): char
    requires d < 10
  {
    ('0' as int + d) as char
  }

  /** Decimal digits, none for zero. */
  function Decimal(n: nat): string {
    if n == 0 then [] else Decimal(n / 10) + [Digit(n % 10)]
  }

  /** The verb %0<width>d: zero padded, wider when the number does not fit. */
  function Padded(n: nat, width: nat): string
    decreases width
  {
    if width == 0 then Decimal(n) else Padded(n / 10, width - 1) + [Digit(n % 10)]
  }

  function Pow10(width: nat): (p: nat)
    ensures p > 0
  {
    if width == 0 then 1 else 10 * Pow10(width - 1)
  }

  /** What follows the number of a file in its name. */
  function Tail(key: string, open: bool): string {
    "." + key + (if open then ".open" else "")
  }

  /**
   A file created at second `time` as the producer's file number `seqno`; `rest` is what Tail gives, with
   ".open" at its end as long as the file is written.
   */
  function FileName(time: nat, seqno: nat, rest: string): string {
    Padded(time, 10) + ("." + (Padded(seqno, 3) + rest))
  }

  lemma {:induction false} PaddedOrder(m: nat, n: nat, width: nat, a: string, b: string)
    requires m < n < Pow10(width)
    ensures Less(Padded(m, width) + a, Padded(n, width) + b)
    decreases width
  {
    var dm, dn := [Digit(m % 10)], [Digit(n % 10)];
    assert Padded(m, width) + a == Padded(m / 10, width - 1) + (dm + a);
    assert Padded(n, width) + b == Padded(n / 10, width - 1) + (dn + b);
    if m / 10 < n / 10 {
      PaddedOrder(m / 10, n / 10, width - 1, dm + a, dn + b);
    } else {
      CommonPrefix(Padded(m / 10, width - 1), dm + a, dn + b);
    }
  }

  lemma Powers()
    ensures Pow10(3) == 1000 && Pow10(10) == 10000000000
  {
    assert Pow10(1) == 10 && Pow10(2) == 100 && Pow10(3) == 1000 && Pow10(4) == 10000 && Pow10(5) == 100000;
    assert Pow10(6) == 1000000 && Pow10(7) == 10000000 && Pow10(8) == 100000000 && Pow10(9) == 1000000000;
  }

  lemma LaterSecond(t1: nat, s1: nat, rest1: string, t2: nat, s2: nat, rest2: string)
    requires t1 < t2 < 10000000000
    ensures Less(FileName(t1, s1, rest1), FileName(t2, s2, rest2))
  {
    Powers();
    PaddedOrder(t1, t2, 10, "." + (Padded(s1, 3) + rest1), "." + (Padded(s2, 3) + rest2));
  }

  /** Within one second the text of the file number decides. */
  lemma SameSecond(t: nat, s1: nat, rest1: string, s2: nat, rest2: string)
    ensures Less(FileName(t, s1, rest1), FileName(t, s2, rest2))
       <==> Less(Padded(s1, 3) + rest1, Padded(s2, 3) + rest2)
  {
    var a, b := Padded(s1, 3) + rest1, Padded(s2, 3) + rest2;
    CommonPrefix(".", a, b);
    CommonPrefix(Padded(t, 10), "." + a, "." + b);
  }

  // ---------------------------------------------------------------------------------------------
  // File numbers that need more than three digits
  // ---------------------------------------------------------------------------------------------

  /** The number of characters a file number takes. */
  function Width(n: nat): nat {
    if n < 1000 then 3 else 1 + Width(n / 10)
  }

  lemma {:induction false} WidthBounds(n: nat)
    ensures Width(n) >= 3 && n < Pow10(Width(n))
    ensures n >= 1000 ==> Width(n) >= 4 && n >= Pow10(Width(n) - 1)
  {
    Powers();
    if n >= 1000 {
      WidthBounds(n / 10);
      if n < 10000 {
        assert Width(n / 10) == 3;
      }
    }
  }

  lemma {:induction false} PowersGrow(a: nat, b: nat)
    requires a < b
    ensures 10 * Pow10(a) <= Pow10(b)
    decreases b
  {
    if a < b - 1 {
      PowersGrow(a, b - 1);
    }
  }

  lemma {:induction false} NoPadding(n: nat, width: nat)
    requires n < Pow10(width) && (width > 0 ==> n >= Pow10(width - 1))
    ensures Decimal(n) == Padded(n, width)
    decreases width
  {
    if width > 1 {
      NoPadding(n / 10, width - 1);
    }
  }

  lemma {:induction false} PaddedToItsWidth(n: nat, less: nat, width: nat)
    requires n < Pow10(width) && less <= width
    requires less < width ==> n >= Pow10(width - 1)
    ensures Padded(n, less) == Padded(n, width)
    decreases less
  {
    if less == 0 {
      NoPadding(n, width);
    } else {
      PaddedToItsWidth(n / 10, less - 1, width - 1);
    }
  }

  lemma {:induction false} StartsWithNine(width: nat)
    requires width > 0
    ensures |Padded(Pow10(width) - 1, width)| == width && Padded(Pow10(width) - 1, width)[0] == '9'
  {
    if width == 1 {
      assert Padded(9, 1) == "9";
    } else {
      StartsWithNine(width - 1);
      assert (Pow10(width) - 1) / 10 == Pow10(width - 1) - 1;
    }
  }

  lemma {:induction false} StartsWithOne(width: nat)
    requires width > 0
    ensures |Padded(Pow10(width - 1), width)| == width && Padded(Pow10(width - 1), width)[0] == '1'
  {
    if width == 1 {
      assert Padded(1, 1) == "1";
    } else {
      StartsWithOne(width - 1);
    }
  }

  /** The name of a file's number, for numbers of any size. */
  lemma NumberText(n: nat)
    ensures Padded(n, 3) == Padded(n, Width(n))
  {
    WidthBounds(n);
    PaddedToItsWidth(n, 3, Width(n));
  }

  lemma WidthStep(s: nat)
    ensures Width(s + 1) == Width(s) || (Width(s + 1) == Width(s) + 1 && s + 1 == Pow10(Width(s)))
  {
    WidthBounds(s);
    WidthBounds(s + 1);
    if Width(s) < Width(s + 1) - 1 {
      PowersGrow(Width(s), Width(s + 1) - 1);
    } else if Width(s + 1) < Width(s) {
      if Width(s + 1) < Width(s) - 1 {
        PowersGrow(Width(s + 1), Width(s) - 1);
      }
    }
  }

  /** Within one second a file number and the next one compare as their text does. */
  lemma NextNumber(s: nat, a: string, b: string)
    ensures Less(Padded(s, 3) + a, Padded(s + 1, 3) + b) <==> Width(s) == Width(s + 1)
  {
    NumberText(s);
    NumberText(s + 1);
    WidthBounds(s);
    WidthBounds(s + 1);
    WidthStep(s);
    if Width(s) == Width(s + 1) {
      PaddedOrder(s, s + 1, Width(s), a, b);
    } else {
      StartsWithNine(Width(s));
      StartsWithOne(Width(s) + 1);
      NotLess(Padded(s, 3) + a, Padded(s + 1, 3) + b);
    }
  }

  lemma NotLess(a: string, b: string)
    requires a != [] && b != [] && a[0] > b[0]
    ensures !Less(a, b)
  {
  }

  /**
   A file sorts before the file created right after it exactly when the clock has moved on or their
   numbers have the same number of digits.
   */
  lemma NextFileSortsAfterExactlyWhen(t1: nat, s: nat, rest1: string, t2: nat, rest2: string)
    requires t1 <= t2 < 10000000000
    ensures Less(FileName(t1, s, rest1), FileName(t2, s + 1, rest2)) <==> t1 < t2 || Width(s) == Width(s + 1)
  {
    if t1 < t2 {
      LaterSecond(t1, s, rest1, t2, s + 1, rest2);
    } else {
      NextNumber(s, rest1, rest2);
      SameSecond(t1, s, rest1, s + 1, rest2);
    }
  }

  /** Fewer than a thousand files always sort in creation order. */
  lemma NameOrderIsCreationOrder(t1: nat, s1: nat, rest1: string, t2: nat, s2: nat, rest2: string)
    requires t1 <= t2 < 10000000000 && s1 < s2 < 1000
    ensures Less(FileName(t1, s1, rest1), FileName(t2, s2, rest2))
  {
    if t1 < t2 {
      LaterSecond(t1, s1, rest1, t2, s2, rest2);
    } else {
      Powers();
      PaddedOrder(s1, s2, 3, rest1, rest2);
      SameSecond(t1, s1, rest1, s2, rest2);
    }
  }

  // ---------------------------------------------------------------------------------------------
  // Visiting files
  // ---------------------------------------------------------------------------------------------

  ghost predicate Sorted(names: seq<string>) {
    forall i, j :: 0 <= i < j < |names| ==> Less(names[i], names[j])
  }

  /** The first name after `current`, found by binary search over a sorted directory listing. */
  method NextFile(names: seq<string>, current: string) returns (next: Option<nat>)
    requires Sorted(names)
    ensures next.None? ==> forall i :: 0 <= i < |names| ==> !Less(current, names[i])
    ensures next.Some? ==> next.value < |names| && Less(current, names[next.value])
    ensures next.Some? ==> forall i :: 0 <= i < next.value ==> !Less(current, names[i])
  {
    var i, j := 0, |names|;
    while i < j
      invariant 0 <= i <= j <= |names|
      invariant forall k :: 0 <= k < i ==> !Less(current, names[k])
      invariant forall k :: j <= k < |names| ==> Less(current, names[k])
    {
      var h := i + (j - i) / 2;
      if !Less(current, names[h]) {
        forall k | 0 <= k < h
          ensures !Less(current, names[k])
        {
          if Less(current, names[k]) {
            LessTransitive(current, names[k], names[h]);
          }
        }
        i := h + 1;
      } else {
        forall k | h < k < |names|
          ensures Less(current, names[k])
        {
          LessTransitive(current, names[h], names[k]);
        }
        j := h;
      }
    }
    next := if i < |names| then Some(i) else None;
  }

  /** The names of files numbered from `first`, created at the given seconds. */
  ghost predicate CreatedAs(names: seq<string>, times: seq<nat>, first: nat, rest: string) {
    && |names| == |times|
    && forall i: nat :: i < |times| ==> names[i] == FileName(times[i], first + i, rest)
  }

  ghost predicate NonDecreasing(times: seq<nat>) {
    forall i, j :: 0 <= i <= j < |times| ==> times[i] <= times[j] < 10000000000
  }

  predicate SpreadAt(times: seq<nat>, first: nat, i: nat)
    requires i + 1 < |times|
  {
    times[i] < times[i + 1] || Width(first + i) == Width(first + i + 1)
  }

  /** Whenever the file number gets one digit longer the clock has moved on. */
  ghost predicate WideNumbersSpread(times: seq<nat>, first: nat) {
    forall i: nat :: i + 1 < |times| ==> SpreadAt(times, first, i)
  }

  lemma {:induction false} AdjacentSortedIsSorted(names: seq<string>, i: nat, j: nat)
    requires i < j < |names|
    requires forall k :: 0 <= k < |names| - 1 ==> Less(names[k], names[k + 1])
    ensures Less(names[i], names[j])
    decreases j
  {
    if i < j - 1 {
      AdjacentSortedIsSorted(names, i, j - 1);
      LessTransitive(names[i], names[j - 1], names[j]);
    }
  }

  lemma NamedInOrder(a: string, b: string, t1: nat, t2: nat, s: nat, rest: string)
    requires a == FileName(t1, s, rest) && b == FileName(t2, s + 1, rest) && t1 <= t2 < 10000000000
    ensures Less(a, b) <==> t1 < t2 || Width(s) == Width(s + 1)
  {
    NextFileSortsAfterExactlyWhen(t1, s, rest, t2, rest);
  }

  lemma NeighboursInOrder(names: seq<string>, times: seq<nat>, first: nat, rest: string, i: nat)
    requires NonDecreasing(times) && CreatedAs(names, times, first, rest) && i + 1 < |times|
    ensures Less(names[i], names[i + 1]) <==> SpreadAt(times, first, i)
  {
    hide FileName, Less, Width;
    NamedInOrder(names[i], names[i + 1], times[i], times[i + 1], first + i, rest);
  }

  lemma AllNeighbours(names: seq<string>)
    requires forall k: nat :: k + 1 < |names| ==> Less(names[k], names[k + 1])
    ensures Sorted(names)
  {
    forall i, j | 0 <= i < j < |names|
      ensures Less(names[i], names[j])
    {
      AdjacentSortedIsSorted(names, i, j);
    }
  }

  /**
   All files a producer creates for one key sort in creation order, so that a consumer reads them in that
   order, exactly when the clock moves on whenever file numbers get longer.
   */
  lemma DirectoryOrderIsCreationOrderExactlyWhen(names: seq<string>, times: seq<nat>, first: nat, rest: string)
    requires NonDecreasing(times) && CreatedAs(names, times, first, rest)
    ensures Sorted(names) <==> WideNumbersSpread(times, first)
  {
    if WideNumbersSpread(times, first) {
      forall i: nat | i + 1 < |times|
        ensures Less(names[i], names[i + 1])
      {
        NeighboursInOrder(names, times, first, rest, i);
      }
      AllNeighbours(names);
    }
    if Sorted(names) {
      forall i: nat | i + 1 < |times|
        ensures SpreadAt(times, first, i)
      {
        NeighboursInOrder(names, times, first, rest, i);
      }
    }
  }

  /** What NextFile finds: exactly the first n names are not after `current`. */
  ghost predicate FirstAfter(names: seq<string>, current: string, n: nat) {
    && n <= |names|
    && (forall i :: 0 <= i < n ==> !Less(current, names[i]))
    && (forall i :: n <= i < |names| ==> Less(current, names[i]))
  }

  /** Starting before all names and always going to the next visits every name once, in order. */
  lemma VisitsEveryFileOnce(names: seq<string>, n: nat)
    requires Sorted(names) && n <= |names| && forall i :: 0 <= i < |names| ==> names[i] != []
    ensures FirstAfter(names, if n == 0 then "" else names[n - 1], n)
  {
    if n > 0 {
      LessIrreflexive(names[n - 1]);
      forall i | 0 <= i < n - 1
        ensures !Less(names[n - 1], names[i])
      {
        if Less(names[n - 1], names[i]) {
          LessTransitive(names[i], names[n - 1], names[i]);
          LessIrreflexive(names[i]);
        }
      }
    }
  }

  /** A directory has one sorted listing. */
  lemma {:induction false} SortedListingIsUnique(a: seq<string>, b: seq<string>)
    requires Sorted(a) && Sorted(b) && forall x :: x in a <==> x in b
    ensures a == b
    decreases |a|
  {
    EmptyTogether(a, b);
    EmptyTogether(b, a);
    if a != [] {
      var ta, tb := a[1..], b[1..];
      SameFirst(a, b);
      forall x
        ensures x in ta <==> x in tb
      {
        TailMembers(a, x);
        TailMembers(b, x);
      }
      SortedListingIsUnique(ta, tb);
      assert a == [a[0]] + ta && b == [b[0]] + tb;
    }
  }

  lemma EmptyTogether(a: seq<string>, b: seq<string>)
    requires forall x :: x in a ==> x in b
    ensures a != [] ==> b != []
  {
    if a != [] {
      assert a[0] in a;
    }
  }

  lemma SameFirst(a: seq<string>, b: seq<string>)
    requires Sorted(a) && Sorted(b) && a != [] && b != []
    requires forall x :: x in a <==> x in b
    ensures a[0] == b[0]
  {
    assert a[0] in b && b[0] in a;
    if a[0] != b[0] {
      LessTransitive(a[0], b[0], a[0]);
      LessIrreflexive(a[0]);
    }
  }

  lemma TailMembers(a: seq<string>, x: string)
    requires Sorted(a) && a != []
    ensures x in a[1..] <==> x in a && x != a[0]
  {
    LessIrreflexive(a[0]);
    assert a == [a[0]] + a[1..];
    forall i | 0 <= i < |a[1..]|
      ensures a[1..][i] != a[0]
    {
      assert Less(a[0], a[i + 1]);
    }
  }
}
