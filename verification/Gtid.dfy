/**
 The reader's GTID set (incGTID in changelog/mysql.go).  Sequential events extend the last interval of
 their server in place; any other event goes through the library's AddSet, taken here as what it
 promises: insert in order and merge whatever touches.
 */
module Gtid {
  /** The transaction numbers start, ..., stop - 1. */
  datatype Interval = Interval(start: nat, stop: nat)

  predicate Has(s: seq<Interval>, x: nat) {
    exists i :: 0 <= i < |s| && s[i].start <= x < s[i].stop
  }

  /** Sorted, disjoint, not even touching, and none empty. */
  predicate Normal(s: seq<Interval>) {
    && (forall i :: 0 <= i < |s| ==> s[i].start < s[i].stop)
    && (forall i, j :: 0 <= i < j < |s| ==> s[i].stop < s[j].start)
  }

  predicate SortedByStart(s: seq<Interval>) {
    && (forall i :: 0 <= i < |s| ==> s[i].start < s[i].stop)
    && (forall i, j :: 0 <= i < j < |s| ==> s[i].start <= s[j].start)
  }

  function InsertSorted(s: seq<Interval>, v: Interval): seq<Interval> {
    if s == [] || v.start <= s[0].start then [v] + s else [s[0]] + InsertSorted(s[1..], v)
  }

  /** Merges a sorted list, `last` being the interval that may still grow. */
  function MergeFrom(last: Interval, rest: seq<Interval>): seq<Interval>
    decreases |rest|
  {
    if rest == [] then [last]
    else if rest[0].start > last.stop then [last] + MergeFrom(rest[0], rest[1..])
    else MergeFrom(Interval(last.start, if last.stop > rest[0].stop then last.stop else rest[0].stop), rest[1..])
  }

  /** AddSet with the single transaction x. */
  function Add(s: seq<Interval>, x: nat): seq<Interval> {
    var sorted := InsertSorted(s, Interval(x, x + 1));
    if sorted == [] then [] else MergeFrom(sorted[0], sorted[1..])
  }

  lemma {:induction false} InsertSortedKeeps(s: seq<Interval>, v: Interval)
    requires SortedByStart(s) && v.start < v.stop
    ensures SortedByStart(InsertSorted(s, v)) && InsertSorted(s, v) != []
    ensures forall e :: e in InsertSorted(s, v) <==> e == v || e in s
    decreases |s|
  {
    if s != [] {
      assert s == [s[0]] + s[1..];
      if v.start > s[0].start {
        var rest := InsertSorted(s[1..], v);
        InsertSortedKeeps(s[1..], v);
        forall i | 0 <= i < |rest|
          ensures s[0].start <= rest[i].start
        {
          assert rest[i] in rest;
        }
      }
    }
  }

  lemma HasMember(s: seq<Interval>, x: nat)
    ensures Has(s, x) <==> exists e :: e in s && e.start <= x < e.stop
  {
    if Has(s, x) {
      var i :| 0 <= i < |s| && s[i].start <= x < s[i].stop;
      assert s[i] in s;
    }
    if e :| e in s && e.start <= x < e.stop {
      var i :| 0 <= i < |s| && s[i] == e;
    }
  }

  lemma HasCons(e: Interval, s: seq<Interval>, x: nat)
    ensures Has([e] + s, x) <==> e.start <= x < e.stop || Has(s, x)
  {
    if e.start <= x < e.stop {
      assert ([e] + s)[0] == e;
    }
    if i :| 0 <= i < |s| && s[i].start <= x < s[i].stop {
      assert ([e] + s)[i + 1] == s[i];
    }
  }

  lemma {:induction false} MergeFromMerges(last: Interval, rest: seq<Interval>)
    requires SortedByStart([last] + rest)
    ensures var m := MergeFrom(last, rest);
      && Normal(m) && m != [] && m[0].start == last.start
      && forall x: nat :: Has(m, x) <==> Has([last] + rest, x)
    decreases |rest|
  {
    var all := [last] + rest;
    if rest == [] {
      assert all == [last];
    } else {
      assert rest == [rest[0]] + rest[1..];
      SortedTail(last, rest);
      if rest[0].start > last.stop {
        MergeFromMerges(rest[0], rest[1..]);
        var m := MergeFrom(rest[0], rest[1..]);
        NormalCons(last, m);
        forall x: nat
          ensures Has([last] + m, x) <==> Has(all, x)
        {
          HasCons(last, m, x);
          HasCons(last, rest, x);
        }
      } else {
        var grown := Interval(last.start, if last.stop > rest[0].stop then last.stop else rest[0].stop);
        MergeFromMerges(grown, rest[1..]);
        forall x: nat
          ensures Has([grown] + rest[1..], x) <==> Has(all, x)
        {
          HasCons(grown, rest[1..], x);
          HasCons(last, rest, x);
          HasCons(rest[0], rest[1..], x);
        }
      }
    }
  }

  lemma NormalCons(e: Interval, s: seq<Interval>)
    requires Normal(s) && s != [] && e.start < e.stop < s[0].start
    ensures Normal([e] + s)
  {
    forall j | 0 <= j < |s|
      ensures e.stop < s[j].start
    {
      assert j == 0 || s[0].stop < s[j].start;
    }
  }

  lemma SortedTail(last: Interval, rest: seq<Interval>)
    requires SortedByStart([last] + rest) && rest != []
    ensures SortedByStart([rest[0]] + rest[1..]) && last.start <= rest[0].start && last.start < last.stop
    ensures forall stop: nat :: stop > last.start ==> SortedByStart([Interval(last.start, stop)] + rest[1..])
  {
    var all := [last] + rest;
    assert all[0] == last && all[1] == rest[0];
    assert [rest[0]] + rest[1..] == all[1..];
    forall stop: nat | stop > last.start
      ensures SortedByStart([Interval(last.start, stop)] + rest[1..])
    {
      var next := [Interval(last.start, stop)] + rest[1..];
      assert forall i :: 1 <= i < |next| ==> next[i] == all[i + 1];
    }
  }

  /** AddSet inserts exactly one transaction and normalises. */
  lemma AddAdds(s: seq<Interval>, x: nat)
    requires Normal(s)
    ensures Normal(Add(s, x)) && Add(s, x) != []
    ensures forall y: nat :: Has(Add(s, x), y) <==> Has(s, y) || y == x
  {
    var v := Interval(x, x + 1);
    var sorted := InsertSorted(s, v);
    InsertSortedKeeps(s, v);
    assert sorted == [sorted[0]] + sorted[1..];
    MergeFromMerges(sorted[0], sorted[1..]);
    forall y: nat
      ensures Has(sorted, y) <==> Has(s, y) || y == x
    {
      HasMember(sorted, y);
      HasMember(s, y);
      assert v in sorted;
    }
  }

  /** The fast path: one more transaction at the end of the last interval. */
  function ExtendLast(s: seq<Interval>): seq<Interval>
    requires s != []
  {
    var last := |s| - 1;
    s[last := Interval(s[last].start, s[last].stop + 1)]
  }

  lemma ExtendLastAdds(s: seq<Interval>)
    requires Normal(s) && s != []
    ensures Normal(ExtendLast(s))
    ensures forall y: nat :: Has(ExtendLast(s), y) <==> Has(s, y) || y == s[|s| - 1].stop
  {
    var last, t := |s| - 1, ExtendLast(s);
    forall y: nat
      ensures Has(t, y) <==> Has(s, y) || y == s[last].stop
    {
      if i :| 0 <= i < |t| && t[i].start <= y < t[i].stop {
        assert i == last || s[i] == t[i];
        assert y == s[last].stop || s[i].start <= y < s[i].stop;
      }
      if i :| 0 <= i < |s| && s[i].start <= y < s[i].stop {
        assert t[i].start <= y < t[i].stop;
      }
      if y == s[last].stop {
        assert t[last].start <= y < t[last].stop;
      }
    }
  }

  lemma FirstStart(s: seq<Interval>, x: nat)
    requires Normal(s) && s != []
    ensures Has(s, s[0].start) && (Has(s, x) ==> s[0].start <= x)
    ensures !Has(s, s[0].stop) && (s[0].start <= x < s[0].stop ==> Has(s, x))
  {
    if i :| 0 <= i < |s| && s[i].start <= x < s[i].stop {
      assert i == 0 || s[0].stop < s[i].start;
    }
  }

  ghost predicate SameMembers(a: seq<Interval>, b: seq<Interval>) {
    forall x: nat :: Has(a, x) <==> Has(b, x)
  }

  lemma NonEmptyTogether(a: seq<Interval>, b: seq<Interval>)
    requires Normal(b) && SameMembers(a, b) && b != []
    ensures a != []
  {
    FirstStart(b, 0);
    assert Has(a, b[0].start);
  }

  /** A set of transactions has one normal form. */
  lemma {:induction false} NormalFormIsUnique(a: seq<Interval>, b: seq<Interval>)
    requires Normal(a) && Normal(b) && SameMembers(a, b)
    ensures a == b
    decreases |a|
  {
    if b != [] {
      NonEmptyTogether(a, b);
    }
    if a != [] {
      NonEmptyTogether(b, a);
      FirstStart(a, b[0].start);
      FirstStart(b, a[0].start);
      FirstStart(a, b[0].stop);
      FirstStart(b, a[0].stop);
      assert Has(a, b[0].start) && Has(b, a[0].start);
      assert !Has(a, b[0].stop) && !Has(b, a[0].stop);
      assert a[0] == b[0];
      var ta, tb := a[1..], b[1..];
      assert a == [a[0]] + ta && b == [b[0]] + tb;
      forall x: nat
        ensures Has(ta, x) <==> Has(tb, x)
      {
        HasCons(a[0], ta, x);
        HasCons(b[0], tb, x);
        TailIsLater(a, x);
        TailIsLater(b, x);
        assert Has(a, x) <==> Has(b, x);
      }
      NormalFormIsUnique(ta, tb);
    }
  }

  lemma TailIsLater(s: seq<Interval>, x: nat)
    requires Normal(s) && s != []
    ensures Has(s[1..], x) ==> x > s[0].stop
  {
    if i :| 0 <= i < |s[1..]| && s[1..][i].start <= x < s[1..][i].stop {
      assert s[1..][i] == s[i + 1];
    }
  }

  /** The fast path gives the very same intervals AddSet would. */
  lemma FastPathIsAdd(s: seq<Interval>)
    requires Normal(s) && s != []
    ensures ExtendLast(s) == Add(s, s[|s| - 1].stop)
  {
    ExtendLastAdds(s);
    AddAdds(s, s[|s| - 1].stop);
    NormalFormIsUnique(ExtendLast(s), Add(s, s[|s| - 1].stop));
  }

  /** One transaction of one server. */
  datatype GtidEvent = GtidEvent(server: string, number: nat)

  function IntervalsOf(sets: map<string, seq<Interval>>, server: string): seq<Interval> {
    if server in sets then sets[server] else []
  }

  ghost predicate Contains(sets: map<string, seq<Interval>>, server: string, x: nat) {
    Has(IntervalsOf(sets, server), x)
  }

  ghost predicate ValidSets(sets: map<string, seq<Interval>>) {
    forall server :: server in sets ==> sets[server] != [] && Normal(sets[server])
  }

  function AddEvent(sets: map<string, seq<Interval>>, ev: GtidEvent): map<string, seq<Interval>> {
    sets[ev.server := Add(IntervalsOf(sets, ev.server), ev.number)]
  }

  class GtidSet {
    var sets: map<string, seq<Interval>>

    constructor (sets: map<string, seq<Interval>>)
      ensures this.sets == sets
    {
      this.sets := sets;
    }

    /** Fails only on an event whose server id is not a UUID. */
    method IncGTID(ev: GtidEvent, isUuid: bool) returns (ok: bool)
      requires ValidSets(sets)
      modifies this
      ensures ValidSets(sets) && ok == isUuid
      ensures sets == if ok then AddEvent(old(sets), ev) else old(sets)
    {
      if !isUuid {
        return false;
      }
      if ev.server in sets {
        var s := sets[ev.server];
        var last := |s| - 1;
        if s[last].stop == ev.number {
          FastPathIsAdd(s);
          AddAdds(s, ev.number);
          sets := sets[ev.server := s[last := Interval(s[last].start, s[last].stop + 1)]];
          return true;
        }
      }
      AddAdds(IntervalsOf(sets, ev.server), ev.number);
      sets := sets[ev.server := Add(IntervalsOf(sets, ev.server), ev.number)];
      return true;
    }
  }

  function AddAll(sets: map<string, seq<Interval>>, events: seq<GtidEvent>): map<string, seq<Interval>>
    decreases |events|
  {
    if events == [] then sets else AddAll(AddEvent(sets, events[0]), events[1..])
  }

  /** After any stream of events the set holds what it held and exactly the events' transactions. */
  lemma {:induction false} StreamDenotesUnion(sets: map<string, seq<Interval>>, events: seq<GtidEvent>)
    requires ValidSets(sets)
    ensures ValidSets(AddAll(sets, events))
    ensures forall server, x: nat ::
      Contains(AddAll(sets, events), server, x) <==> Contains(sets, server, x) || GtidEvent(server, x) in events
    decreases |events|
  {
    if events != [] {
      var ev := events[0];
      assert events == [ev] + events[1..];
      AddAdds(IntervalsOf(sets, ev.server), ev.number);
      StreamDenotesUnion(AddEvent(sets, ev), events[1..]);
      forall server, x: nat
        ensures Contains(AddEvent(sets, ev), server, x) <==> Contains(sets, server, x) || GtidEvent(server, x) == ev
      {
      }
    }
  }
}
