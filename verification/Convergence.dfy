/**
 Why a snapshot that overlaps the log still converges (streamer/streamer.go, snapshot/mysql.go): the
 change log as edits of a keyed table, replayed over a snapshot taken somewhere inside it.
 */
module Convergence {
  import opened Options
  import opened RowEvents

  datatype Edit = Put(key: Key, row: Row) | Drop(key: Key)

  function ApplyEdit(m: Table, e: Edit): Table {
    if e.Put? then m[e.key := e.row] else m - {e.key}
  }

  function Replay(m: Table, edits: seq<Edit>): Table
    decreases |edits|
  {
    if edits == [] then m else Replay(ApplyEdit(m, edits[0]), edits[1..])
  }

  /** The source table after the first n edits of the log. */
  function At(log: seq<Edit>, n: nat): Table
    requires n <= |log|
  {
    Replay(map[], log[..n])
  }

  function Get(m: Table, k: Key): Option<Row> {
    if k in m then Some(m[k]) else None
  }

  /** What edits do to a key: nothing, or the value left by the last edit that touches it. */
  function Effect(edits: seq<Edit>, k: Key): Option<Option<Row>>
    decreases |edits|
  {
    if edits == [] then None
    else
      var last := edits[|edits| - 1];
      if last.key == k then Some(if last.Put? then Some(last.row) else None)
      else Effect(edits[..|edits| - 1], k)
  }

  lemma {:induction false} ReplayAppend(m: Table, a: seq<Edit>, b: seq<Edit>)
    ensures Replay(m, a + b) == Replay(Replay(m, a), b)
    decreases |a|
  {
    if a == [] {
      assert a + b == b;
    } else {
      assert (a + b)[1..] == a[1..] + b;
      ReplayAppend(ApplyEdit(m, a[0]), a[1..], b);
    }
  }

  lemma {:induction false} EffectAppend(a: seq<Edit>, b: seq<Edit>, k: Key)
    ensures Effect(a + b, k) == if Effect(b, k).Some? then Effect(b, k) else Effect(a, k)
    decreases |b|
  {
    if b == [] {
      assert a + b == a;
    } else {
      var c := b[..|b| - 1];
      assert (a + b)[..|a + b| - 1] == a + c;
      EffectAppend(a, c, k);
    }
  }

  lemma {:induction false} ReplayLookup(m: Table, edits: seq<Edit>, k: Key)
    ensures Get(Replay(m, edits), k) == if Effect(edits, k).Some? then Effect(edits, k).value else Get(m, k)
    decreases |edits|
  {
    if edits != [] {
      var c, last := edits[..|edits| - 1], edits[|edits| - 1];
      assert edits == c + [last];
      ReplayAppend(m, c, [last]);
      assert [last][1..] == [];
      assert Replay(Replay(m, c), [last]) == ApplyEdit(Replay(m, c), last);
      ReplayLookup(m, c, k);
    }
  }

  lemma SameLookups(a: Table, b: Table)
    requires forall k :: Get(a, k) == Get(b, k)
    ensures a == b
  {
    forall k
      ensures k in a <==> k in b
      ensures k in a ==> a[k] == b[k]
    {
      assert Get(a, k) == Get(b, k);
    }
    assert a.Keys == b.Keys;
  }

  /** Every key of m has the value it had in the source at some time from a to e. */
  ghost predicate Between(m: Table, log: seq<Edit>, a: nat, e: nat)
    requires a <= e <= |log|
  {
    forall k :: KeyBetween(m, log, a, e, k)
  }

  ghost predicate KeyBetween(m: Table, log: seq<Edit>, a: nat, e: nat, k: Key)
    requires a <= e <= |log|
  {
    exists q :: a <= q <= e && SameAt(m, log, q, k)
  }

  ghost predicate SameAt(m: Table, log: seq<Edit>, q: nat, k: Key)
    requires q <= |log|
  {
    Get(m, k) == Get(At(log, q), k)
  }

  lemma AtLater(log: seq<Edit>, q: nat, e: nat, k: Key)
    requires q <= e <= |log|
    ensures Get(At(log, e), k) ==
      if Effect(log[q..e], k).Some? then Effect(log[q..e], k).value else Get(At(log, q), k)
  {
    assert log[..e] == log[..q] + log[q..e];
    ReplayAppend(map[], log[..q], log[q..e]);
    ReplayLookup(At(log, q), log[q..e], k);
  }

  /** Replaying log[a..e] brings every key up to e at least. */
  lemma SegmentAdvances(m: Table, log: seq<Edit>, a: nat, e: nat, end: nat)
    requires a <= e <= end <= |log| && Between(m, log, a, end)
    ensures Between(Replay(m, log[a..e]), log, e, end)
  {
    var m' := Replay(m, log[a..e]);
    forall k
      ensures KeyBetween(m', log, e, end, k)
    {
      assert KeyBetween(m, log, a, end, k);
      var q :| a <= q <= end && SameAt(m, log, q, k);
      ReplayLookup(m, log[a..e], k);
      if Effect(log[a..e], k).Some? {
        AtLater(log, a, e, k);
        assert SameAt(m', log, e, k);
      } else if q >= e {
        assert SameAt(m', log, q, k);
      } else {
        assert log[a..e] == log[a..q] + log[q..e];
        EffectAppend(log[a..q], log[q..e], k);
        AtLater(log, q, e, k);
        assert SameAt(m', log, e, k);
      }
    }
  }

  lemma BetweenNow(m: Table, log: seq<Edit>, e: nat)
    requires e <= |log| && Between(m, log, e, e)
    ensures m == At(log, e)
  {
    forall k
      ensures Get(m, k) == Get(At(log, e), k)
    {
      assert KeyBetween(m, log, e, e, k);
      var q :| e <= q <= e && SameAt(m, log, q, k);
    }
    SameLookups(m, At(log, e));
  }

  lemma SnapshotIsBetween(log: seq<Edit>, a: nat, s: nat, e: nat)
    requires a <= s <= e <= |log|
    ensures Between(At(log, s), log, a, e)
  {
    forall k
      ensures KeyBetween(At(log, s), log, a, e, k)
    {
      assert SameAt(At(log, s), log, s, k);
    }
  }

  /** A part of the log as delivered; a restarted reader delivers some of it again. */
  datatype Segment = Segment(from: nat, to: nat)

  /** The segments start no later than `start`, leave no gap, and end at `end`. */
  ghost predicate Covers(segments: seq<Segment>, start: nat, end: nat)
    decreases |segments|
  {
    if segments == [] then start == end
    else
      && segments[0].from <= start && segments[0].from <= segments[0].to <= end
      && Covers(segments[1..], segments[0].to, end)
  }

  function Delivered(log: seq<Edit>, segments: seq<Segment>): seq<Edit>
    requires forall i :: 0 <= i < |segments| ==> segments[i].from <= segments[i].to <= |log|
  {
    if segments == [] then []
    else log[segments[0].from..segments[0].to] + Delivered(log, segments[1..])
  }

  lemma {:induction false} CoversWithinLog(segments: seq<Segment>, start: nat, end: nat)
    requires Covers(segments, start, end)
    ensures forall i :: 0 <= i < |segments| ==> segments[i].from <= segments[i].to <= end
    decreases |segments|
  {
    if segments != [] {
      CoversWithinLog(segments[1..], segments[0].to, end);
      assert forall i :: 1 <= i < |segments| ==> segments[i] == segments[1..][i - 1];
    }
  }

  lemma BetweenFromEarlier(m: Table, log: seq<Edit>, a: nat, b: nat, e: nat)
    requires b <= a <= e <= |log| && Between(m, log, a, e)
    ensures Between(m, log, b, e)
  {
    forall k
      ensures KeyBetween(m, log, b, e, k)
    {
      assert KeyBetween(m, log, a, e, k);
      var q :| a <= q <= e && SameAt(m, log, q, k);
    }
  }

  lemma {:induction false} SegmentsConverge(m: Table, log: seq<Edit>, segments: seq<Segment>, a: nat, end: nat)
    requires a <= end <= |log| && Covers(segments, a, end) && Between(m, log, a, end)
    ensures forall i :: 0 <= i < |segments| ==> segments[i].from <= segments[i].to <= |log|
    ensures Replay(m, Delivered(log, segments)) == At(log, end)
    decreases |segments|
  {
    CoversWithinLog(segments, a, end);
    if segments == [] {
      BetweenNow(m, log, end);
    } else {
      var s, rest := segments[0], segments[1..];
      BetweenFromEarlier(m, log, a, s.from, end);
      SegmentAdvances(m, log, s.from, s.to, end);
      SegmentsConverge(Replay(m, log[s.from..s.to]), log, rest, s.to, end);
      ReplayAppend(m, log[s.from..s.to], Delivered(log, rest));
    }
  }

  /**
   A snapshot taken at `s` and followed by everything from an earlier point `a` on, even with parts of
   the log delivered more than once, gives the source table at the end of the log.
   */
  lemma SnapshotPlusLogConverges(log: seq<Edit>, segments: seq<Segment>, a: nat, s: nat, end: nat)
    requires a <= s <= end <= |log| && Covers(segments, a, end)
    ensures forall i :: 0 <= i < |segments| ==> segments[i].from <= segments[i].to <= |log|
    ensures Replay(At(log, s), Delivered(log, segments)) == At(log, end)
  {
    SnapshotIsBetween(log, a, s, end);
    SegmentsConverge(At(log, s), log, segments, a, end);
  }

  /**
   When the buffer starts after the snapshot, the edits in between are missed: the result is right
   exactly when every key not touched later is the same at both points.
   */
  lemma GapConvergesExactlyWhen(log: seq<Edit>, s: nat, a: nat, end: nat)
    requires s <= a <= end <= |log|
    ensures Replay(At(log, s), log[a..end]) == At(log, end)
      <==> forall k :: Effect(log[a..end], k).None? ==> Get(At(log, s), k) == Get(At(log, a), k)
  {
    forall k
      ensures Get(Replay(At(log, s), log[a..end]), k) == Get(At(log, end), k)
        <==> (Effect(log[a..end], k).None? ==> Get(At(log, s), k) == Get(At(log, a), k))
    {
      ReplayLookup(At(log, s), log[a..end], k);
      AtLater(log, a, end, k);
    }
    if forall k :: Effect(log[a..end], k).None? ==> Get(At(log, s), k) == Get(At(log, a), k) {
      SameLookups(Replay(At(log, s), log[a..end]), At(log, end));
    }
  }

  // ---------------------------------------------------------------------------------------------
  // The same table from sequence numbers alone
  // ---------------------------------------------------------------------------------------------

  function EditOf(e: Event): Edit {
    if e.kind.Insert? && e.fields.Some? then Put(e.key, e.fields.value) else Drop(e.key)
  }

  function EditsOf(events: seq<Event>): seq<Edit> {
    seq(|events|, i requires 0 <= i < |events| => EditOf(events[i]))
  }

  lemma {:induction false} FoldIsReplay(m: Table, events: seq<Event>)
    ensures Fold(m, events) == Replay(m, EditsOf(events))
    decreases |events|
  {
    if events != [] {
      assert EditsOf(events)[1..] == EditsOf(events[1..]);
      FoldIsReplay(ApplyEvent(m, events[0]), events[1..]);
    }
  }

  /** The snapshot as events: one insert per row of the table, all under sequence number zero. */
  ghost predicate SnapshotOf(events: seq<Event>, table: Table) {
    && (forall i :: 0 <= i < |events| ==>
          var e := events[i];
          e.kind.Insert? && e.seqNo == 0 && e.key in table && e.fields == Some(table[e.key]))
    && (forall i, j :: 0 <= i < j < |events| ==> events[i].key != events[j].key)
    && (forall k :: k in table ==> exists i :: 0 <= i < |events| && events[i].key == k)
  }

  lemma {:induction false} LastEffect(events: seq<Event>, k: Key) returns (i: int)
    ensures -1 <= i < |events|
    ensures i == -1 ==> Effect(EditsOf(events), k).None? && forall j :: 0 <= j < |events| ==> events[j].key != k
    ensures i >= 0 ==>
      && events[i].key == k && (forall j :: i < j < |events| ==> events[j].key != k)
      && Effect(EditsOf(events), k) == Some(if EditOf(events[i]).Put? then Some(EditOf(events[i]).row) else None)
    decreases |events|
  {
    if events == [] {
      i := -1;
    } else {
      var n := |events| - 1;
      assert EditsOf(events)[..n] == EditsOf(events[..n]);
      if events[n].key == k {
        i := n;
      } else {
        i := LastEffect(events[..n], k);
      }
    }
  }

  lemma SnapshotFolds(events: seq<Event>, table: Table)
    requires SnapshotOf(events, table)
    ensures Fold(map[], events) == table
  {
    FoldIsReplay(map[], events);
    forall k
      ensures Get(Fold(map[], events), k) == Get(table, k)
    {
      ReplayLookup(map[], EditsOf(events), k);
      var i := LastEffect(events, k);
    }
    SameLookups(Fold(map[], events), table);
  }

  /** Among a set of events, the one with the highest sequence number for its key. */
  ghost predicate IsLatest(events: set<Event>, k: Key, e: Event) {
    e in events && e.key == k && forall d :: d in events && d.key == k ==> d.seqNo <= e.seqNo
  }

  ghost predicate HasKey(events: set<Event>, k: Key) {
    exists e :: e in events && e.key == k
  }

  function AsSet(events: seq<Event>): set<Event> {
    set e | e in events
  }

  /**
   A consumer that only keeps, for each key, the event with the highest sequence number, in whatever
   order events arrive, has the same table as one that applies the stream in order.
   */
  lemma HighestSeqNoWins(table: Table, snapshot: seq<Event>, buffered: seq<Event>, k: Key)
    requires SnapshotOf(snapshot, table) && NumbersIncrease(buffered, 0)
    ensures var all := AsSet(snapshot + buffered);
      var result := Get(Fold(map[], snapshot + buffered), k);
      && (!HasKey(all, k) ==> result.None?)
      && (HasKey(all, k) ==> exists e :: IsLatest(all, k, e))
      && forall e :: IsLatest(all, k, e) ==> result == if e.kind.Insert? then e.fields else None
  {
    var stream := snapshot + buffered;
    var all := AsSet(stream);
    FoldIsReplay(map[], stream);
    ReplayLookup(map[], EditsOf(stream), k);
    var i := LastEffect(stream, k);
    if i >= 0 {
      var last := stream[i];
      assert last in all;
      forall d | d in all && d.key == k
        ensures d.seqNo <= last.seqNo && (d.seqNo == last.seqNo ==> d == last)
      {
        var j :| 0 <= j < |stream| && stream[j] == d;
        assert j <= i;
        if i < |snapshot| {
          assert snapshot[j].key == snapshot[i].key;
        } else if j >= |snapshot| {
          assert buffered[j - |snapshot|] == d && buffered[i - |snapshot|] == last;
        } else {
          assert buffered[i - |snapshot|] == last;
        }
      }
      assert IsLatest(all, k, last);
    }
  }

  /** A bootstrapped stream: the snapshot first, then every buffered event, gives the source table. */
  lemma BootstrappedStreamConverges(log: seq<Edit>, segments: seq<Segment>, a: nat, s: nat, end: nat,
                                    snapshot: seq<Event>, buffered: seq<Event>)
    requires a <= s <= end <= |log| && Covers(segments, a, end)
    requires SnapshotOf(snapshot, At(log, s))
    requires (forall i :: 0 <= i < |segments| ==> segments[i].from <= segments[i].to <= |log|)
      && EditsOf(buffered) == Delivered(log, segments)
    ensures Fold(map[], snapshot + buffered) == At(log, end)
  {
    FoldAppend(map[], snapshot, buffered);
    SnapshotFolds(snapshot, At(log, s));
    FoldIsReplay(At(log, s), buffered);
    SnapshotPlusLogConverges(log, segments, a, s, end);
  }
}
