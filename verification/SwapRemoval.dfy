/**
 Removing an element of a list by moving the last one into its place, as closeConsumer in pipe/kafka.go and
 reloadState and removeDeletedTables in changelog/mysql.go do, and what a loop over the list misses when that happens
 under it.
 */
module SwapRemoval {
  function SwapOut<T>(list: seq<T>, i: nat): (rest: seq<T>)
    requires i < |list|
    ensures |rest| == |list| - 1
  {
    list[i := list[|list| - 1]][..|list| - 1]
  }

  lemma SwapOutAt<T>(list: seq<T>, i: nat, m: nat)
    requires i < |list| && m < |list| - 1
    ensures SwapOut(list, i)[m] == if m == i then list[|list| - 1] else list[m]
  {
  }

  ghost predicate Distinct<T>(list: seq<T>) {
    forall i, j :: 0 <= i < j < |list| ==> list[i] != list[j]
  }

  /** Elements removed one after the other; positions that are not there are passed over. */
  function SwapOuts<T>(list: seq<T>, picks: seq<nat>): (rest: seq<T>)
    ensures |rest| <= |list|
    decreases |picks|
  {
    if picks == [] then list
    else SwapOuts(if picks[0] < |list| then SwapOut(list, picks[0]) else list, picks[1..])
  }

  lemma NoSwapOuts<T>(list: seq<T>)
    ensures SwapOuts(list, []) == list
  {
  }

  lemma {:induction false} SwapOutsNext<T>(list: seq<T>, picks: seq<nat>, i: nat)
    requires i < |SwapOuts(list, picks)|
    ensures SwapOuts(list, picks + [i]) == SwapOut(SwapOuts(list, picks), i)
    decreases |picks|
  {
    if picks == [] {
      assert [] + [i] == [i] && [i][1..] == [];
      NoSwapOuts(SwapOut(list, i));
    } else {
      assert (picks + [i])[0] == picks[0] && (picks + [i])[1..] == picks[1..] + [i];
      SwapOutsNext(if picks[0] < |list| then SwapOut(list, picks[0]) else list, picks[1..], i);
    }
  }

  /** Whatever is left has moved to the front if at all. */
  lemma {:induction false} MovesToFront<T>(list: seq<T>, picks: seq<nat>, p: nat) returns (q: nat)
    requires p < |SwapOuts(list, picks)|
    ensures p <= q < |list| && list[q] == SwapOuts(list, picks)[p]
    decreases |picks|
  {
    if picks == [] {
      q := p;
    } else if picks[0] < |list| {
      q := MovesToFront(SwapOut(list, picks[0]), picks[1..], p);
      SwapOutAt(list, picks[0], q);
      q := if q == picks[0] then |list| - 1 else q;
    } else {
      q := MovesToFront(list, picks[1..], p);
    }
  }

  lemma {:induction false} StaysDistinct<T>(list: seq<T>, picks: seq<nat>)
    requires Distinct(list)
    ensures Distinct(SwapOuts(list, picks))
    decreases |picks|
  {
    if picks != [] {
      StaysDistinct(if picks[0] < |list| then SwapOut(list, picks[0]) else list, picks[1..]);
    }
  }

  function Elements<T>(list: seq<T>): set<T> {
    set x | x in list
  }

  lemma ElementsAppend<T>(a: seq<T>, b: seq<T>)
    ensures Elements(a + b) == Elements(a) + Elements(b)
  {
  }

  lemma {:induction false} DistinctElements<T>(list: seq<T>)
    requires Distinct(list)
    ensures |Elements(list)| == |list|
  {
    if list != [] {
      DistinctElements(list[1..]);
      assert list == [list[0]] + list[1..];
      assert Elements(list) == {list[0]} + Elements(list[1..]);
      assert list[0] !in Elements(list[1..]);
    }
  }

  // ---------------------------------------------------------------------------------------------
  // A loop over a list that changes under it
  // ---------------------------------------------------------------------------------------------

  /** What the loop has visited up to position `at`, and what it still visits when the list is `rest` from then on. */
  function LoopVisits<T>(list: seq<T>, at: nat, rest: seq<T>): seq<T>
    requires at < |list|
  {
    list[..at + 1] + if at + 1 <= |rest| then rest[at + 1..] else []
  }

  /** Those that stay in the list and are not visited. */
  function Missed<T>(list: seq<T>, at: nat, rest: seq<T>): set<T>
    requires at < |list|
  {
    Elements(rest) - Elements(LoopVisits(list, at, rest))
  }

  function Min(a: nat, b: nat): nat {
    if a <= b then a else b
  }

  /** Those that stay and had been visited, and those that stay and had not. */
  function Before<T>(list: seq<T>, at: nat, rest: seq<T>): set<T>
    requires at < |list|
  {
    Elements(list[..at + 1]) * Elements(rest)
  }

  function Behind<T>(list: seq<T>, at: nat, rest: seq<T>): set<T>
    requires at < |list|
  {
    Elements(list[at + 1..]) * Elements(rest)
  }

  /** Those at the front that were removed. */
  function Gone<T>(list: seq<T>, at: nat, rest: seq<T>): set<T>
    requires at < |list|
  {
    Elements(list[..at + 1]) - Elements(rest)
  }

  lemma SlicesAreDistinct<T>(list: seq<T>, n: nat)
    requires Distinct(list) && n <= |list|
    ensures |Elements(list[..n])| == n && |Elements(list[n..])| == |list| - n
    ensures Elements(list[..n]) !! Elements(list[n..]) && Elements(list[..n]) + Elements(list[n..]) == Elements(list)
  {
    DistinctElements(list[..n]);
    DistinctElements(list[n..]);
    assert list == list[..n] + list[n..];
  }

  lemma VisitedStayInFront<T>(list: seq<T>, picks: seq<nat>, at: nat)
    requires Distinct(list) && at < |list|
    ensures var rest := SwapOuts(list, picks);
      && Elements(rest) <= Elements(list)
      && Before(list, at, rest) <= Elements(rest[..Min(at + 1, |rest|)])
  {
    var rest := SwapOuts(list, picks);
    forall x | x in rest
      ensures x in list
      ensures x in list[..at + 1] ==> x in rest[..Min(at + 1, |rest|)]
    {
      var p: nat :| p < |rest| && rest[p] == x;
      var q := MovesToFront(list, picks, p);
      if x in list[..at + 1] {
        var o: nat :| o <= at && list[o] == x;
        assert o == q;
        assert rest[..Min(at + 1, |rest|)][p] == x;
      }
    }
  }

  /**
   Elements are swapped out, in any order, while the loop is at position `at`: it misses as many of those that stay as
   it can, one for each that is removed from where the loop has been, as long as there are some behind.
   */
  lemma MissedExactly<T>(list: seq<T>, picks: seq<nat>, at: nat)
    requires Distinct(list) && at < |list|
    ensures var rest := SwapOuts(list, picks);
      && Missed(list, at, rest) <= Behind(list, at, rest)
      && |Missed(list, at, rest)| == Min(|Gone(list, at, rest)|, |Behind(list, at, rest)|)
  {
    var rest := SwapOuts(list, picks);
    var front := Min(at + 1, |rest|);
    StaysDistinct(list, picks);
    VisitedStayInFront(list, picks, at);
    SlicesAreDistinct(list, at + 1);
    SlicesAreDistinct(rest, front);
    var missed, before, behind := Missed(list, at, rest), Before(list, at, rest), Behind(list, at, rest);
    VisitedElements(list, at, rest);
    DistinctElements(rest);
    CountMissed(Elements(list[..at + 1]), Elements(list[at + 1..]), Elements(rest), Elements(rest[..front]));
  }

  lemma CountMissed<T>(front: set<T>, back: set<T>, rest: set<T>, restFront: set<T>)
    requires front !! back && rest <= front + back && restFront <= rest && front * rest <= restFront
    requires |restFront| == Min(|front|, |rest|)
    ensures restFront - front <= back * rest && |restFront - front| == Min(|front - rest|, |back * rest|)
  {
    Parts(restFront, restFront - front, front * rest);
    Parts(rest, front * rest, back * rest);
    Parts(front, front - rest, front * rest);
  }

  lemma Parts<T>(whole: set<T>, a: set<T>, b: set<T>)
    requires whole == a + b && a !! b
    ensures |whole| == |a| + |b|
  {
  }

  lemma VisitedElements<T>(list: seq<T>, at: nat, rest: seq<T>)
    requires Distinct(rest) && at < |list|
    ensures Missed(list, at, rest) == Elements(rest[..Min(at + 1, |rest|)]) - Elements(list[..at + 1])
  {
    var front := Min(at + 1, |rest|);
    SlicesAreDistinct(rest, front);
    var more := if at + 1 <= |rest| then rest[at + 1..] else [];
    assert more == rest[front..];
    ElementsAppend(list[..at + 1], more);
    assert Elements(rest) == Elements(rest[..front]) + Elements(more);
  }

  lemma InFront<T>(list: seq<T>, n: nat, k: nat)
    requires Distinct(list) && n <= |list| && k < |list|
    ensures list[k] in list[..n] <==> k < n
    ensures list[k] in Elements(list[..n]) <==> k < n
  {
    if k < n {
      assert list[..n][k] == list[k];
    }
  }

  lemma MissedAt<T>(list: seq<T>, at: nat, rest: seq<T>, p: nat)
    requires Distinct(rest) && at < |list| && p < |rest|
    ensures rest[p] in Missed(list, at, rest) <==> p <= at && rest[p] !in list[..at + 1]
  {
    VisitedElements(list, at, rest);
    InFront(rest, Min(at + 1, |rest|), p);
  }

  /** One element swapped out makes the loop miss the last one, and only if the loop has not been there. */
  lemma MissedBySwapOutExactlyWhen<T>(list: seq<T>, d: nat, at: nat, k: nat)
    requires Distinct(list) && at < |list| && d < |list| && k < |list| && k != d
    ensures list[k] in Missed(list, at, SwapOut(list, d)) <==> k == |list| - 1 && d <= at < k
  {
    hide Elements, Missed, LoopVisits;
    var rest := SwapOut(list, d);
    StaysDistinct(list, [d]);
    assert SwapOuts(list, [d]) == rest by {
      assert [d][1..] == [];
      assert SwapOuts(rest, []) == rest;
    }
    var p := if k == |list| - 1 then d else k;
    SwapOutAt(list, d, p);
    MissedAt(list, at, rest, p);
    InFront(list, at + 1, k);
  }
}
