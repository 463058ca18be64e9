/**
 How the partitions of a topic are shared out among its consumers (redistributeConsumers,
 NewConsumer and closeConsumer in pipe/kafka.go).
 */
module Redistribution {
  import opened Options
  import opened SwapRemoval

  // ---------------------------------------------------------------------------------------------
  // Arithmetic
  // ---------------------------------------------------------------------------------------------

  lemma MulMono(a: nat, b: nat, k: nat)
    requires a <= b
    ensures a * k <= b * k
  {
  }

  /** Quotient and remainder are determined by the division equation. */
  lemma MultiplePlus(q: nat, per: nat, d: nat)
    requires d < per
    ensures (per * q + d) % per == d && (per * q + d) / per == q
  {
    var x := per * q + d;
    var q0, d0 := x / per, x % per;
    assert x == per * q0 + d0;
    assert per * q - per * q0 == (q - q0) * per;
    if q0 < q {
      MulMono(1, q - q0, per);
    } else if q < q0 {
      MulMono(1, q0 - q, per);
    }
  }

  lemma AddOne(x: nat, per: nat)
    requires per > 0
    ensures (x + per) % per == x % per && (x + per) / per == x / per + 1
  {
    var q, r := x / per, x % per;
    assert x == per * q + r;
    assert x + per == per * (q + 1) + r;
    MultiplePlus(q + 1, per, r);
  }

  lemma ModShift(x: nat, d: nat, per: nat)
    requires d < per && x % per == 0
    ensures (x + d) % per == d
  {
    assert x == per * (x / per);
    MultiplePlus(x / per, per, d);
  }

  // ---------------------------------------------------------------------------------------------
  // The shares
  // ---------------------------------------------------------------------------------------------

  /**
   The number of partitions the next consumer gets: the remainder of dividing by the fair share when
   there is one, else the fair share itself.
   */
  function Share(parts: nat, consumers: nat): (n: nat)
    requires parts >= consumers >= 1
    ensures 1 <= n <= parts / consumers
    ensures (parts - n) % (parts / consumers) == 0
    ensures parts - n >= consumers - 1
    ensures consumers == 1 ==> n == parts
  {
    FairShare(parts, consumers);
    var per := parts / consumers;
    if parts % per == 0 then per else parts % per
  }

  lemma FairShareSize(parts: nat, consumers: nat)
    requires parts >= consumers >= 1
    ensures var per := parts / consumers;
      1 <= per <= parts && parts - per >= consumers - 1 && (consumers == 1 ==> per == parts)
  {
    var per := parts / consumers;
    assert parts == consumers * per + parts % consumers;
    assert per == 0 ==> consumers * per == 0;
    MulMono(1, per, consumers - 1);
    assert consumers * per == per * (consumers - 1) + per;
  }

  lemma FairShareMod(parts: nat, per: nat)
    requires 1 <= per <= parts
    ensures (parts - per) % per == parts % per
    ensures (parts - parts % per) % per == 0
    ensures per == parts ==> parts % per == 0
  {
    AddOne(parts - per, per);
    assert parts - parts % per == per * (parts / per) + 0;
    MultiplePlus(parts / per, per, 0);
    MultiplePlus(1, per, 0);
  }

  lemma FairShare(parts: nat, consumers: nat)
    requires parts >= consumers >= 1
    ensures var per := parts / consumers;
      && 1 <= per <= parts && parts - per >= consumers - 1
      && (parts - per) % per == parts % per
      && (parts - parts % per) % per == 0
      && (consumers == 1 ==> per == parts && parts % per == 0)
  {
    FairShareSize(parts, consumers);
    FairShareMod(parts, parts / consumers);
  }

  /** How many partitions each consumer gets. */
  function Shares(parts: nat, consumers: nat): (shares: seq<nat>)
    requires parts >= consumers && (consumers == 0 ==> parts == 0)
    ensures |shares| == consumers
    ensures forall j :: 0 <= j < consumers ==> shares[j] >= 1
    ensures Sum(shares) == parts
    decreases consumers
  {
    if consumers == 0 then []
    else [Share(parts, consumers)] + Shares(parts - Share(parts, consumers), consumers - 1)
  }

  function Sum(s: seq<nat>): nat {
    if s == [] then 0 else s[0] + Sum(s[1..])
  }

  function Repeat(j: nat, n: nat): (r: seq<nat>)
    ensures |r| == n && forall i :: 0 <= i < n ==> r[i] == j
  {
    seq(n, _ => j)
  }

  /** Consecutive blocks: shares[0] times `from`, then shares[1] times `from + 1`, and so on. */
  function Expand(shares: seq<nat>, from: nat): (owners: seq<nat>)
    ensures |owners| == Sum(shares)
  {
    if shares == [] then [] else Repeat(from, shares[0]) + Expand(shares[1..], from + 1)
  }

  /** Owners(parts, consumers)[i] is the index of the consumer that gets partition i. */
  function Owners(parts: nat, consumers: nat): (owners: seq<nat>)
    requires parts >= consumers >= 1
    ensures |owners| == parts
  {
    Expand(Shares(parts, consumers), 0)
  }

  function Occurrences(owners: seq<nat>, j: nat): nat {
    multiset(owners)[j]
  }

  /** Non-decreasing, and between lo and hi. */
  ghost predicate Ordered(owners: seq<nat>, lo: nat, hi: nat) {
    && (forall i :: 0 <= i < |owners| ==> lo <= owners[i] < hi)
    && (forall i, k :: 0 <= i <= k < |owners| ==> owners[i] <= owners[k])
  }

  lemma {:induction false} ExpandIsOrdered(shares: seq<nat>, from: nat)
    ensures Ordered(Expand(shares, from), from, from + |shares|)
    decreases |shares|
  {
    if shares != [] {
      var block, rest := Repeat(from, shares[0]), Expand(shares[1..], from + 1);
      ExpandIsOrdered(shares[1..], from + 1);
      assert Ordered(rest, from + 1, from + |shares|);
      assert Ordered(block + rest, from, from + |shares|);
    }
  }

  lemma OccurrencesAppend(a: seq<nat>, b: seq<nat>, x: nat)
    ensures Occurrences(a + b, x) == Occurrences(a, x) + Occurrences(b, x)
  {
    assert multiset(a + b) == multiset(a) + multiset(b);
  }

  lemma NoOccurrence(s: seq<nat>, x: nat)
    requires forall i :: 0 <= i < |s| ==> s[i] != x
    ensures Occurrences(s, x) == 0
  {
    assert x !in s;
  }

  lemma {:induction false} ExpandCounts(shares: seq<nat>, from: nat, j: nat)
    requires j < |shares|
    ensures Occurrences(Expand(shares, from), from + j) == shares[j]
    decreases |shares|
  {
    hide Occurrences;
    var block, rest := Repeat(from, shares[0]), Expand(shares[1..], from + 1);
    OccurrencesAppend(block, rest, from + j);
    if j == 0 {
      RepeatOccurrences(from, shares[0]);
      ExpandIsOrdered(shares[1..], from + 1);
      NoOccurrence(rest, from);
    } else {
      NoOccurrence(block, from + j);
      ExpandCounts(shares[1..], from + 1, j - 1);
    }
  }

  lemma {:induction false} RepeatOccurrences(j: nat, n: nat)
    ensures Occurrences(Repeat(j, n), j) == n
    decreases n
  {
    if n != 0 {
      RepeatOccurrences(j, n - 1);
      assert Repeat(j, n) == Repeat(j, n - 1) + [j];
    }
  }

  lemma OwnersAreConsumers(parts: nat, consumers: nat)
    requires parts >= consumers >= 1
    ensures forall i :: 0 <= i < parts ==> Owners(parts, consumers)[i] < consumers
  {
    ExpandIsOrdered(Shares(parts, consumers), 0);
    assert Ordered(Owners(parts, consumers), 0, consumers);
  }

  /**
   The assignment is total and safe for every number of partitions and consumers: every partition
   has one registered consumer, in contiguous blocks, and no consumer is left without a partition.
   */
  lemma AssignmentIsTotal(parts: nat, consumers: nat)
    requires parts >= consumers >= 1
    ensures var owners := Owners(parts, consumers);
      && (forall i :: 0 <= i < parts ==> owners[i] < consumers)
      && (forall i, k :: 0 <= i <= k < parts ==> owners[i] <= owners[k])
      && (forall j :: 0 <= j < consumers ==> Occurrences(owners, j) == Shares(parts, consumers)[j] >= 1)
  {
    ExpandIsOrdered(Shares(parts, consumers), 0);
    assert Ordered(Owners(parts, consumers), 0, consumers);
    forall j | 0 <= j < consumers
      ensures Occurrences(Owners(parts, consumers), j) == Shares(parts, consumers)[j]
    {
      ExpandCounts(Shares(parts, consumers), 0, j);
    }
  }

  lemma {:induction false} EqualShares(each: nat, consumers: nat)
    requires each >= 1
    ensures each * consumers >= consumers
    ensures Shares(each * consumers, consumers) == Repeat(each, consumers)
    decreases consumers
  {
    MulMono(1, each, consumers);
    if consumers != 0 {
      var parts := each * consumers;
      assert parts == consumers * each + 0;
      MultiplePlus(each, consumers, 0);
      assert parts / consumers == each;
      MultiplePlus(consumers, each, 0);
      assert Share(parts, consumers) == each;
      assert parts - each == each * (consumers - 1);
      EqualShares(each, consumers - 1);
    }
  }

  lemma {:induction false} SumOfEqual(shares: seq<nat>, each: nat)
    requires forall j :: 0 <= j < |shares| ==> shares[j] == each
    ensures Sum(shares) == each * |shares|
    decreases |shares|
  {
    if shares != [] {
      SumOfEqual(shares[1..], each);
      assert each * |shares| == each * (|shares| - 1) + each;
    }
  }

  ghost predicate AllEqual(shares: seq<nat>) {
    forall j, k :: 0 <= j < |shares| && 0 <= k < |shares| ==> shares[j] == shares[k]
  }

  /** All consumers get the same number of partitions exactly when the division leaves no remainder. */
  lemma EqualSharesExactlyWhen(parts: nat, consumers: nat)
    requires parts >= consumers >= 1
    ensures AllEqual(Shares(parts, consumers)) <==> parts % consumers == 0
  {
    if parts % consumers == 0 {
      assert parts == (parts / consumers) * consumers;
      FairShareSize(parts, consumers);
      EqualShares(parts / consumers, consumers);
    }
    if AllEqual(Shares(parts, consumers)) {
      EqualMeansDivides(Shares(parts, consumers));
    }
  }

  lemma EqualMeansDivides(shares: seq<nat>)
    requires AllEqual(shares) && shares != []
    ensures Sum(shares) % |shares| == 0
  {
    SumOfEqual(shares, shares[0]);
    assert Sum(shares) == |shares| * shares[0] + 0;
    MultiplePlus(shares[0], |shares|, 0);
  }

  /** The shares need not be balanced: eleven partitions over four consumers. */
  lemma UnbalancedShares()
    ensures Shares(11, 4) == [1, 1, 1, 8]
  {
    assert Share(11, 4) == 1 && Share(10, 3) == 1 && Share(9, 2) == 1 && Share(8, 1) == 8;
    assert Shares(8, 1) == [8] && Shares(9, 2) == [1] + Shares(8, 1) && Shares(10, 3) == [1] + Shares(9, 2);
  }

  // ---------------------------------------------------------------------------------------------
  // The topic and its consumers
  // ---------------------------------------------------------------------------------------------

  /** The channel of every partition after a redistribution. */
  function ChannelsFor(parts: nat, consumers: seq<int>): (channels: seq<int>)
    requires parts >= |consumers| >= 1
    ensures |channels| == parts
  {
    OwnersAreConsumers(parts, |consumers|);
    seq(parts, i requires 0 <= i < parts => consumers[Owners(parts, |consumers|)[i]])
  }

  /**
   The loop at partition i: consumer j, with `consumers` still to serve, is being given a block that
   has `left` partitions to go and `after` partitions behind it; `per` is what the loop divides by.
   */
  datatype Loop = Loop(i: nat, consumers: nat, j: nat, per: nat, left: nat, after: nat)

  predicate Multiple(n: nat, per: nat)
    requires per > 0
  {
    n % per == 0
  }

  /** The partitions after the current block are shared out among the consumers after this one. */
  ghost predicate InBlock(owners: seq<nat>, s: Loop) {
    && s.i + s.left + s.after == |owners| && s.consumers >= 1 && 1 <= s.left <= s.per
    && Multiple(s.after, s.per)
    && s.after >= s.consumers - 1 && (s.consumers == 1 ==> s.after == 0)
    && owners[s.i..] == Repeat(s.j, s.left) + Expand(Shares(s.after, s.consumers - 1), s.j + 1)
  }

  function NewBlock(parts: nat, i: nat, consumers: nat, j: nat): Loop
    requires i <= parts && parts - i >= consumers >= 1
  {
    var share := Share(parts - i, consumers);
    Loop(i, consumers, j, (parts - i) / consumers, share, parts - i - share)
  }

  lemma NewBlockIsInBlock(owners: seq<nat>, i: nat, consumers: nat, j: nat)
    requires i < |owners| && |owners| - i >= consumers >= 1
    requires owners[i..] == Expand(Shares(|owners| - i, consumers), j)
    ensures InBlock(owners, NewBlock(|owners|, i, consumers, j))
  {
    FairShare(|owners| - i, consumers);
  }

  /** The test of the loop, with `left` partitions to go. */
  predicate IsLast(left: nat, per: nat)
    requires left > 0 && per > 0
  {
    (left - 1) % per == 0
  }

  /** The test of the loop detects exactly the last partition of a block. */
  lemma LastOfBlock(owners: seq<nat>, s: Loop)
    requires InBlock(owners, s)
    ensures IsLast(|owners| - s.i, s.per) <==> s.left == 1
  {
    ModShift(s.after, s.left - 1, s.per);
    assert |owners| - s.i - 1 == s.after + (s.left - 1);
  }

  lemma TailOfBlock(owners: seq<nat>, i: nat, j: nat, left: nat, rest: seq<nat>)
    requires i < |owners| && left >= 1 && owners[i..] == Repeat(j, left) + rest
    ensures owners[i] == j && owners[i + 1..] == Repeat(j, left - 1) + rest
    ensures left == 1 ==> owners[i + 1..] == rest
  {
    assert owners[i] == owners[i..][0];
    assert owners[i + 1..] == owners[i..][1..];
    assert (Repeat(j, left) + rest)[1..] == Repeat(j, left - 1) + rest;
    assert Repeat(j, 0) + rest == rest;
  }

  lemma WithinBlock(owners: seq<nat>, s: Loop)
    requires InBlock(owners, s)
    ensures owners[s.i] == s.j
    ensures s.left > 1 ==> InBlock(owners, s.(i := s.i + 1, left := s.left - 1))
    ensures s.left == 1 ==> owners[s.i + 1..] == Expand(Shares(s.after, s.consumers - 1), s.j + 1)
  {
    TailOfBlock(owners, s.i, s.j, s.left, Expand(Shares(s.after, s.consumers - 1), s.j + 1));
  }

  /**
   What the loop computes from `left` partitions before its end: nothing when it would divide by zero
   or index past the last consumer, else the consumer of every partition still to be assigned.
   */
  function RunLoop(left: nat, consumers: nat, j: nat, per: nat): Option<seq<nat>> {
    if left == 0 then Some([])
    else if consumers == 0 || per == 0 then None
    else
      var rest :=
        if (left - 1) % per != 0 then RunLoop(left - 1, consumers, j, per)
        else if consumers == 1 then RunLoop(left - 1, 0, j + 1, per)
        else RunLoop(left - 1, consumers - 1, j + 1, (left - 1) / (consumers - 1));
      if rest.None? then None else Some([j] + rest.value)
  }

  lemma TakeFromRest(given: seq<nat>, owners: seq<nat>, left: nat, consumers: nat, j: nat, per: nat)
    requires left > 0
    requires var rest := RunLoop(left, consumers, j, per); rest.Some? && owners == given + rest.value
    ensures consumers > 0 && per > 0
    ensures var rest :=
        if (left - 1) % per != 0 then RunLoop(left - 1, consumers, j, per)
        else if consumers == 1 then RunLoop(left - 1, 0, j + 1, per)
        else RunLoop(left - 1, consumers - 1, j + 1, (left - 1) / (consumers - 1));
      rest.Some? && owners == given + [j] + rest.value
  {
  }

  lemma QuotientIsNat(a: nat, b: nat)
    requires b > 0
    ensures a / b >= 0
  {
  }

  /** The loop goes on as it would have from its next partition. */
  lemma WithinBlockStep(left: nat, consumers: nat, j: nat, per: nat, tail: seq<nat>)
    requires left > 0 && consumers > 0 && per > 0 && !IsLast(left, per)
    requires RunLoop(left - 1, consumers, j, per) == Some(tail)
    ensures RunLoop(left, consumers, j, per) == Some([j] + tail)
  {
  }

  lemma NextBlockStep(left: nat, consumers: nat, j: nat, per: nat, next: nat, tail: seq<nat>)
    requires left > 0 && consumers > 1 && per > 0 && IsLast(left, per) && next == (left - 1) / (consumers - 1)
    requires RunLoop(left - 1, consumers - 1, j + 1, next) == Some(tail)
    ensures RunLoop(left, consumers, j, per) == Some([j] + tail)
  {
  }

  lemma LastStep(left: nat, consumers: nat, j: nat, per: nat)
    requires left == consumers == 1 && per > 0 && IsLast(left, per)
    ensures RunLoop(left, consumers, j, per) == Some([j])
  {
    assert RunLoop(left - 1, 0, j + 1, per) == Some([]);
    assert [j] + [] == [j];
  }

  lemma BlockBounds(owners: seq<nat>, s: Loop)
    requires InBlock(owners, s)
    ensures s.i < |owners| && s.consumers >= 1 && s.per >= 1 && s.left >= 1
    ensures s.left == 1 && s.consumers == 1 ==> s.i + 1 == |owners|
    ensures s.i + s.left <= |owners|
  {
    hide Multiple, Expand, Shares;
  }

  lemma StaysInBlock(owners: seq<nat>, s: Loop)
    requires InBlock(owners, s) && s.left > 1
    requires RunLoop(|owners| - s.i - 1, s.consumers, s.j, s.per) == Some(owners[s.i + 1..])
    ensures RunLoop(|owners| - s.i, s.consumers, s.j, s.per) == Some([s.j] + owners[s.i + 1..])
  {
    hide InBlock, RunLoop, IsLast;
    BlockBounds(owners, s);
    LastOfBlock(owners, s);
    WithinBlockStep(|owners| - s.i, s.consumers, s.j, s.per, owners[s.i + 1..]);
  }

  lemma NextBlock(owners: seq<nat>, s: Loop) returns (next: Loop)
    requires InBlock(owners, s) && s.left == 1 && s.consumers > 1
    ensures next.i == s.i + 1 && next.consumers == s.consumers - 1 && next.j == s.j + 1
    ensures InBlock(owners, next) && next.per == (|owners| - s.i - 1) / (s.consumers - 1)
  {
    WithinBlock(owners, s);
    NewBlockIsInBlock(owners, s.i + 1, s.consumers - 1, s.j + 1);
    next := NewBlock(|owners|, s.i + 1, s.consumers - 1, s.j + 1);
  }

  lemma LeavesBlock(owners: seq<nat>, s: Loop, next: Loop)
    requires InBlock(owners, s) && s.left == 1 && s.consumers > 1
    requires next.per == (|owners| - s.i - 1) / (s.consumers - 1)
    requires RunLoop(|owners| - s.i - 1, s.consumers - 1, s.j + 1, next.per) == Some(owners[s.i + 1..])
    ensures RunLoop(|owners| - s.i, s.consumers, s.j, s.per) == Some([s.j] + owners[s.i + 1..])
  {
    hide InBlock, RunLoop, IsLast;
    BlockBounds(owners, s);
    LastOfBlock(owners, s);
    NextBlockStep(|owners| - s.i, s.consumers, s.j, s.per, next.per, owners[s.i + 1..]);
  }

  lemma EndsLastBlock(owners: seq<nat>, s: Loop)
    requires InBlock(owners, s) && s.left == 1 && s.consumers == 1
    ensures RunLoop(|owners| - s.i, s.consumers, s.j, s.per) == Some([s.j])
  {
    hide InBlock, RunLoop, IsLast;
    BlockBounds(owners, s);
    LastOfBlock(owners, s);
    LastStep(|owners| - s.i, s.consumers, s.j, s.per);
  }

  lemma {:induction false} LoopFollowsBlocks(owners: seq<nat>, s: Loop)
    requires InBlock(owners, s)
    ensures RunLoop(|owners| - s.i, s.consumers, s.j, s.per) == Some(owners[s.i..])
    decreases |owners| - s.i
  {
    hide RunLoop, InBlock, NewBlock;
    BlockBounds(owners, s);
    WithinBlock(owners, s);
    TakeOne(owners, s.i);
    if s.left > 1 {
      LoopFollowsBlocks(owners, s.(i := s.i + 1, left := s.left - 1));
      StaysInBlock(owners, s);
    } else if s.consumers > 1 {
      var next := NextBlock(owners, s);
      LoopFollowsBlocks(owners, next);
      LeavesBlock(owners, s, next);
    } else {
      EndsLastBlock(owners, s);
    }
  }

  lemma TakeOne(owners: seq<nat>, i: nat)
    requires i < |owners|
    ensures owners[i..] == [owners[i]] + owners[i + 1..]
    ensures i + 1 == |owners| ==> owners[i..] == [owners[i]]
  {
  }


  /** The loop is total and computes the shares for every number of partitions and consumers. */
  lemma LoopComputesOwners(parts: nat, consumers: nat)
    requires parts >= consumers >= 1
    ensures RunLoop(parts, consumers, 0, parts / consumers) == Some(Owners(parts, consumers))
  {
    var owners := Owners(parts, consumers);
    assert owners[0..] == owners;
    NewBlockIsInBlock(owners, 0, consumers, 0);
    LoopFollowsBlocks(owners, NewBlock(parts, 0, consumers, 0));
  }

  datatype CloseResult = Redistributed | TopicClosed | NotRegistered | NotCommitted | NotReleased

  class TopicConsumer {
    var consumers: seq<int>
    var childConsumer: seq<int>
    var closed: bool

    /** As many partitions as there are cells in childConsumer, never fewer than consumers. */
    ghost predicate Valid()
      reads this
    {
      |consumers| <= |childConsumer|
    }

    constructor (partitions: nat)
      ensures Valid() && consumers == [] && |childConsumer| == partitions && !closed
    {
      consumers := [];
      childConsumer := seq(partitions, _ => 0);
      closed := false;
    }

    /** The loop of redistributeConsumers: partition i gets the channel of the consumer RunLoop gives it. */
    method AssignPartitions()
      requires Valid() && |consumers| > 0
      requires RunLoop(|childConsumer|, |consumers|, 0, |childConsumer| / |consumers|).Some?
      modifies this`childConsumer
      ensures |childConsumer| == |old(childConsumer)|
      ensures var owners := RunLoop(|childConsumer|, |consumers|, 0, |childConsumer| / |consumers|).value;
        |owners| == |childConsumer| &&
        forall k :: 0 <= k < |owners| ==> owners[k] < |consumers| && childConsumer[k] == consumers[owners[k]]
    {
      var nparts := |childConsumer|;
      ghost var owners := RunLoop(nparts, |consumers|, 0, nparts / |consumers|).value;
      ghost var given: seq<nat> := [];
      var j := 0;
      var partsPerConsumer: nat := nparts / (|consumers| - j);
      var i := 0;
      while i < nparts
        invariant 0 <= i == |given| <= nparts == |childConsumer| && 0 <= j <= |consumers|
        invariant forall k :: 0 <= k < i ==> given[k] < |consumers| && childConsumer[k] == consumers[given[k]]
        invariant var rest := RunLoop(nparts - i, |consumers| - j, j, partsPerConsumer);
          rest.Some? && owners == given + rest.value
      {
        childConsumer := childConsumer[i := consumers[j]];
        TakeFromRest(given, owners, nparts - i, |consumers| - j, j, partsPerConsumer);
        given := given + [j];
        if (nparts - i - 1) % partsPerConsumer == 0 {
          j := j + 1;
          if |consumers| != j {
            QuotientIsNat(nparts - i - 1, |consumers| - j);
            partsPerConsumer := (nparts - i - 1) / (|consumers| - j);
          }
        }
        i := i + 1;
      }
      assert owners == given;
    }

    method RedistributeConsumers()
      requires Valid()
      modifies this`childConsumer
      ensures Valid() && |childConsumer| == |old(childConsumer)|
      ensures if consumers == [] then childConsumer == old(childConsumer)
              else childConsumer == ChannelsFor(|childConsumer|, consumers)
    {
      if |consumers| == 0 {
        return;
      }
      LoopComputesOwners(|childConsumer|, |consumers|);
      AssignPartitions();
    }

    /**
     Fails, changing nothing, when every partition already has a consumer of its own, or when `initialized` says that
     the pipe or the topic could not be set up for its first consumer.
     */
    method NewConsumer(channel: int, initialized: bool) returns (ok: bool)
      requires Valid() && !closed
      modifies this`consumers, this`childConsumer
      ensures Valid() && |childConsumer| == |old(childConsumer)|
      ensures ok == ((initialized || old(consumers) != []) && |old(consumers)| < |childConsumer|)
      ensures if ok then consumers == old(consumers) + [channel] && childConsumer == ChannelsFor(|childConsumer|, consumers)
              else consumers == old(consumers) && childConsumer == old(childConsumer)
    {
      if |consumers| == 0 && !initialized {
        return false;
      }
      if |consumers| >= |childConsumer| {
        return false;
      }
      consumers := consumers + [channel];
      RedistributeConsumers();
      return true;
    }

    /**
     A graceful close commits first, and when that fails the consumer stays. `released` says whether closing the
     partitions, which only the last consumer does, succeeds; the topic stays registered otherwise.
     */
    method CloseConsumer(channel: int, graceful: bool, committed: bool, released: bool) returns (result: CloseResult)
      requires Valid() && !closed
      modifies this
      ensures Valid() && |childConsumer| == |old(childConsumer)|
      ensures result.NotCommitted? <==> graceful && !committed
      ensures match result
        case NotReleased =>
          |old(consumers)| <= 1 && !released && consumers == old(consumers) && childConsumer == old(childConsumer) && !closed
        case NotCommitted => consumers == old(consumers) && childConsumer == old(childConsumer) && !closed
        case NotRegistered =>
          |old(consumers)| > 1 && channel !in old(consumers) && consumers == old(consumers) && childConsumer == old(childConsumer) && !closed
        case TopicClosed => |old(consumers)| <= 1 && released && closed
        case Redistributed =>
          && !closed && |consumers| >= 1
          && (exists i :: 0 <= i < |old(consumers)| && old(consumers)[i] == channel && channel !in old(consumers)[..i]
                && consumers == SwapOut(old(consumers), i))
          && childConsumer == ChannelsFor(|childConsumer|, consumers)
    {
      if graceful && !committed {
        return NotCommitted;
      }
      if |consumers| > 1 {
        var i := 0;
        while i < |consumers| && consumers[i] != channel
          invariant 0 <= i <= |consumers| && channel !in consumers[..i]
        {
          i := i + 1;
        }
        if i >= |consumers| {
          return NotRegistered;
        }
        var last := |consumers| - 1;
        consumers := consumers[i := consumers[last]];
        consumers := consumers[..last];
        assert consumers == SwapOut(old(consumers), i);
        RedistributeConsumers();
        return Redistributed;
      } else {
        if !released {
          return NotReleased;
        }
        closed := true;
        return TopicClosed;
      }
    }
  }
}
