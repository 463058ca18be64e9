/**
 Handing messages from partitions to consumers while consumers come and go (the goroutines started by
 redistributeConsumers, pushPartitionMsg, NewConsumer and closeConsumer in pipe/kafka.go).

 One goroutine per partition moves messages from Kafka into the partition's nextMsg slot and from the
 slot to its consumer's unbuffered channel.  A redistribution cancels all of them, waits, and starts
 new ones; a message caught in the slot must be neither lost nor handed over twice.
 */
module HandOff {
  import opened Options
  import opened Redistribution
  import opened SwapRemoval

  /** A message handed to the consumer that owns channel `channel`. */
  datatype Delivery = Delivery(channel: int, partition: nat, message: int)

  /** The log of the partition, how much of it was taken from Kafka, the slot, and its goroutine. */
  datatype Lane = Lane(log: seq<int>, taken: nat, nextMsg: Option<int>, channel: int, running: bool)

  datatype Topic = Topic(lanes: seq<Lane>, consumers: seq<int>, cancelled: bool, handed: seq<Delivery>)

  datatype Step =
    | Append(partition: nat, message: int)
    | Receive(partition: nat)
    | HandOver(partition: nat)
    | Stop(partition: nat)
    | Add(channel: int)
    | Remove(index: nat)
    | StartAll

  predicate Enabled(t: Topic, step: Step) {
    match step
    case Append(p, _) => p < |t.lanes|
    case Receive(p) => p < |t.lanes| && t.lanes[p].running && t.lanes[p].nextMsg.None? && t.lanes[p].taken < |t.lanes[p].log|
    case HandOver(p) => p < |t.lanes| && t.lanes[p].running && t.lanes[p].nextMsg.Some?
    case Stop(p) => p < |t.lanes| && t.lanes[p].running && t.cancelled
    case Add(channel) => !t.cancelled && |t.consumers| < |t.lanes| && channel !in t.consumers
    case Remove(i) => !t.cancelled && |t.consumers| > 1 && i < |t.consumers|
    case StartAll => t.cancelled && 1 <= |t.consumers| <= |t.lanes| && forall p :: 0 <= p < |t.lanes| ==> !t.lanes[p].running
  }

  function Apply(t: Topic, step: Step): Topic {
    if !Enabled(t, step) then t else
    match step
    case Append(p, m) => t.(lanes := t.lanes[p := t.lanes[p].(log := t.lanes[p].log + [m])])
    case Receive(p) =>
      var lane := t.lanes[p];
      t.(lanes := t.lanes[p := lane.(taken := lane.taken + 1, nextMsg := Some(lane.log[lane.taken]))])
    case HandOver(p) =>
      var lane := t.lanes[p];
      t.(lanes := t.lanes[p := lane.(nextMsg := None)],
         handed := t.handed + [Delivery(lane.channel, p, lane.nextMsg.value)])
    case Stop(p) => t.(lanes := t.lanes[p := t.lanes[p].(running := false)])
    case Add(channel) => t.(consumers := t.consumers + [channel], cancelled := true)
    case Remove(i) => t.(consumers := SwapOut(t.consumers, i), cancelled := true)
    case StartAll =>
      var channels := ChannelsFor(|t.lanes|, t.consumers);
      t.(lanes := seq(|t.lanes|, p requires 0 <= p < |t.lanes| => t.lanes[p].(channel := channels[p], running := true)),
         cancelled := false)
  }

  function Run(t: Topic, steps: seq<Step>): Topic
    decreases |steps|
  {
    if steps == [] then t else Run(Apply(t, steps[0]), steps[1..])
  }

  /** A topic on its first consumer: nothing taken, no goroutine running. */
  ghost predicate Initial(t: Topic) {
    && t.consumers == [] && !t.cancelled && t.handed == []
    && forall p :: 0 <= p < |t.lanes| ==>
         t.lanes[p].taken == 0 && t.lanes[p].nextMsg.None? && !t.lanes[p].running
  }

  /** The messages of one partition, in the order consumers got them. */
  function From(handed: seq<Delivery>, p: nat): seq<int> {
    if handed == [] then []
    else From(handed[..|handed| - 1], p) +
         (var last := handed[|handed| - 1]; if last.partition == p then [last.message] else [])
  }

  function Slot(m: Option<int>): seq<int> {
    if m.Some? then [m.value] else []
  }

  /** Handed over, then the slot: exactly what was taken from the log, in log order. */
  ghost predicate ExactlyOnce(t: Topic) {
    forall p :: 0 <= p < |t.lanes| ==>
      && t.lanes[p].taken <= |t.lanes[p].log|
      && From(t.handed, p) + Slot(t.lanes[p].nextMsg) == t.lanes[p].log[..t.lanes[p].taken]
  }

  /** Between redistributions every partition runs for the consumer its share names, and none is left out. */
  ghost predicate Distributed(t: Topic) {
    && |t.consumers| <= |t.lanes| && Distinct(t.consumers)
    && (t.consumers == [] ==> forall p :: 0 <= p < |t.lanes| ==> !t.lanes[p].running)
    && (!t.cancelled && t.consumers != [] ==>
          forall p :: 0 <= p < |t.lanes| ==>
            t.lanes[p].running && t.lanes[p].channel == ChannelsFor(|t.lanes|, t.consumers)[p])
    && (t.cancelled ==> t.consumers != [])
  }

  lemma FromAppend(handed: seq<Delivery>, d: Delivery, p: nat)
    ensures From(handed + [d], p) == From(handed, p) + (if d.partition == p then [d.message] else [])
  {
    assert (handed + [d])[..|handed|] == handed;
  }

  lemma StepKeepsExactlyOnce(t: Topic, step: Step)
    requires ExactlyOnce(t)
    ensures ExactlyOnce(Apply(t, step))
  {
    hide SwapOut, From, ChannelsFor;
    var u := Apply(t, step);
    if !Enabled(t, step) {
      return;
    }
    forall p | 0 <= p < |u.lanes|
      ensures u.lanes[p].taken <= |u.lanes[p].log|
      ensures From(u.handed, p) + Slot(u.lanes[p].nextMsg) == u.lanes[p].log[..u.lanes[p].taken]
    {
      match step
      case Append(q, m) =>
        assert (t.lanes[p].log + [m])[..t.lanes[p].taken] == t.lanes[p].log[..t.lanes[p].taken];
      case Receive(q) =>
      case HandOver(q) => FromAppend(t.handed, Delivery(t.lanes[q].channel, q, t.lanes[q].nextMsg.value), p);
      case _ =>
    }
  }

  lemma SwapOutDistinct(s: seq<int>, i: nat)
    requires Distinct(s) && i < |s|
    ensures Distinct(SwapOut(s, i))
    ensures forall x :: x in SwapOut(s, i) <==> x in s && x != s[i]
  {
    var r := SwapOut(s, i);
    forall x | x in s && x != s[i]
      ensures x in r
    {
      var k :| 0 <= k < |s| && s[k] == x;
      if k == |s| - 1 {
        assert r[i] == x;
      } else {
        assert r[k] == x;
      }
    }
  }

  lemma StepKeepsDistributed(t: Topic, step: Step)
    requires Distributed(t)
    ensures Distributed(Apply(t, step))
  {
    if Enabled(t, step) && step.Remove? {
      SwapOutDistinct(t.consumers, step.index);
    }
  }

  lemma {:induction false} RunKeeps(t: Topic, steps: seq<Step>)
    requires ExactlyOnce(t) && Distributed(t)
    ensures ExactlyOnce(Run(t, steps)) && Distributed(Run(t, steps))
    decreases |steps|
  {
    if steps != [] {
      StepKeepsExactlyOnce(t, steps[0]);
      StepKeepsDistributed(t, steps[0]);
      RunKeeps(Apply(t, steps[0]), steps[1..]);
    }
  }

  /**
   Over any interleaving of fetches, hand-overs, cancellations, and consumers added and removed, what
   consumers got from a partition followed by its slot is a prefix of the partition, in order.
   */
  lemma HandOffIsExactlyOnce(t: Topic, steps: seq<Step>)
    requires Initial(t)
    ensures ExactlyOnce(Run(t, steps)) && Distributed(Run(t, steps))
  {
    assert forall p :: 0 <= p < |t.lanes| ==> t.lanes[p].log[..0] == [];
    RunKeeps(t, steps);
  }

  /** Outside a redistribution every registered consumer is fed by at least one partition. */
  lemma EveryConsumerIsFed(t: Topic, c: nat)
    requires Distributed(t) && !t.cancelled && c < |t.consumers|
    ensures exists p :: 0 <= p < |t.lanes| && t.lanes[p].running && t.lanes[p].channel == t.consumers[c]
  {
    var owners := Owners(|t.lanes|, |t.consumers|);
    AssignmentIsTotal(|t.lanes|, |t.consumers|);
    assert Occurrences(owners, c) >= 1;
    assert c in owners;
    var p :| 0 <= p < |owners| && owners[p] == c;
    assert ChannelsFor(|t.lanes|, t.consumers)[p] == t.consumers[c];
  }

  /** Nothing is lost by stopping: once every slot is handed over, consumers have all that was taken. */
  lemma DrainedMeansAllHandedOver(t: Topic, p: nat)
    requires ExactlyOnce(t) && p < |t.lanes| && t.lanes[p].nextMsg.None?
    ensures From(t.handed, p) == t.lanes[p].log[..t.lanes[p].taken]
  {
    assert From(t.handed, p) + [] == From(t.handed, p);
  }

  // ---------------------------------------------------------------------------------------------
  // Who gets a message
  // ---------------------------------------------------------------------------------------------

  /** The channel of the consumer whose share of a topic, shared out among `consumers`, has partition p. */
  function OwnerOf(parts: nat, consumers: seq<int>, p: nat): int
    requires 1 <= |consumers| <= parts && p < parts
  {
    OwnersAreConsumers(parts, |consumers|);
    consumers[Owners(parts, |consumers|)[p]]
  }

  /** Outside a redistribution a partition's message goes to the consumer whose share has the partition. */
  lemma HandOverGoesToOwner(t: Topic, p: nat)
    requires Distributed(t) && !t.cancelled && Enabled(t, HandOver(p))
    ensures 1 <= |t.consumers| <= |t.lanes|
    ensures Apply(t, HandOver(p)).handed
         == t.handed + [Delivery(OwnerOf(|t.lanes|, t.consumers, p), p, t.lanes[p].nextMsg.value)]
  {
    hide Owners, SwapOut;
  }

  /** The consumers the partitions were shared out among last. */
  function RoundAfter(t: Topic, round: seq<int>, step: Step): seq<int> {
    if step.StartAll? && Enabled(t, step) then t.consumers else round
  }

  /** For each delivery of a run, the consumers of the redistribution it was made in. */
  function Rounds(t: Topic, round: seq<int>, steps: seq<Step>): seq<seq<int>>
    decreases |steps|
  {
    if steps == [] then []
    else (if steps[0].HandOver? && Enabled(t, steps[0]) then [round] else [])
         + Rounds(Apply(t, steps[0]), RoundAfter(t, round, steps[0]), steps[1..])
  }

  /** Every goroutine that runs, also one that is cancelled already, serves the consumer it was started for. */
  ghost predicate Serving(t: Topic, round: seq<int>) {
    forall p :: 0 <= p < |t.lanes| && t.lanes[p].running ==>
      1 <= |round| <= |t.lanes| && t.lanes[p].channel == OwnerOf(|t.lanes|, round, p)
  }

  lemma StepKeepsServing(t: Topic, round: seq<int>, step: Step)
    requires Serving(t, round)
    ensures Serving(Apply(t, step), RoundAfter(t, round, step))
  {
    hide SwapOut, Owners;
  }

  ghost predicate WentToOwner(parts: nat, d: Delivery, round: seq<int>) {
    1 <= |round| <= parts && d.partition < parts && d.channel == OwnerOf(parts, round, d.partition)
  }

  lemma {:induction false} RunServesOwners(t: Topic, round: seq<int>, steps: seq<Step>)
    requires Serving(t, round)
    ensures var more := Rounds(t, round, steps);
      && t.handed <= Run(t, steps).handed && |Run(t, steps).handed| == |t.handed| + |more|
      && forall i :: 0 <= i < |more| ==> WentToOwner(|t.lanes|, Run(t, steps).handed[|t.handed| + i], more[i])
    decreases |steps|
  {
    hide Serving, Apply, WentToOwner;
    if steps != [] {
      var u := Apply(t, steps[0]);
      StepKeepsServing(t, round, steps[0]);
      StepServesOwner(t, round, steps[0]);
      RunServesOwners(u, RoundAfter(t, round, steps[0]), steps[1..]);
      var more, rest := Rounds(t, round, steps), Rounds(u, RoundAfter(t, round, steps[0]), steps[1..]);
      forall i | 0 <= i < |more|
        ensures WentToOwner(|t.lanes|, Run(t, steps).handed[|t.handed| + i], more[i])
      {
        var k := i - (|more| - |rest|);
        if k >= 0 {
          assert more[i] == rest[k];
        }
      }
    }
  }

  lemma StepServesOwner(t: Topic, round: seq<int>, step: Step)
    requires Serving(t, round)
    ensures var u := Apply(t, step);
      && |u.lanes| == |t.lanes| && t.handed <= u.handed
      && |u.handed| == |t.handed| + (if step.HandOver? && Enabled(t, step) then 1 else 0)
      && (step.HandOver? && Enabled(t, step) ==> WentToOwner(|t.lanes|, u.handed[|t.handed|], round))
  {
    hide SwapOut, OwnerOf;
  }

  /**
   Over any interleaving every message goes to the consumer that had its partition in the redistribution under way or
   last done, however many came before it.
   */
  lemma MessagesGoToOwners(t: Topic, steps: seq<Step>)
    requires Initial(t)
    ensures var handed, rounds := Run(t, steps).handed, Rounds(t, [], steps);
      && |handed| == |rounds|
      && forall i :: 0 <= i < |handed| ==>
           && 1 <= |rounds[i]| <= |t.lanes| && handed[i].partition < |t.lanes|
           && handed[i].channel == OwnerOf(|t.lanes|, rounds[i], handed[i].partition)
  {
    hide Run, Rounds, OwnerOf;
    RunServesOwners(t, [], steps);
    var handed, rounds := Run(t, steps).handed, Rounds(t, [], steps);
    forall i | 0 <= i < |handed|
      ensures WentToOwner(|t.lanes|, handed[i], rounds[i])
    {
      assert handed[|t.handed| + i] == handed[i];
    }
  }
}
