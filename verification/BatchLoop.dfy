/**
 The streamer's inner loop (processBatch in streamer/buffer.go) as a method, and its refinement of
 the interleaved steps of Delivery.
 */
module BatchLoop {
  import opened Options
  import opened Delivery

  /**
   What one call does: the events pushed, the rest of the channel, how many events are left in the producer's batch,
   and whether it stopped on an error.
   */
  datatype Drained = Drained(pushed: seq<Message>, rest: seq<Option<Message>>, queued: nat, failed: bool)

  /**
   Events that cannot be produced, and those whose push fills the producer's batch while the broker refuses it; such
   an event is in the batch all the same.
   */
  datatype Faults = Faults(rejected: set<Message>, stuck: set<Message>)

  /** The batch after one more event: a full one is sent at once. */
  function Queued(queued: nat, capacity: nat): nat {
    if queued + 1 >= capacity then 0 else queued + 1
  }

  predicate Stuck(m: Message, queued: nat, capacity: nat, faults: Faults) {
    queued + 1 >= capacity && m in faults.stuck
  }

  /**
   Takes events without blocking until the batch is full, the channel is empty, or the end marker
   (None) is met.  An event that carries an error, or that cannot be produced, ends it with a failure.
   */
  function Drain(next: Option<Message>, channel: seq<Option<Message>>, room: int, queued: nat, capacity: nat,
                 faults: Faults): Drained
    decreases |channel|
  {
    if next.None? then Drained([], channel, queued, false)
    else if !next.value.ok || next.value in faults.rejected then Drained([], channel, queued, true)
    else if Stuck(next.value, queued, capacity, faults) then Drained([next.value], channel, queued + 1, true)
    else if room <= 1 || channel == [] then Drained([next.value], channel, Queued(queued, capacity), false)
    else
      var d := Drain(channel[0], channel[1..], room - 1, Queued(queued, capacity), capacity, faults);
      d.(pushed := [next.value] + d.pushed)
  }

  function Prefixed(before: seq<Message>, d: Drained): Drained {
    d.(pushed := before + d.pushed)
  }

  /** One pass through the loop body, seen from the whole call. */
  lemma PrefixedStep(before: seq<Message>, next: Option<Message>, channel: seq<Option<Message>>, room: int,
                     queued: nat, capacity: nat, faults: Faults)
    requires next.Some? && next.value.ok && next.value !in faults.rejected
    requires !Stuck(next.value, queued, capacity, faults)
    ensures Prefixed(before, Drain(next, channel, room, queued, capacity, faults)) ==
      if room <= 1 || channel == [] then Drained(before + [next.value], channel, Queued(queued, capacity), false)
      else Prefixed(before + [next.value],
                    Drain(channel[0], channel[1..], room - 1, Queued(queued, capacity), capacity, faults))
  {
    if room > 1 && channel != [] {
      var d := Drain(channel[0], channel[1..], room - 1, Queued(queued, capacity), capacity, faults);
      assert before + ([next.value] + d.pushed) == before + [next.value] + d.pushed;
    }
  }

  /** `capacity` is the length of the producer's batch; `committed` is what the broker acknowledged. */
  class Streamer {
    const batchSize: nat
    const capacity: nat
    var channel: seq<Option<Message>>
    var batch: seq<Message>
    var committed: seq<Message>

    constructor (batchSize: nat, capacity: nat)
      ensures this.batchSize == batchSize && this.capacity == capacity
      ensures channel == [] && batch == [] && committed == []
    {
      this.batchSize, this.capacity := batchSize, capacity;
      channel, batch, committed := [], [], [];
    }

    /** PushBatch: the event joins the batch, and a full batch is sent. */
    method PushBatch(m: Message, faults: Faults) returns (ok: bool)
      modifies this`batch, this`committed
      ensures ok == !Stuck(m, |old(batch)|, capacity, faults)
      ensures |batch| == if ok then Queued(|old(batch)|, capacity) else |old(batch)| + 1
      ensures committed + batch == old(committed) + old(batch) + [m] && old(committed) <= committed
      ensures ok && capacity > 0 ==> |batch| < capacity
      ensures |old(batch)| + 1 < capacity ==> ok && committed == old(committed)
      ensures |old(batch)| + 1 >= capacity && m !in faults.stuck ==> ok && batch == []
    {
      batch := batch + [m];
      assert committed + batch == old(committed) + old(batch) + [m];
      if |batch| >= capacity {
        if m in faults.stuck {
          return false;
        }
        committed, batch := committed + batch, [];
      }
      return true;
    }

    /** The loop of processBatch: pushes until it would block, the batch is full, or an event fails. */
    method PushAvailable(first: Option<Message>, faults: Faults) returns (ok: bool)
      modifies this`channel, this`batch, this`committed
      ensures var d := Drain(first, old(channel), batchSize, |old(batch)|, capacity, faults);
        && channel == d.rest && ok == !d.failed && |batch| == d.queued
        && committed + batch == old(committed) + old(batch) + d.pushed && old(committed) <= committed
    {
      hide Stuck, Queued;
      var next, b := first, 0;
      ghost var before, pushed: seq<Message> := committed + batch, [];
      ghost var all := Drain(first, channel, batchSize, |batch|, capacity, faults);
      assert all == Prefixed([], all) && before + [] == before;
      while next.Some?
        invariant committed + batch == before + pushed && old(committed) <= committed && 0 <= b == |pushed|
        invariant all == Prefixed(pushed, Drain(next, channel, batchSize - b, |batch|, capacity, faults))
        decreases |channel|
      {
        if !next.value.ok || next.value in faults.rejected {
          assert all == Drained(pushed, channel, |batch|, true);
          return false;
        }
        ghost var queued := |batch|;
        ok := PushBatch(next.value, faults);
        assert before + pushed + [next.value] == before + (pushed + [next.value]);
        if !ok {
          assert all == Drained(pushed + [next.value], channel, queued + 1, true);
          return false;
        }
        PrefixedStep(pushed, next, channel, batchSize - b, queued, capacity, faults);
        pushed := pushed + [next.value];
        b := b + 1;
        if b >= batchSize || channel == [] {
          break;
        }
        next, channel := channel[0], channel[1..];
      }
      assert all == Drained(pushed, channel, |batch|, false);
      return true;
    }

    /**
     Whatever is taken is committed, in order, or still in the batch; success leaves none there. An empty batch is
     not sent, so that committing it cannot fail.
     */
    method ProcessBatch(first: Option<Message>, faults: Faults, commitOk: bool) returns (ok: bool)
      modifies this
      ensures var d := Drain(first, old(channel), batchSize, |old(batch)|, capacity, faults);
        && channel == d.rest
        && committed + batch == old(committed) + old(batch) + d.pushed && old(committed) <= committed
        && ok == (!d.failed && (commitOk || d.queued == 0))
        && |batch| == if ok then 0 else d.queued
    {
      ok := PushAvailable(first, faults);
      if ok && batch != [] {
        if commitOk {
          committed, batch := committed + batch, [];
        }
        ok := commitOk;
      }
    }
  }

  function Lift(q: seq<Message>): seq<Option<Message>> {
    seq(|q|, i requires 0 <= i < |q| => Some(q[i]))
  }

  /** The steps of the interleaving model that one successful call stands for. */
  function StepsOf(n: nat): seq<Step>
    requires n >= 1
  {
    if n == 1 then [Push, CommitBatch] else [Push, Take] + StepsOf(n - 1)
  }

  /** The first `n` events waiting: the one taken already, then the channel. */
  function Front(s: Pipeline, n: nat): seq<Message>
    requires s.current.Some? && n <= |s.channel| + 1
  {
    ([s.current.value] + s.channel)[..n]
  }

  lemma DrainStep(next: Option<Message>, channel: seq<Option<Message>>, room: int, queued: nat, capacity: nat,
                  faults: Faults)
    requires next.Some?
    ensures Drain(next, channel, room, queued, capacity, faults) ==
      if !next.value.ok || next.value in faults.rejected then Drained([], channel, queued, true)
      else if Stuck(next.value, queued, capacity, faults) then Drained([next.value], channel, queued + 1, true)
      else if room <= 1 || channel == [] then Drained([next.value], channel, Queued(queued, capacity), false)
      else Prefixed([next.value],
                    Drain(channel[0], channel[1..], room - 1, Queued(queued, capacity), capacity, faults))
  {
  }

  lemma LiftStep(q: seq<Message>)
    ensures q == [] <==> Lift(q) == []
    ensures q != [] ==> Lift(q)[0] == Some(q[0]) && Lift(q)[1..] == Lift(q[1..])
  {
  }

  lemma FrontOne(s: Pipeline)
    requires s.current.Some?
    ensures Front(s, 1) == [s.current.value]
  {
  }

  lemma FrontStep(s: Pipeline, s2: Pipeline, n: nat)
    requires s.current.Some? && s2.current.Some? && s.channel == [s2.current.value] + s2.channel
    requires n <= |s2.channel| + 1
    ensures Front(s, n + 1) == [s.current.value] + Front(s2, n)
  {
  }

  /** A successful call takes a prefix of what is waiting: as many events as there is room for, or all. */
  lemma {:induction false} DrainTakesFront(s: Pipeline, room: nat, queued: nat, capacity: nat,
                                         faults: Faults)
    requires s.current.Some? && 1 <= room
    requires !Drain(s.current, Lift(s.channel), room, queued, capacity, faults).failed
    ensures var d := Drain(s.current, Lift(s.channel), room, queued, capacity, faults);
      && |d.pushed| == (if room <= |s.channel| then room else |s.channel| + 1)
      && d.pushed == Front(s, |d.pushed|) && (forall m :: m in d.pushed ==> m.ok && m !in faults.rejected)
      && d.rest == Lift(s.channel[|d.pushed| - 1..])
    decreases |s.channel|
  {
    hide Lift, Drain, Front, Queued, Stuck;
    LiftStep(s.channel);
    DrainStep(s.current, Lift(s.channel), room, queued, capacity, faults);
    if room > 1 && s.channel != [] {
      var s2 := s.(current := Some(s.channel[0]), channel := s.channel[1..]);
      DrainTakesFront(s2, room - 1, Queued(queued, capacity), capacity, faults);
      var d2 := Drain(s2.current, Lift(s2.channel), room - 1, Queued(queued, capacity), capacity, faults);
      FrontStep(s, s2, |d2.pushed|);
      assert s.channel[|d2.pushed|..] == s2.channel[|d2.pushed| - 1..];
    } else {
      assert s.channel == s.channel[0..];
      FrontOne(s);
    }
  }

  /** A call fails only over an event that carries an error, cannot be produced or meets a refusing broker. */
  lemma {:induction false} DrainSucceeds(s: Pipeline, room: nat, queued: nat, capacity: nat, faults: Faults)
    requires s.current.Some? && 1 <= room
    requires forall m :: m in Front(s, if room <= |s.channel| then room else |s.channel| + 1) ==>
      m.ok && m !in faults.rejected && m !in faults.stuck
    ensures !Drain(s.current, Lift(s.channel), room, queued, capacity, faults).failed
    decreases |s.channel|
  {
    hide Lift, Drain, Queued;
    LiftStep(s.channel);
    DrainStep(s.current, Lift(s.channel), room, queued, capacity, faults);
    var n := if room <= |s.channel| then room else |s.channel| + 1;
    assert Front(s, n)[0] == s.current.value;
    if room > 1 && s.channel != [] {
      var s2 := s.(current := Some(s.channel[0]), channel := s.channel[1..]);
      FrontStep(s, s2, n - 1);
      DrainSucceeds(s2, room - 1, Queued(queued, capacity), capacity, faults);
    }
  }

  lemma RunTwo(u: Setup, s: Pipeline, a: Step, b: Step, rest: seq<Step>)
    ensures Run(u, s, [a, b] + rest) == Run(u, Apply(u, Apply(u, s, a), b), rest)
  {
    assert ([a, b] + rest)[1..] == [b] + rest;
    assert ([b] + rest)[1..] == rest;
  }

  function PushThenTake(s: Pipeline): Pipeline
    requires s.current.Some? && s.channel != []
  {
    s.(batch := s.batch + [s.current.value], current := Some(s.channel[0]), channel := s.channel[1..])
  }

  lemma PushThenTakeSteps(u: Setup, s: Pipeline)
    requires s.current.Some? && s.current.value.ok && s.channel != [] && |s.batch| + 1 < u.batch
    ensures Apply(u, Apply(u, s, Push), Take) == PushThenTake(s)
  {
  }

  lemma PushThenCommitSteps(u: Setup, s: Pipeline)
    requires s.current.Some? && s.current.value.ok
    ensures Run(u, s, [Push, CommitBatch]) ==
      s.(current := None, batch := [], committed := s.committed + Keys(s.batch + [s.current.value]))
  {
    RunTwo(u, s, Push, CommitBatch, []);
    assert [Push, CommitBatch] + [] == [Push, CommitBatch];
  }

  lemma {:induction false} StepsTakeFront(u: Setup, s: Pipeline, n: nat)
    requires s.current.Some? && 1 <= n <= |s.channel| + 1 && |s.batch| + n <= u.batch
    requires forall m :: m in Front(s, n) ==> m.ok
    ensures Run(u, s, StepsOf(n)) ==
      s.(current := None, channel := s.channel[n - 1..], batch := [], committed := s.committed + Keys(s.batch + Front(s, n)))
    decreases n
  {
    hide Apply, Keys;
    assert Front(s, n)[0] == s.current.value;
    if n == 1 {
      assert Front(s, 1) == [s.current.value] && s.channel == s.channel[0..];
      PushThenCommitSteps(u, s);
    } else {
      var s2 := PushThenTake(s);
      PushThenTakeSteps(u, s);
      RunTwo(u, s, Push, Take, StepsOf(n - 1));
      assert [s2.current.value] + s2.channel == s.channel;
      assert Front(s, n) == [s.current.value] + Front(s2, n - 1);
      StepsTakeFront(u, s2, n - 1);
      assert s.batch + Front(s, n) == s2.batch + Front(s2, n - 1);
      assert s.channel[n - 1..] == s2.channel[n - 2..];
    }
  }

  /**
   A call that succeeds is a run of Push and Take steps closed by one CommitBatch, so everything
   proved of the interleaving holds of the loop.
   */
  lemma SuccessfulCallIsARun(u: Setup, s: Pipeline, room: nat, queued: nat, capacity: nat, faults: Faults)
    requires s.current.Some? && 1 <= room && |s.batch| + room <= u.batch
    requires !Drain(s.current, Lift(s.channel), room, queued, capacity, faults).failed
    ensures var d := Drain(s.current, Lift(s.channel), room, queued, capacity, faults);
      && 1 <= |d.pushed| <= |s.channel| + 1
      && d.rest == Lift(s.channel[|d.pushed| - 1..])
      && Run(u, s, StepsOf(|d.pushed|)) ==
           s.(current := None, channel := s.channel[|d.pushed| - 1..], batch := [],
              committed := s.committed + Keys(s.batch + d.pushed))
  {
    DrainTakesFront(s, room, queued, capacity, faults);
    StepsTakeFront(u, s, |Drain(s.current, Lift(s.channel), room, queued, capacity, faults).pushed|);
  }
}
