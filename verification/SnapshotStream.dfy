/**
 The snapshot part of a bootstrap (streamBatch, commitWithRetry and streamFromConsistentSnapshot in
 streamer/snapshot.go) into a Kafka output (PushBatch and PushBatchCommit in pipe/kafka.go).
 */
module SnapshotStream {
  import opened Convergence
  import opened Options
  import Redistribution
  import opened RowEvents

  datatype Message = SchemaMessage | EventMessage(event: Event)

  /** What the broker does with one batch: takes it whole, or reports an error having taken some of it. */
  datatype Outcome = Sent | Failed(taken: set<nat>)

  /** The messages of a batch whose positions are in `taken`. */
  function Taken(queue: seq<Message>, taken: set<nat>, i: nat): seq<Message>
    requires i <= |queue|
    decreases |queue| - i
  {
    if i == |queue| then [] else (if i in taken then [queue[i]] else []) + Taken(queue, taken, i + 1)
  }

  lemma {:induction false} TakenIsInQueue(queue: seq<Message>, taken: set<nat>, i: nat)
    requires i <= |queue|
    ensures forall m :: m in Taken(queue, taken, i) ==> m in queue
    decreases |queue| - i
  {
    if i < |queue| {
      TakenIsInQueue(queue, taken, i + 1);
    }
  }

  /** Whether the broker takes the i-th batch it is given. */
  predicate Takes(script: seq<Outcome>, i: nat) {
    i >= |script| || script[i].Sent?
  }

  /** What is left of the script once one of at most `tries` attempts was taken. */
  function Attempt(script: seq<Outcome>, tries: nat): Option<seq<Outcome>>
    decreases tries
  {
    if tries == 0 then None
    else if script == [] then Some([])
    else if script[0].Sent? then Some(script[1..])
    else Attempt(script[1..], tries - 1)
  }

  lemma {:induction false} AttemptSucceedsExactlyWhen(script: seq<Outcome>, tries: nat)
    ensures Attempt(script, tries).Some? <==> exists i :: 0 <= i < tries && Takes(script, i)
    decreases tries
  {
    if tries > 0 {
      if script == [] || script[0].Sent? {
        assert Takes(script, 0);
      } else {
        AttemptSucceedsExactlyWhen(script[1..], tries - 1);
        assert forall i :: 0 <= i ==> Takes(script, i + 1) == Takes(script[1..], i);
        assert forall i :: 0 < i < tries ==> Takes(script, i) == Takes(script[1..], i - 1);
      }
    }
  }

  lemma AttemptWithoutFailures()
    ensures Attempt([], 5) == Some([])
  {
  }

  /** What is left of the script once batches were sent one after the other, each within its number of attempts. */
  function Play(script: seq<Outcome>, sends: seq<nat>): Option<seq<Outcome>>
    decreases |sends|
  {
    if sends == [] then Some(script)
    else
      match Attempt(script, sends[0])
      case None => None
      case Some(rest) => Play(rest, sends[1..])
  }

  lemma {:induction false} PlayAppend(script: seq<Outcome>, a: seq<nat>, b: seq<nat>)
    ensures Play(script, a + b) == if Play(script, a).Some? then Play(Play(script, a).value, b) else None
    decreases |a|
  {
    if a == [] {
      assert a + b == b;
    } else {
      assert (a + b)[0] == a[0] && (a + b)[1..] == a[1..] + b;
      match Attempt(script, a[0])
      case None =>
      case Some(rest) => PlayAppend(rest, a[1..], b);
    }
  }

  lemma PlayOne(script: seq<Outcome>, tries: nat)
    ensures Play(script, [tries]) == Attempt(script, tries)
  {
    assert [tries][1..] == [];
  }

  /** How full a producer's batch is after n more messages. */
  function PtrAfter(ptr: nat, length: nat, n: nat): nat
    decreases n
  {
    if n == 0 then ptr else PtrAfter(if ptr + 1 < length then ptr + 1 else 0, length, n - 1)
  }

  /** The batches that are sent because they fill up while n messages are pushed: one attempt each. */
  function PushSends(ptr: nat, length: nat, n: nat): seq<nat>
    decreases n
  {
    if n == 0 then []
    else if ptr + 1 < length then PushSends(ptr + 1, length, n - 1)
    else [1] + PushSends(0, length, n - 1)
  }

  lemma {:induction false} PushSendsAppend(ptr: nat, length: nat, m: nat, n: nat)
    ensures PushSends(ptr, length, m + n) == PushSends(ptr, length, m) + PushSends(PtrAfter(ptr, length, m), length, n)
    ensures PtrAfter(ptr, length, m + n) == PtrAfter(PtrAfter(ptr, length, m), length, n)
    decreases m
  {
    if m > 0 {
      var next := if ptr + 1 < length then ptr + 1 else 0;
      PushSendsAppend(next, length, m - 1, n);
      var rest, after := PushSends(next, length, m - 1), PushSends(PtrAfter(next, length, m - 1), length, n);
      assert [1] + (rest + after) == ([1] + rest) + after;
    } else {
      assert [] + PushSends(ptr, length, n) == PushSends(ptr, length, n);
    }
  }

  /** A batch is sent exactly when it is full: of n messages more, all but the remainder are sent. */
  lemma {:induction false} FullBatchesAreSent(ptr: nat, length: nat, n: nat)
    requires ptr < length
    ensures PtrAfter(ptr, length, n) == (ptr + n) % length && |PushSends(ptr, length, n)| == (ptr + n) / length
    decreases n
  {
    if n > 0 {
      if ptr + 1 < length {
        FullBatchesAreSent(ptr + 1, length, n - 1);
      } else {
        FullBatchesAreSent(0, length, n - 1);
        Redistribution.AddOne(n - 1, length);
      }
    }
  }

  function AtMost(batch: nat, rows: nat): nat {
    if batch <= rows then batch else rows
  }

  /** The batches sent in one pass of the loop: those that fill up, and what is left after its rows. */
  function PassSends(ptr: nat, length: nat, rows: nat, batch: nat): seq<nat> {
    var n := AtMost(batch, rows);
    PushSends(ptr, length, n) + if rows == 0 || PtrAfter(ptr, length, n) == 0 then [] else [5]
  }

  function BatchSends(ptr: nat, length: nat, rows: nat, batch: nat): seq<nat>
    requires batch > 0
    decreases rows
  {
    if rows == 0 then []
    else PassSends(ptr, length, rows, batch) + BatchSends(0, length, rows - AtMost(batch, rows), batch)
  }

  /** The batches of a whole snapshot: the schema first, if there is one. */
  function SnapshotSends(hasSchema: bool, ptr: nat, length: nat, rows: nat, batch: nat): seq<nat>
    requires batch > 0
  {
    if hasSchema then PushSends(ptr, length, 1) + BatchSends(PtrAfter(ptr, length, 1), length, rows, batch)
    else BatchSends(ptr, length, rows, batch)
  }

  lemma AttemptOne(script: seq<Outcome>)
    ensures Attempt(script, 1)
         == if Takes(script, 0) then Some(if script == [] then [] else script[1..]) else None
  {
    if script != [] {
      assert Attempt(script[1..], 0) == None;
    }
  }

  lemma PushSendsOne(ptr: nat, length: nat)
    ensures PushSends(ptr, length, 1) == if ptr + 1 < length then [] else [1]
  {
    assert [1] + PushSends(0, length, 0) == [1];
  }

  lemma NothingPlayed(script: seq<Outcome>, ptr: nat, length: nat)
    ensures Play(script, PushSends(ptr, length, 0)) == Some(script) && PtrAfter(ptr, length, 0) == ptr
  {
  }

  lemma PtrAfterOne(ptr: nat, length: nat)
    ensures PtrAfter(ptr, length, 1) == if ptr + 1 < length then ptr + 1 else 0
  {
  }

  ghost predicate AllTried(sends: seq<nat>) {
    forall i :: 0 <= i < |sends| ==> sends[i] > 0
  }

  lemma {:induction false} PushSendsTry(ptr: nat, length: nat, n: nat)
    ensures AllTried(PushSends(ptr, length, n))
    decreases n
  {
    if n > 0 {
      PushSendsTry(if ptr + 1 < length then ptr + 1 else 0, length, n - 1);
    }
  }

  lemma {:induction false} BatchSendsTry(ptr: nat, length: nat, rows: nat, batch: nat)
    requires batch > 0
    ensures AllTried(BatchSends(ptr, length, rows, batch))
    decreases rows
  {
    if rows > 0 {
      PushSendsTry(ptr, length, AtMost(batch, rows));
      BatchSendsTry(0, length, rows - AtMost(batch, rows), batch);
    }
  }

  /** A broker that fails no more takes everything. */
  lemma {:induction false} PlayWithoutFailures(sends: seq<nat>)
    requires AllTried(sends)
    ensures Play([], sends) == Some([])
    decreases |sends|
  {
    if sends != [] {
      assert AllTried(sends[1..]);
      PlayWithoutFailures(sends[1..]);
    }
  }

  function Batches(rows: nat, batch: nat): nat
    requires batch > 0
    decreases rows
  {
    if rows == 0 then 0 else 1 + Batches(rows - AtMost(batch, rows), batch)
  }

  /** No shutdown or removal comes before any batch or at the end. */
  predicate Undisturbed(interrupted: set<nat>, batches: nat) {
    forall b :: 0 <= b <= batches ==> b !in interrupted
  }

  /**
   `topic` is what the broker has, `script` what it will do with the next batches. `pushed` is everything ever
   given to PushBatch, and `clean` says that no batch failed so far.
   */
  class KafkaProducer {
    var batch: array<Option<Message>>
    var batchPtr: nat
    var topic: seq<Message>
    var script: seq<Outcome>
    ghost var pushed: seq<Message>
    ghost var clean: bool

    ghost predicate Shape()
      reads this, batch
    {
      && batch.Length > 0 && batchPtr <= batch.Length && batchPtr <= |pushed|
      && forall i :: 0 <= i < batchPtr ==> batch[i] == Some(pushed[|pushed| - batchPtr + i])
    }

    /** The messages pushed and not yet known to be sent. */
    ghost function Queue(): seq<Message>
      reads this, batch
      requires Shape()
    {
      pushed[|pushed| - batchPtr..]
    }

    /** Everything pushed before the queue is in the topic, and nothing else ever gets there. */
    ghost predicate Valid()
      reads this, batch
    {
      && Shape()
      && (forall m :: m in pushed[..|pushed| - batchPtr] ==> m in topic)
      && (forall m :: m in topic ==> m in pushed)
      && (clean ==> topic == pushed[..|pushed| - batchPtr])
    }

    constructor (batchSize: nat, script: seq<Outcome>)
      requires batchSize > 0
      ensures Valid() && fresh(batch) && batch.Length == batchSize && batchPtr == 0
      ensures pushed == [] && topic == [] && clean && this.script == script
    {
      batch := new Option<Message>[batchSize](_ => None);
      batchPtr, topic, this.script, pushed, clean := 0, [], script, [], true;
    }

    method Queued() returns (queue: seq<Message>)
      requires Shape()
      ensures queue == Queue()
    {
      queue := [];
      var i := 0;
      while i < batchPtr
        invariant 0 <= i <= batchPtr && queue == Queue()[..i]
      {
        queue := queue + [batch[i].value];
        i := i + 1;
      }
    }

    method SendMessages() returns (ok: bool)
      requires Valid()
      modifies this`topic, this`script, this`clean
      ensures script == if old(script) == [] then [] else old(script)[1..]
      ensures ok == (old(script) == [] || old(script)[0].Sent?)
      ensures topic == old(topic) + if ok then Queue() else Taken(Queue(), old(script)[0].taken, 0)
      ensures clean == (old(clean) && ok)
    {
      var queue := Queued();
      var outcome := if script == [] then Sent else script[0];
      script := if script == [] then [] else script[1..];
      ok := outcome.Sent?;
      topic := topic + if ok then queue else Taken(queue, outcome.taken, 0);
      clean := clean && ok;
    }

    /** A failed batch stays queued. */
    method PushBatchCommit() returns (ok: bool)
      requires Valid()
      modifies this
      ensures Valid() && batch == old(batch) && pushed == old(pushed)
      ensures ok ==> batchPtr == 0 && clean == old(clean)
      ensures !ok ==> batchPtr == old(batchPtr) && !clean
      ensures ok <==> old(batchPtr) == 0 || Takes(old(script), 0)
      ensures script == if old(batchPtr) == 0 || old(script) == [] then old(script) else old(script)[1..]
    {
      hide Taken;
      if batchPtr == 0 {
        return true;
      }
      ghost var n, before, queue := |pushed| - batchPtr, topic, Queue();
      if script != [] && script[0].Failed? {
        TakenIsInQueue(queue, script[0].taken, 0);
      }
      ok := SendMessages();
      assert pushed == pushed[..n] + queue;
      if ok {
        batchPtr := 0;
        assert pushed[..|pushed|] == pushed;
      }
    }

    /** The batch is sent when it is full; after a failure there is no room for another message. */
    method PushBatch(m: Message) returns (ok: bool)
      requires Valid() && batchPtr < batch.Length
      modifies this, batch
      ensures Valid() && batch == old(batch) && pushed == old(pushed) + [m]
      ensures ok ==> clean == old(clean) && batchPtr == if old(batchPtr) + 1 < batch.Length then old(batchPtr) + 1 else 0
      ensures !ok ==> batchPtr == batch.Length && !clean
      ensures ok <==> Play(old(script), PushSends(old(batchPtr), batch.Length, 1)).Some?
      ensures ok ==> Play(old(script), PushSends(old(batchPtr), batch.Length, 1)) == Some(script)
    {
      PushSendsOne(batchPtr, batch.Length);
      PlayOne(script, 1);
      AttemptOne(script);
      batch[batchPtr] := Some(m);
      ghost var n := |pushed| - batchPtr;
      pushed := pushed + [m];
      batchPtr := batchPtr + 1;
      assert pushed[..|pushed| - batchPtr] == old(pushed)[..n];
      ok := true;
      if batchPtr >= batch.Length {
        ok := PushBatchCommit();
      }
    }
  }

  // ---------------------------------------------------------------------------------------------
  // The streamer
  // ---------------------------------------------------------------------------------------------

  const NUM_RETRIES: nat := 5

  /** The rows a snapshot reader returns; None stands for an error. */
  ghost predicate NoErrors(results: seq<Option<Event>>) {
    forall i :: 0 <= i < |results| ==> results[i].Some?
  }

  ghost function Rows(results: seq<Option<Event>>): (rows: seq<Message>)
    requires NoErrors(results)
    ensures |rows| == |results|
    ensures forall i :: 0 <= i < |rows| ==> rows[i] == EventMessage(results[i].value)
  {
    seq(|results|, i requires 0 <= i < |results| => EventMessage(results[i].value))
  }

  class SnapshotStreamer {
    const batchSize: nat
    const producer: KafkaProducer
    var remaining: seq<Option<Event>>
    var needBootstrap: bool

    constructor (batchSize: nat, producer: KafkaProducer, results: seq<Option<Event>>)
      ensures this.batchSize == batchSize && this.producer == producer && remaining == results && needBootstrap
    {
      this.batchSize, this.producer, remaining, needBootstrap := batchSize, producer, results, true;
    }

    ghost predicate Ready()
      reads this, producer, producer.batch
    {
      producer.Valid() && producer.batchPtr < producer.batch.Length
    }

    /** At most a batch of rows, each pushed once; no next when the reader has none left. */
    method StreamBatch() returns (next: bool, ok: bool)
      requires Ready()
      modifies this`remaining, producer, producer.batch
      ensures producer.Valid() && producer.batch == old(producer.batch)
      ensures ok ==> Ready() && producer.clean == old(producer.clean)
      ensures ok && !next ==> producer.batchPtr == old(producer.batchPtr)
      ensures ok ==>
        var n := if batchSize <= |old(remaining)| then batchSize else |old(remaining)|;
        && remaining == old(remaining)[n..] && next == (n > 0) && NoErrors(old(remaining)[..n])
        && producer.pushed == old(producer.pushed) + Rows(old(remaining)[..n])
      ensures var n := AtMost(batchSize, |old(remaining)|);
        var played := Play(old(producer.script), PushSends(old(producer.batchPtr), producer.batch.Length, n));
        && (ok <==> NoErrors(old(remaining)[..n]) && played.Some?)
        && (ok ==> played == Some(producer.script)
                   && producer.batchPtr == PtrAfter(old(producer.batchPtr), producer.batch.Length, n))
      ensures !ok && NoErrors(old(remaining)) ==> !producer.clean
    {
      hide Play, PushSends, PtrAfter, Attempt;
      ghost var ptr, length, script := producer.batchPtr, producer.batch.Length, producer.script;
      ghost var n := AtMost(batchSize, |remaining|);
      NothingPlayed(script, ptr, length);
      var i := 0;
      ok := true;
      while i < batchSize && remaining != []
        invariant 0 <= i <= batchSize && i <= |old(remaining)| && remaining == old(remaining)[i..]
        invariant Ready() && producer.batch == old(producer.batch) && NoErrors(old(remaining)[..i])
        invariant producer.pushed == old(producer.pushed) + Rows(old(remaining)[..i])
        invariant producer.clean == old(producer.clean) && (i == 0 ==> producer.batchPtr == old(producer.batchPtr))
        invariant i <= n && Play(script, PushSends(ptr, length, i)) == Some(producer.script)
        invariant producer.batchPtr == PtrAfter(ptr, length, i)
        decreases |remaining|
      {
        var row := remaining[0];
        PtrAfterOne(producer.batchPtr, length);
        PushSendsAppend(ptr, length, i, 1);
        PushSendsAppend(ptr, length, i + 1, n - i - 1);
        PlayAppend(script, PushSends(ptr, length, i), PushSends(PtrAfter(ptr, length, i), length, 1));
        PlayAppend(script, PushSends(ptr, length, i + 1), PushSends(PtrAfter(ptr, length, i + 1), length, n - i - 1));
        assert row == old(remaining)[i] && old(remaining)[..i + 1] == old(remaining)[..i] + [row];
        remaining := remaining[1..];
        if row.None? {
          assert old(remaining)[..n][i] == row;
          return false, false;
        }
        ok := producer.PushBatch(EventMessage(row.value));
        if !ok {
          return false, false;
        }
        assert Rows(old(remaining)[..i + 1]) == Rows(old(remaining)[..i]) + [EventMessage(row.value)];
        i := i + 1;
      }
      next := i > 0;
    }

    method CommitWithRetry() returns (ok: bool)
      requires producer.Valid()
      modifies producer
      ensures producer.Valid() && producer.batch == old(producer.batch) && producer.pushed == old(producer.pushed)
      ensures ok ==> producer.batchPtr == 0
      ensures !ok ==> producer.batchPtr == old(producer.batchPtr) && !producer.clean
      ensures ok <==> old(producer.batchPtr) == 0 || exists i :: 0 <= i < 5 && Takes(old(producer.script), i)
      ensures ok ==>
        Some(producer.script)
          == if old(producer.batchPtr) == 0 then Some(old(producer.script)) else Attempt(old(producer.script), 5)
      ensures old(producer.script) == [] ==> producer.clean == old(producer.clean)
    {
      AttemptSucceedsExactlyWhen(producer.script, 5);
      var i := 0;
      ok := false;
      while i < NUM_RETRIES && !ok
        invariant 0 <= i <= NUM_RETRIES && producer.Valid()
        invariant producer.batch == old(producer.batch) && producer.pushed == old(producer.pushed)
        invariant if ok then producer.batchPtr == 0 else producer.batchPtr == old(producer.batchPtr)
        invariant !ok && i > 0 ==> !producer.clean
        invariant old(producer.batchPtr) == 0 ==> producer.script == old(producer.script) && (i > 0 ==> ok)
        invariant old(producer.batchPtr) > 0 ==>
          Attempt(old(producer.script), 5) == if ok then Some(producer.script) else Attempt(producer.script, 5 - i)
        invariant old(producer.script) == [] ==> producer.script == [] && producer.clean == old(producer.clean)
        decreases NUM_RETRIES - i
      {
        ok := producer.PushBatchCommit();
        i := i + 1;
      }
    }

    /** One pass of the loop: a batch of rows and, if there was any, what is left of the producer's batch. */
    method StreamPass() returns (next: bool, ok: bool)
      requires Ready() && batchSize > 0
      modifies this`remaining, producer, producer.batch
      ensures producer.Valid() && producer.batch == old(producer.batch)
      ensures ok ==>
        var n := AtMost(batchSize, |old(remaining)|);
        && Ready() && next == (old(remaining) != []) && remaining == old(remaining)[n..]
        && NoErrors(old(remaining)[..n]) && producer.pushed == old(producer.pushed) + Rows(old(remaining)[..n])
        && producer.batchPtr == if next then 0 else old(producer.batchPtr)
      ensures
        var played := Play(old(producer.script), PassSends(old(producer.batchPtr), producer.batch.Length,
                                                           |old(remaining)|, batchSize));
        && (ok <==> NoErrors(old(remaining)[..AtMost(batchSize, |old(remaining)|)]) && played.Some?)
        && (ok ==> played == Some(producer.script))
      ensures ok && old(producer.script) == [] ==> producer.script == [] && producer.clean == old(producer.clean)
    {
      hide Rows, Play, Attempt, PushSends, PtrAfter, NoErrors;
      ghost var n, ptr, length := AtMost(batchSize, |remaining|), producer.batchPtr, producer.batch.Length;
      ghost var script, rows := producer.script, |remaining|;
      PlayPass(script, ptr, length, rows, batchSize);
      PushSendsTry(ptr, length, n);
      if script == [] {
        PlayWithoutFailures(PushSends(ptr, length, n));
      }
      next, ok := StreamBatch();
      if ok && next {
        AttemptSucceedsExactlyWhen(producer.script, 5);
        AttemptWithoutFailures();
        ok := CommitWithRetry();
      }
    }

    /** The loop over batches; `interrupted` says after how many of them a shutdown or removal stops it. */
    method StreamBatches(interrupted: set<nat>) returns (ok: bool)
      requires Ready() && batchSize > 0
      modifies this`remaining, producer, producer.batch
      ensures producer.Valid() && producer.batch == old(producer.batch)
      ensures ok ==>
        && NoErrors(old(remaining)) && remaining == []
        && producer.pushed == old(producer.pushed) + Rows(old(remaining))
        && (if old(remaining) == [] then producer.batchPtr == old(producer.batchPtr) else producer.batchPtr == 0)
      ensures ok <==>
        && NoErrors(old(remaining)) && Undisturbed(interrupted, Batches(|old(remaining)|, batchSize))
        && Play(old(producer.script),
                BatchSends(old(producer.batchPtr), producer.batch.Length, |old(remaining)|, batchSize)).Some?
      ensures old(producer.script) == [] && ok ==> producer.clean == old(producer.clean)
    {
      hide Rows, Play, BatchSends, PassSends, Batches, NoErrors;
      ghost var all, length := remaining, producer.batch.Length;
      ghost var done: nat := 0;
      JoinRows(all, 0, 0);
      assert producer.pushed + Rows(all[..0]) == producer.pushed;
      var b := 0;
      var next := true;
      while next
        invariant Ready() && producer.batch == old(producer.batch) && done <= |all| && remaining == all[done..]
        invariant NoErrors(all[..done]) && producer.pushed == old(producer.pushed) + Rows(all[..done])
        invariant if done == 0 then producer.batchPtr == old(producer.batchPtr) else producer.batchPtr == 0
        invariant old(producer.script) == [] ==> producer.script == [] && producer.clean == old(producer.clean)
        invariant forall x :: 0 <= x < b ==> x !in interrupted
        invariant !next ==> remaining == []
        invariant 0 <= b && Batches(|all|, batchSize) == b + Batches(|remaining|, batchSize) - if next then 0 else 1
        invariant Play(old(producer.script), BatchSends(old(producer.batchPtr), length, |all|, batchSize))
               == Play(producer.script, BatchSends(producer.batchPtr, length, |remaining|, batchSize))
        decreases |remaining|, next
      {
        if b in interrupted {
          return false;
        }
        ghost var n := AtMost(batchSize, |remaining|);
        PlayBatch(producer.script, producer.batchPtr, length, |remaining|, batchSize);
        PrefixHasNoErrors(all, done, n);
        next, ok := StreamPass();
        if !ok {
          return false;
        }
        JoinRows(all, done, n);
        done := done + n;
        b := b + 1;
      }
      assert all[..done] == all;
      NothingLeftToPlay(producer.script, producer.batchPtr, length, batchSize);
      return true;
    }

    /**
     Clears needBootstrap only when every row was pushed. Everything is sent by then exactly when there was a row,
     or the schema message just filled the batch, or there was nothing to send; else it stays queued.
     */
    method StreamFromConsistentSnapshot(hasSchema: bool, interrupted: set<nat>, flagSaved: bool) returns (ok: bool)
      requires Ready() && batchSize > 0
      modifies this, producer, producer.batch
      ensures producer.Valid() && producer.batch == old(producer.batch)
      ensures ok ==>
        && !needBootstrap && NoErrors(old(remaining))
        && producer.pushed
           == old(producer.pushed) + (if hasSchema then [SchemaMessage] else []) + Rows(old(remaining))
        && (producer.batchPtr == 0 <==>
              || old(remaining) != []
              || (if hasSchema then old(producer.batchPtr) + 1 == producer.batch.Length
                  else old(producer.batchPtr) == 0))
      ensures !ok ==> needBootstrap == old(needBootstrap)
      ensures ok <==>
        && NoErrors(old(remaining)) && (forall b: nat :: b in interrupted ==> b > Batches(|old(remaining)|, batchSize))
        && flagSaved
        && Play(old(producer.script), SnapshotSends(hasSchema, old(producer.batchPtr), producer.batch.Length,
                                                    |old(remaining)|, batchSize)).Some?
      ensures old(producer.script) == [] && NoErrors(old(remaining)) && interrupted == {} && flagSaved ==>
        ok && producer.clean == old(producer.clean)
    {
      hide Play, PushSends, BatchSends, PtrAfter;
      ghost var ptr, length, rows := producer.batchPtr, producer.batch.Length, |remaining|;
      SnapshotPlays(hasSchema, producer.script, ptr, length, rows, batchSize);
      if hasSchema {
        ok := producer.PushBatch(SchemaMessage);
        if !ok {
          return false;
        }
      } else {
        assert old(producer.pushed) + [] == old(producer.pushed);
      }
      ok := StreamBatches(interrupted);
      if !ok || !flagSaved {
        return false;
      }
      needBootstrap := false;
    }
  }

  lemma PlayPass(script: seq<Outcome>, ptr: nat, length: nat, rows: nat, batch: nat)
    requires batch > 0
    ensures var n := AtMost(batch, rows);
      var pushed := Play(script, PushSends(ptr, length, n));
      Play(script, PassSends(ptr, length, rows, batch))
        == if pushed.None? then None
           else if rows == 0 || PtrAfter(ptr, length, n) == 0 then pushed
           else Attempt(pushed.value, 5)
  {
    hide PtrAfter, PushSends, Attempt, Play;
    var pushes := PushSends(ptr, length, AtMost(batch, rows));
    PlayAppend(script, pushes, [5]);
    assert pushes + [] == pushes;
    if Play(script, pushes).Some? {
      PlayOne(Play(script, pushes).value, 5);
    }
  }

  /** A pass and then the rest of the snapshot. */
  lemma PlayBatch(script: seq<Outcome>, ptr: nat, length: nat, rows: nat, batch: nat)
    requires batch > 0
    ensures var n := AtMost(batch, rows);
      var passed := Play(script, PassSends(ptr, length, rows, batch));
      && Batches(rows, batch) == Batches(rows - n, batch) + (if rows == 0 then 0 else 1)
      && Play(script, BatchSends(ptr, length, rows, batch))
         == if passed.None? then None
            else Play(passed.value, BatchSends(if rows == 0 then ptr else 0, length, rows - n, batch))
  {
    hide Attempt, PtrAfter, Play;
    if rows == 0 {
      NothingPlayed(script, ptr, length);
      assert PassSends(ptr, length, rows, batch) == PushSends(ptr, length, 0) == [];
      EmptyPlay(script);
    } else {
      hide PassSends;
      PlayAppend(script, PassSends(ptr, length, rows, batch), BatchSends(0, length, rows - AtMost(batch, rows), batch));
    }
  }

  lemma EmptyPlay(script: seq<Outcome>)
    ensures Play(script, []) == Some(script)
  {
  }

  lemma NothingLeftToPlay(script: seq<Outcome>, ptr: nat, length: nat, batch: nat)
    requires batch > 0
    ensures Play(script, BatchSends(ptr, length, 0, batch)) == Some(script) && Batches(0, batch) == 0
  {
  }

  lemma PrefixHasNoErrors(all: seq<Option<Event>>, done: nat, n: nat)
    requires done + n <= |all|
    ensures NoErrors(all) ==> NoErrors(all[done..][..n])
  {
  }

  lemma SnapshotPlays(hasSchema: bool, script: seq<Outcome>, ptr: nat, length: nat, rows: nat, batch: nat)
    requires batch > 0
    ensures var first := if hasSchema then Play(script, PushSends(ptr, length, 1)) else Some(script);
      Play(script, SnapshotSends(hasSchema, ptr, length, rows, batch))
        == if first.None? then None
           else Play(first.value,
                     BatchSends(if hasSchema then PtrAfter(ptr, length, 1) else ptr, length, rows, batch))
    ensures script == [] ==> Play(script, SnapshotSends(hasSchema, ptr, length, rows, batch)) == Some([])
    ensures script == [] ==> Play(script, PushSends(ptr, length, 1)) == Some([])
    ensures PtrAfter(ptr, length, 1) == if ptr + 1 < length then ptr + 1 else 0
  {
    PtrAfterOne(ptr, length);
    hide PtrAfter, PushSends, BatchSends, Play;
    PushSendsTry(ptr, length, 1);
    BatchSendsTry(ptr, length, rows, batch);
    BatchSendsTry(PtrAfter(ptr, length, 1), length, rows, batch);
    PlayAppend(script, PushSends(ptr, length, 1), BatchSends(PtrAfter(ptr, length, 1), length, rows, batch));
    if script == [] {
      PlayWithoutFailures(PushSends(ptr, length, 1));
      PlayWithoutFailures(SnapshotSends(hasSchema, ptr, length, rows, batch));
    }
  }

  lemma JoinRows(all: seq<Option<Event>>, done: nat, n: nat)
    requires done + n <= |all| && NoErrors(all[..done]) && NoErrors(all[done..][..n])
    ensures NoErrors(all[..done + n]) && Rows(all[..done + n]) == Rows(all[..done]) + Rows(all[done..][..n])
    ensures all[done..][n..] == all[done + n..]
  {
    assert all[..done + n] == all[..done] + all[done..][..n];
  }

  // ---------------------------------------------------------------------------------------------
  // What the topic means
  // ---------------------------------------------------------------------------------------------

  function EventsIn(topic: seq<Message>): seq<Event> {
    if topic == [] then []
    else (if topic[0].EventMessage? then [topic[0].event] else []) + EventsIn(topic[1..])
  }

  lemma {:induction false} EventsInMembers(topic: seq<Message>)
    ensures forall e :: e in EventsIn(topic) <==> EventMessage(e) in topic
  {
    if topic != [] {
      EventsInMembers(topic[1..]);
      assert topic == [topic[0]] + topic[1..];
    }
  }

  /** Snapshot events may come more than once and in any order. */
  lemma RepeatedSnapshotFolds(events: seq<Event>, table: Table, delivered: seq<Event>)
    requires SnapshotOf(events, table) && forall e :: e in delivered <==> e in events
    ensures Fold(map[], delivered) == table
  {
    FoldIsReplay(map[], delivered);
    forall k
      ensures Get(Fold(map[], delivered), k) == Get(table, k)
    {
      ReplayLookup(map[], EditsOf(delivered), k);
      var i := LastEffect(delivered, k);
      if i >= 0 {
        assert delivered[i] in events;
      } else if k in table {
        KeyIsDelivered(events, table, delivered, k);
      }
    }
    SameLookups(Fold(map[], delivered), table);
  }

  lemma KeyIsDelivered(events: seq<Event>, table: Table, delivered: seq<Event>, k: Key)
    requires SnapshotOf(events, table) && k in table && forall e :: e in events ==> e in delivered
    ensures exists j :: 0 <= j < |delivered| && delivered[j].key == k
  {
    var j :| 0 <= j < |events| && events[j].key == k;
    assert events[j] in delivered;
  }

  /**
   After a successful snapshot into a new topic, retries and partly sent batches included, the topic gives the
   table of the snapshot.
   */
  lemma SnapshotTopicGivesTable(events: seq<Event>, table: Table, schema: seq<Message>, pushed: seq<Message>,
                                sent: nat, topic: seq<Message>)
    requires SnapshotOf(events, table) && schema in [[], [SchemaMessage]]
    requires pushed == schema + seq(|events|, i requires 0 <= i < |events| => EventMessage(events[i]))
    requires sent <= |pushed| && (events != [] ==> sent == |pushed|)
    requires (forall m :: m in pushed[..sent] ==> m in topic) && (forall m :: m in topic ==> m in pushed)
    ensures Fold(map[], EventsIn(topic)) == table
  {
    EventsInMembers(topic);
    assert pushed[..|pushed|] == pushed;
    forall e
      ensures e in EventsIn(topic) <==> e in events
    {
      PushedEvent(events, schema, pushed, e);
    }
    RepeatedSnapshotFolds(events, table, EventsIn(topic));
  }

  lemma PushedEvent(events: seq<Event>, schema: seq<Message>, pushed: seq<Message>, e: Event)
    requires schema in [[], [SchemaMessage]]
    requires pushed == schema + seq(|events|, i requires 0 <= i < |events| => EventMessage(events[i]))
    ensures EventMessage(e) in pushed <==> e in events
  {
    var rows := seq(|events|, i requires 0 <= i < |events| => EventMessage(events[i]));
    if e in events {
      var i :| 0 <= i < |events| && events[i] == e;
      assert rows[i] == EventMessage(e);
    }
    if EventMessage(e) in rows {
      var i :| 0 <= i < |rows| && rows[i] == EventMessage(e);
      assert events[i] == e;
    }
  }

  ghost function Values(results: seq<Option<Event>>): (events: seq<Event>)
    requires NoErrors(results)
    ensures |events| == |results| && forall i :: 0 <= i < |events| ==> events[i] == results[i].value
  {
    seq(|results|, i requires 0 <= i < |results| => results[i].value)
  }

  /**
   A bootstrap into a new topic succeeds exactly when no row fails, nothing stops it, and the broker takes each batch
   in time: at once when it is sent because it is full, within five attempts at the end of a batch of rows. The topic
   then has what gives the snapshot's table.
   */
  method SnapshotIntoNewTopic(producerSize: nat, script: seq<Outcome>, batchSize: nat, results: seq<Option<Event>>,
                              hasSchema: bool, interrupted: set<nat>, flagSaved: bool)
    returns (ok: bool, topic: seq<Message>)
    requires producerSize > 0 && batchSize > 0
    ensures ok <==>
      && NoErrors(results) && (forall b: nat :: b in interrupted ==> b > Batches(|results|, batchSize)) && flagSaved
      && Play(script, SnapshotSends(hasSchema, 0, producerSize, |results|, batchSize)).Some?
    ensures ok ==> forall table :: SnapshotOf(Values(results), table) ==> Fold(map[], EventsIn(topic)) == table
  {
    var producer := new KafkaProducer(producerSize, script);
    var streamer := new SnapshotStreamer(batchSize, producer, results);
    ok := streamer.StreamFromConsistentSnapshot(hasSchema, interrupted, flagSaved);
    topic := producer.topic;
    if ok {
      ghost var schema := if hasSchema then [SchemaMessage] else [];
      ghost var events, sent := Values(results), |producer.pushed| - producer.batchPtr;
      assert producer.pushed == schema + seq(|events|, i requires 0 <= i < |events| => EventMessage(events[i]));
      forall table | SnapshotOf(events, table)
        ensures Fold(map[], EventsIn(topic)) == table
      {
        SnapshotTopicGivesTable(events, table, schema, producer.pushed, sent, topic);
      }
    }
  }
}
