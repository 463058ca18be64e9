# StorageTapper: what its pipeline guarantees

StorageTapper reads the MySQL binary log, buffers row events per table in a pipe, bootstraps new tables from a
snapshot, and streams both to an output pipe. What it promises spans whole runs: events survive crashes, a
snapshot that overlaps the log still ends up equal to the source table, logical time never repeats, files read
back as they were written. This project models the parts those promises rest on and proves them, over every
input, interleaving and run, or says exactly when they hold.

Kafka is an append-only sequence per partition, MySQL a map with atomic transactions, the file system a map from
names to bytes, and goroutines and processes are interleaved steps. Clocks, failures of I/O and of SQL
statements, shutdowns and what other processes do are parameters or steps that may come at any time. Code that
changes objects in place is a class whose methods are proved against functions on values; the properties are
lemmas about those functions.

| files | part of the repository |
|---|---|
| KafkaOffsets, KafkaReplay | offsets stored behind the messages fetched, and what a restart replays |
| Delivery, BatchLoop | fetcher, bounded channel, batch and commit of the streamer; at-least-once delivery |
| Redistribution, HandOff | sharing out partitions and handing messages over while consumers come and go |
| SeqNo, SeqNoRuns | logical time of the binlog reader over crashes and restarts |
| Registry, RegistryTables, SwapRemoval | the reader's mark-and-sweep table registry, and what swap-removal does to a loop over a list |
| RowEvents, Convergence, Bootstrap, SnapshotStream, EndToEnd | row events as deletes and inserts, snapshot plus log, order of the bootstrap steps, source rows to keyed copy |
| Gtid | the interval set of executed transactions |
| Framing, Encodings, Json, FileHeader, FileNames | bytes, header and name of one file |
| FileProducing, FileRuns, FileProducer, FileConsuming, FileConsumer, FilePipe, FileStart, FileRestarts | the file pipe as a whole |
| ColumnFilter, JsonEncoder, RowKey | filtered columns in the encode, filter and decode paths; row keys |
| Throttle, TicketLock, LockObjects, StateTables | throttle window, lock tickets, registrations in the state database |

## What the code does not guarantee

Each of these has a lemma with the exact condition or a run that shows it.

- An explicit or periodic SaveOffset, or a graceful close, followed by a restart loses what is still in the
  pipeline (SaveOffsetLosesNothingExactlyWhen; SaveInFlightLoses is a run that does, in every setup). So does a crash
  before a partition without a stored offset gets its first one, when starting from the newest offset
  (RestartLosesNothingExactlyWhen, CrashBeforeFirstRowLoses).
- Replay over many failure restarts is bounded exactly when the pipe's batch size is at most one over the persist
  interval (ReplayBoundedExactlyWhen).
- Partition shares are unequal whenever consumers do not divide partitions: 11 over 4 gives 1, 1, 1, 8.
- Once a shutdown is seen a failed push of a row event is reported as success: HandleRowsEvent returns true exactly
  when no number is refused, every event was pushed then exactly when no push failed, and a loss can hide behind true
  exactly when the shutdown is seen at the last number or before (ShutdownHidesLossExactlyWhen, SuccessWithoutEvent).
  The reader then saves its GTID past the missing rows.
- A millionth number makes the reader reload its state while it goes through the outputs of a table. The loop then
  passes over one registered output for each one removed up to the current one, as long as there are some behind
  (ReloadPassesOver, NothingPassedOverExactlyWhen); ReloadMissesOutput is an input.
- The GTID set has a transaction before its rows are handled. A reader that dies and starts again from the saved
  GTID loses what of its last transaction was not in the buffer yet, and nothing else (RestartConvergesExactlyWhen,
  SavingInsideTransactionLoses).
- A table registered between the reading of the state and the saving of the GTID is given a GTID although the
  reader does not know the table yet, and start goes on when waiting for the GTID failed; both can lose rows
  (RegistrationWhileSavingLoses, GivingUpWaitingLoses, ConvergedExactlyWhen).
- A bootstrap that succeeds leaves messages in the producer's batch only for a table without rows, and then exactly
  when its schema message does not fill the batch or, without one, something was queued before. It fails when the
  broker refuses a batch once that is sent because it is full; only those at the end of a batch of rows are retried.
- File names leave creation order when a file number gets a fourth digit within one second. A binary file cut inside
  a length, or right behind it, reads as if it ended there. A key `open` makes closed files look open.
- A consumer that starts at the oldest offset gets everything if and only if the first file listed is not one still
  being written, or is refused because digests are verified. One that starts at the newest offset, the default, gets
  exactly what is pushed from then on if and only if the last file is not one still being written
  (StartIsGoodExactlyWhen, NewestStartIsGoodExactlyWhen).
- A producer that dies with a file open is never made up for: the next producer is a good one if and only if no file
  was left open, and no consumer ever gets behind one that was (RestartIsGoodExactlyWhen, NeverPassesOpenFile).
- A filter stays in force when the output schema gets as many fields as the table has columns.
- Keys of several columns tell rows apart exactly when the texts of all columns but the last stay below ten
  characters (UnambiguousExactlyWhen).
- Locking again while holding a ticket takes a free lower one or counts its own twice: Lock and then Unlock leave the
  process without a ticket exactly when it held none before (LockThenUnlockReleasesExactlyWhen).
- With a negative target the throttle divides by zero when the average of the window rounds to zero.

## Model

| member | source | states |
|---|---|---|
| KafkaOffsets.OffsetTracker.constructor | pipe/kafka.go:286-317 | a new topic consumer has a fresh cursor for every partition and the stored rows as they are |
| KafkaOffsets.OffsetTracker.CommitOffset | pipe/kafka.go:358-390 | only this partition's cursor and row change: the row is written when the interval has passed, batchSize - 1 behind while streaming and one past the offset otherwise; nothing is written without a connection, at the initial offset, or when the SQL fails |
| KafkaOffsets.OffsetTracker.CommitConsumerPartitionOffsets | pipe/kafka.go:392-407 | every partition of the consumer is committed at its own offset, up to the first whose SQL fails, and no other is touched; it reports success exactly when none failed and the last fetch had no error |
| KafkaReplay.InvStep | pipe/kafka.go:358-390 | any fetch, save, SQL failure or restart keeps cursor, row and position tied together; with a large enough interval the row neither drifts below the resume point nor moves back |
| KafkaReplay.ReplayBounded | pipe/kafka.go:358-390 | whatever happens, a failure restart re-reads at most interval - 1 + batchSize messages already fetched |
| KafkaReplay.ReplayBoundAttained | pipe/kafka.go:358-390 | for every configuration some run meets that bound exactly |
| KafkaReplay.ReplayUnbounded | pipe/kafka.go:371-376 | with a batch size over interval + 1 the replay exceeds any number given enough restarts |
| KafkaReplay.ReplayBoundedExactlyWhen | pipe/kafka.go:358-390 | replay is bounded if and only if batchSize is at most interval + 1 |
| KafkaReplay.ReplayWithinIncarnation | pipe/kafka.go:358-390 | between two restarts the bound holds for every interval |
| KafkaReplay.StoredOffsetMonotoneExactlyWhen | pipe/kafka.go:358-406 | over any mix of interval commits, saves, failures and restarts the stored offset never decreases if and only if batchSize is at most the interval |
| Delivery.StepKeepsInv | streamer/buffer.go:146-204 | with a pipe batch of at least 2 * batch + 1 every safe step keeps batch, channel and fetcher within their bounds, pending offsets contiguous, and the stored offset behind everything in flight |
| Delivery.RunKeepsInv | streamer/buffer.go:146-268 | the same over any run of safe steps |
| Delivery.InvMeansNothingLost | pipe/kafka.go:556-571 | the invariant means that every message handed out is committed or in the pipeline and the stored offset has not passed an uncommitted one |
| Delivery.AtLeastOnce | streamer/buffer.go:182-268 | over any interleaving with restarts anywhere nothing handed out is ever skipped |
| Delivery.FetchOnlyRunsAreSafe | pipe/kafka.go:556-571 | runs whose offsets are stored by FetchNext alone, with a position to resume from, are safe throughout |
| Delivery.RestartLosesNothingExactlyWhen | pipe/kafka.go:286-317 | a crash loses nothing if and only if each partition has a stored row, starts from the oldest offset, or has everything committed |
| Delivery.SaveOffsetLosesNothingExactlyWhen | streamer/buffer.go:216-253 | an explicit save and a restart lose nothing of a partition if and only if nothing of it is in flight uncommitted |
| Delivery.SaveInFlightLoses | streamer/buffer.go:248-253 | in every setup a fetch, a save while the event is in the pipeline and a restart lose it |
| Delivery.CrashBeforeFirstRowLoses | pipe/kafka.go:300-306 | in every setup that starts from the newest offset a message produced before a crash is lost when the partition has no row yet |
| Delivery.RowFollowsInterval | pipe/kafka.go:358-390 | a partition read from its start has its row written with each offset that is a multiple of the interval, but the first |
| Delivery.SmallerPipeBatchLoses | main.go:131-140 | with any smaller pipe batch and any persist interval a run of fetches and commits and one crash loses an event |
| Delivery.EnoughExactlyWhen | main.go:131-140 | for every persist interval 2 * batch + 1 is exactly the pipe batch that at-least-once delivery needs |
| BatchLoop.Streamer.PushAvailable | streamer/buffer.go:146-166 | the loop pushes what is waiting, in order, until it would block, the batch is full, the channel ends or an event fails, and leaves the rest; a producer batch that fills up on the way is sent, and each event pushed is sent or still queued |
| BatchLoop.Streamer.PushBatch | pipe/kafka.go:499-523 | the event joins the batch; one that is full is sent at once, no other is, and when sending fails the event is in it all the same |
| BatchLoop.Streamer.ProcessBatch | streamer/buffer.go:146-179 | every event taken is committed, in order, or still in the producer's batch; success means no event failed and the batch is empty |
| BatchLoop.DrainTakesFront | streamer/buffer.go:146-166 | a call without failure takes the first events waiting: a batch full, or all of them |
| BatchLoop.DrainSucceeds | streamer/buffer.go:146-166 | a call fails only over an event that carries an error, cannot be produced, or whose batch the broker refuses |
| BatchLoop.StepsTakeFront | streamer/buffer.go:146-179 | the Push and Take steps of Delivery closed by a commit take exactly that prefix |
| BatchLoop.SuccessfulCallIsARun | streamer/buffer.go:146-179 | a successful call is such a run, so what Delivery proves holds of the loop |
| Redistribution.Share | pipe/kafka.go:270-283 | each share is at least one, at most the quotient, and leaves enough for the other consumers, evenly divisible |
| Redistribution.AssignmentIsTotal | pipe/kafka.go:237-283 | every partition gets one consumer, in contiguous blocks, and every consumer at least one partition |
| Redistribution.EqualSharesExactlyWhen | pipe/kafka.go:237-283 | shares are equal if and only if consumers divide partitions |
| Redistribution.UnbalancedShares | pipe/kafka.go:237-283 | eleven partitions over four consumers are shared 1, 1, 1, 8 |
| Redistribution.LoopComputesOwners | pipe/kafka.go:237-283 | for all partitions and consumers the loop never divides by zero or runs past the last consumer, and computes the shares |
| Redistribution.TopicConsumer.AssignPartitions | pipe/kafka.go:237-283 | the loop gives each partition the channel of the consumer its share names |
| Redistribution.TopicConsumer.RedistributeConsumers | pipe/kafka.go:219-284 | without consumers nothing changes, else every partition has its share's channel |
| Redistribution.TopicConsumer.NewConsumer | pipe/kafka.go:319-356 | succeeds exactly while there are more partitions than consumers, and for the first one if pipe and topic could be set up; then redistributes over all of them |
| Redistribution.TopicConsumer.CloseConsumer | pipe/kafka.go:409-457 | the first consumer with this channel is swapped out and partitions are shared again; an unknown one changes nothing; the last one closes the topic; a graceful close that cannot commit, or partitions that cannot be closed, leave it registered |
| HandOff.StepKeepsExactlyOnce | pipe/kafka.go:208-284 | each step keeps delivered messages plus the slot equal to what was taken from the partition |
| HandOff.StepKeepsDistributed | pipe/kafka.go:219-284 | each step keeps partitions running for the consumer of their share, consumers distinct and no more than partitions |
| HandOff.HandOffIsExactlyOnce | pipe/kafka.go:208-284 | over any interleaving of fetches, hand-overs, cancellations, additions and removals consumers get each partition's messages once, in order |
| HandOff.EveryConsumerIsFed | pipe/kafka.go:237-283 | outside a redistribution every consumer has a running partition |
| HandOff.HandOverGoesToOwner | pipe/kafka.go:208-217 | outside a redistribution a partition's message goes to the consumer whose share has the partition |
| HandOff.MessagesGoToOwners | pipe/kafka.go:219-284 | over any interleaving every message goes to the consumer that had its partition in the redistribution it was handed over in |
| HandOff.DrainedMeansAllHandedOver | pipe/kafka.go:208-216 | with an empty slot everything taken has been handed over |
| SeqNo.Reader.ReloadSeqNo | changelog/mysql.go:251-303 | a reader without a number takes the first non-zero one of the rows it gets to see, those up to the first whose table cannot be added; any other keeps its own |
| SeqNo.Reader.UpdateState | changelog/mysql.go:323-365 | number, rows and result for every failure of the refresh, of the reading and of the saving, which may reach the database unnoticed |
| SeqNo.UpdateSucceedsExactlyWhen | changelog/mysql.go:323-365 | a refresh succeeds if and only if the lock is still held, some table is read, all can be added and the save is known to have arrived; every row of the cluster then has the reader's number |
| SeqNo.Reader.NextSeqNo | changelog/mysql.go:315-321 | counts by one, saves on every multiple of a million, and gives zero exactly when that fails: when the lock is lost, no table is read, one cannot be added, or the save is not known to have arrived |
| SeqNoRuns.StepKeepsInv | changelog/mysql.go:315-365 | every step leaves all rows that carry a number carrying the same one, and every number issued below it plus a million |
| SeqNoRuns.RunKeepsInv | changelog/mysql.go:315-365 | the same over any run |
| SeqNoRuns.NeverRepeats | changelog/mysql.go:315-341 | over any run of incarnations with crashes anywhere each number issued is greater than all before, as long as a row with the saved number survives |
| SeqNoRuns.FirstIssuedIs | changelog/mysql.go:323-341 | a starting reader issues the saved number plus a million and one |
| SeqNoRuns.ContinuesExactlyWhen | state/state.go:361-363 | whatever rows come and go, the next reader goes on above all numbers issued if and only if none was issued or a row it reads carries the saved number |
| Registry.MarkKeepsAccounts | changelog/mysql.go:258-303 | marking keeps every producer held by one entry or closed exactly once |
| Registry.SweepKeepsAccounts | changelog/mysql.go:206-235 | so does the sweep |
| Registry.MarkedSlot | changelog/mysql.go:258-303 | what marking does to the entry of one database, table, output and version |
| Registry.MarksAllExactlyWhen | changelog/mysql.go:156-204 | the loop goes through all rows if and only if every table with a primary key that has no entry yet can be added |
| Registry.ReloadSucceedsExactlyWhen | changelog/mysql.go:251-311 | a reload succeeds if and only if besides some row is kept; a table without a primary key stops nothing |
| Registry.ReloadReconciles | changelog/mysql.go:251-311 | after a successful reload each entry belongs to a current row of the same id and keeps its producer, and a row has an entry exactly when it had one under its id or is new and has a primary key |
| Registry.SecondReloadIsComplete | changelog/mysql.go:251-311 | a second reload leaves exactly the rows whose table has a primary key or whose entry was there at first, each under its id |
| Registry.ThirdReloadChangesNothing | changelog/mysql.go:251-311 | after that reloading the same rows changes nothing |
| RegistryTables.SwapOutRepresents | changelog/mysql.go:284-286 | removing an entry by moving the last one into its place drops this entry alone |
| SwapRemoval.MissedExactly | changelog/mysql.go:206-235 | elements swapped out of a list, in any order, while a loop is at some position: how many of those that stay it misses |
| SwapRemoval.MissedBySwapOutExactlyWhen | changelog/mysql.go:284-286 | one element swapped out: another is missed if and only if it is the last, the loop has not been there, and the hole is not behind the loop |
| RegistryTables.TableRegistry.AddNewTable | changelog/mysql.go:156-204 | true if and only if the table has no primary key or can be added; adds an entry with a new producer, does nothing for a table without primary key, fails without a trace |
| RegistryTables.TableRegistry.FindEntry | changelog/mysql.go:272-279 | finds the entry of this output and version or that there is none |
| RegistryTables.TableRegistry.ReconcileEntry | changelog/mysql.go:279-292 | an entry under another id is closed and dropped, one under the same id is marked |
| RegistryTables.TableRegistry.ReloadRow | changelog/mysql.go:258-303 | one row of the state does to the lists what MarkRow does to the map of entries |
| RegistryTables.TableRegistry.SweepEntry | changelog/mysql.go:206-235 | a dead entry is closed once and swapped out, a live one is unmarked and counted |
| RegistryTables.TableRegistry.SweepTable | changelog/mysql.go:206-235 | the list of one table is swept completely, by swapping entries out, and no other changes |
| RegistryTables.TableRegistry.RemoveDeletedTables | changelog/mysql.go:206-235 | leaves exactly the marked entries, all unmarked, with every dropped producer closed once, and counts them |
| RegistryTables.TableRegistry.ReloadState | changelog/mysql.go:251-311 | a reload is Mark and then Swept; it is true exactly when every new table with a primary key could be added and some row is kept |
| RowEvents.Producer.ProduceRow | changelog/mysql.go:390-424 | one event under the next number goes to this output alone, or nothing when numbering, encoding or pushing fails; a failed push is an error only as long as no shutdown is seen |
| RowEvents.Producer.ProduceWrites | changelog/mysql.go:429-435 | an insert for each image, in order, up to the first error; those the pipe refuses once a shutdown is seen are skipped |
| RowEvents.Producer.ProduceDeletes | changelog/mysql.go:436-442 | a delete for each image, likewise |
| RowEvents.Producer.ProduceUpdates | changelog/mysql.go:443-454 | a delete of each before image and an insert of its after image, likewise |
| RowEvents.Producer.HandleRowsEventLow | changelog/mysql.go:426-461 | what arrives of the event's changes goes to one output; an unsupported event changes nothing |
| RowEvents.Producer.HandleRowsEvent | changelog/mysql.go:390-476 | every output the loop comes to, whatever reloads swap out under it, gets what arrives of the changes under numbers of its own; true exactly when no number is refused, and then all of them have everything if and only if no push failed, which takes a shutdown; else the outputs before have theirs, one has its part up to a refused number and the rest nothing |
| RowEvents.AllArriveExactlyWhen | changelog/mysql.go:400-420 | everything arrives if and only if the pipe takes the events of all numbers |
| RowEvents.CompleteExactlyWhen | changelog/mysql.go:412-421 | the outputs handled have every change if and only if the pipe took the events of all numbers used |
| RowEvents.ShutdownHidesLossExactlyWhen | changelog/mysql.go:412-421 | there are failures that leave the result true and an event missing if and only if the shutdown is seen at the last number or before |
| RowEvents.SuccessWithoutEvent | changelog/mysql.go:412-421 | one row and one output: true, and the event is nowhere |
| RowEvents.VisitsAreDistinct | changelog/mysql.go:463-476 | however reloads change the list, the loop comes to no output twice |
| RowEvents.ReloadPassesOver | changelog/mysql.go:463-476 | when entries are swapped out while an output is handled, of those that stay the loop passes over as many as were removed up to there, or all behind if they are fewer |
| RowEvents.NothingPassedOverExactlyWhen | changelog/mysql.go:463-476 | every output that stays is handled if and only if nothing up to the current one was removed or nothing behind it stays |
| RowEvents.ReloadMissesOutput | changelog/mysql.go:315-341 | three outputs, the first deregistered, number 999999 issued: true, and the third, still registered, misses the event |
| RowEvents.ChangesAreOps | changelog/mysql.go:426-461 | the changes produced are those of the row operations one after the other |
| RowEvents.OneOpPreserved | changelog/mysql.go:390-461 | a keyed table that mirrors the source still does after one write, delete or update and its events |
| RowEvents.OpsPreserved | changelog/mysql.go:390-461 | the same over any sequence of operations |
| RowEvents.EveryStreamMirrorsSource | changelog/mysql.go:390-476 | for every sequence of row events and every output handled for each of them, applying the emitted events, under whatever numbers, gives the same keyed table as applying the row events |
| RowEvents.StreamNumbersIncrease | changelog/mysql.go:390-476 | numbers strictly increase along every output as long as each event is numbered behind the one before |
| Convergence.SegmentAdvances | streamer/streamer.go:246-287 | replaying a part of the log over a state between two points of it moves that state forward |
| Convergence.SegmentsConverge | streamer/streamer.go:246-287 | replaying overlapping parts without a gap ends at the source table |
| Convergence.SnapshotPlusLogConverges | streamer/streamer.go:246-287 | a snapshot followed by everything from an earlier point on, parts of it repeated, gives the source table |
| Convergence.GapConvergesExactlyWhen | streamer/streamer.go:246-287 | with a buffer that starts after the snapshot the result is right if and only if no untouched key changed in between |
| Convergence.SnapshotFolds | snapshot/mysql.go:202-261 | the inserts of a snapshot give its table |
| Convergence.HighestSeqNoWins | snapshot/mysql.go:238-238 | keeping the event with the highest number per key, in any order of arrival, gives the same table |
| Convergence.BootstrappedStreamConverges | streamer/streamer.go:246-287 | snapshot inserts and then every buffered event give the source table at the end of the log |
| Bootstrap.StepKeepsInv | changelog/mysql.go:816-832 | each step of master, snapshot server, reader and streamer, its start from the master's GTID included and two apart, keeps everything since the GTID handed to the streamer in the buffer |
| Bootstrap.RunKeepsInv | streamer/streamer.go:246-287 | the same over any run of such steps |
| Bootstrap.BootstrapConverges | streamer/streamer.go:74-137 | over any interleaving of master, snapshot server, a running or starting reader and streamer the bootstrapped output converges to the source |
| Bootstrap.ConvergedExactlyWhen | streamer/streamer.go:248-282 | over any run at all it has converged if and only if the buffer starts no later than the snapshot or the edits in between are harmless |
| Bootstrap.RestartConvergesExactlyWhen | changelog/mysql.go:590-593 | after a reader died and another started from the saved GTID the output converges if and only if the buffer had all of the transactions in that GTID, or what it misses is harmless |
| Bootstrap.SavedGtidIsNotAhead | changelog/mysql.go:339-339 | over any run the saved GTID has no transaction the reader has not begun, whatever the master is at, and only its last one can be one not handled whole |
| Bootstrap.SavedGtidIsNotBehind | changelog/mysql.go:323-341 | each save ends with a GTID that covers everything handled so far and at most the rest of one transaction besides |
| Bootstrap.SavingBetweenTransactionsLosesNothing | changelog/mysql.go:323-341 | a GTID saved with no transaction half handled is exactly what was handled, and a reader that starts from it leaves the output converging |
| Bootstrap.SavingInsideTransactionLoses | changelog/mysql.go:720-735 | a run that saves the GTID inside a transaction and loses its row |
| Bootstrap.RegistrationWhileSavingLoses | changelog/mysql.go:323-341 | a run in which a table registered inside one state update misses a row |
| Bootstrap.GivingUpWaitingLoses | streamer/streamer.go:253-253 | a run in which a failed wait for the GTID misses a row |
| SnapshotStream.KafkaProducer.SendMessages | pipe/kafka.go:531-539 | the broker takes the whole batch, or reports an error having taken any part of it |
| SnapshotStream.KafkaProducer.PushBatch | pipe/kafka.go:499-523 | the message is queued and a full batch is sent; after a failure there is no room for another message |
| SnapshotStream.KafkaProducer.PushBatchCommit | pipe/kafka.go:526-542 | on success everything pushed is in the topic and nothing else, on failure the batch stays queued |
| SnapshotStream.SnapshotStreamer.StreamBatch | streamer/snapshot.go:38-72 | pushes the next rows, one each, at most a batch, unless a row has an error or the broker refuses a batch that fills up; there is no next when the reader is at its end |
| SnapshotStream.SnapshotStreamer.CommitWithRetry | streamer/snapshot.go:74-88 | true exactly when there is nothing to send or the broker takes one of five attempts; else the queue is as it was |
| SnapshotStream.SnapshotStreamer.StreamPass | streamer/snapshot.go:148-166 | one pass of the loop: rows and then a commit with retries, successful exactly when the broker takes its batches in time |
| SnapshotStream.AttemptSucceedsExactlyWhen | streamer/snapshot.go:74-88 | some number of attempts is enough if and only if the broker takes one of them |
| SnapshotStream.FullBatchesAreSent | pipe/kafka.go:499-523 | of the messages pushed all but the remainder modulo the batch size are sent, in full batches |
| SnapshotStream.SnapshotStreamer.StreamBatches | streamer/snapshot.go:148-174 | every row is pushed once, in order, and the last batch sent, exactly when no row has an error, nothing interrupts, and each batch is taken at once when it fills up and within five attempts otherwise |
| SnapshotStream.SnapshotStreamer.StreamFromConsistentSnapshot | streamer/snapshot.go:116-182 | the bootstrap flag is cleared only after schema and all rows were pushed; what is then left in the producer's batch is nothing if and only if there were rows, or the schema message filled the batch, or there was no message at all |
| SnapshotStream.RepeatedSnapshotFolds | streamer/snapshot.go:74-88 | snapshot events delivered more than once and in any order give the snapshot's table |
| SnapshotStream.SnapshotTopicGivesTable | streamer/snapshot.go:116-182 | a topic that has every message sent, and none that was not pushed, gives the snapshot's table, retries and partly sent batches included |
| SnapshotStream.SnapshotIntoNewTopic | streamer/snapshot.go:116-182 | for every broker a bootstrap into a new topic succeeds under exactly these conditions, and then the topic has what gives the table |
| EndToEnd.EncodedEventIsProduced | encoder/json.go:251-276 | without a filter the encoder makes of a row image the event of the reader's translation, with the same key and values |
| EndToEnd.StreamIsLog | changelog/mysql.go:463-476 | every output gets the same edits, whatever numbers they come under |
| EndToEnd.SnapshotAndStreamMirrorSource | streamer/streamer.go:246-287 | a snapshot of the source rows taken anywhere, followed by what any output gets of the row events from an earlier one on, gives a copy that mirrors the source rows after all events |
| Gtid.AddAdds | changelog/mysql.go:562-570 | inserting one transaction and normalising adds exactly it and leaves the intervals sorted, disjoint and not touching |
| Gtid.ExtendLastAdds | changelog/mysql.go:553-558 | so does growing the last interval |
| Gtid.NormalFormIsUnique | changelog/mysql.go:547-573 | a set of transactions has one such list of intervals |
| Gtid.FastPathIsAdd | changelog/mysql.go:553-558 | the fast path gives the very intervals AddSet would |
| Gtid.GtidSet.IncGTID | changelog/mysql.go:547-573 | one event adds its transaction, by either path, or changes nothing when the server id is no UUID |
| Gtid.StreamDenotesUnion | changelog/mysql.go:547-573 | after any stream of events the set is the initial one and exactly the events' transactions |
| Framing.UvarintReadsBack | pipe/file.go:405-414 | the length written, unsigned LEB128 (section 7.6 of DWARF 5), reads back, for all 64-bit values |
| Framing.FramesReadBack | pipe/file.go:767-810 | framed messages read back in order whatever follows them |
| Framing.RoundTrip | pipe/file.go:405-475 | a consumer of the frames gets the messages and then the end of the file |
| Framing.TextReadsBackExactlyWhen | pipe/file.go:416-426 | in text mode messages come back if and only if none has a newline in it |
| Framing.CutFileGivesWholeMessages | pipe/file.go:767-810 | a file cut at any byte gives exactly its whole messages |
| Framing.WhereTheCutIs | pipe/file.go:767-810 | how many messages are whole and how far the next one was written |
| Framing.CutFileIsReportedExactlyWhen | pipe/file.go:792-807 | a cut is reported if and only if it is inside a message, and in binary mode behind its length |
| Encodings.Base64ReadsBack | pipe/header.go:14-14 | the schema's base64 text reads back |
| Encodings.HexIsInjective | pipe/header.go:21-23 | different digests have different texts |
| Json.ReadsBack | pipe/header.go:25-30 | an object of text and true members reads back, whatever follows it |
| Json.MembersOnOneLine | pipe/header.go:30-34 | its text has no newline in it |
| FileHeader.HeaderReadsBack | pipe/header.go:37-51 | readHeader recovers the header written and stops right before the body |
| FileHeader.DigestDoesNotChangeLength | pipe/header.go:20-35 | headers that differ in the digest alone have the same length |
| FileHeader.RewriteKeepsBodyExactlyWhen | pipe/file.go:386-393 | rewriting the header leaves the body alone if and only if it is as long as before, or longer on an empty body |
| FileNames.NextFileSortsAfterExactlyWhen | pipe/file.go:280-283 | a file sorts before the next one, open or closed, if and only if the clock moved on or both numbers have the same number of digits |
| FileNames.NameOrderIsCreationOrder | pipe/file.go:280-283 | below a thousand files names increase in creation order |
| FileNames.DirectoryOrderIsCreationOrderExactlyWhen | pipe/file.go:230-253 | all files of a key sort in creation order if and only if the clock moves on whenever numbers get longer |
| FileNames.NextFile | pipe/file.go:245-252 | binary search finds the first name after the current one, or that there is none |
| FileNames.VisitsEveryFileOnce | pipe/file.go:230-253 | going to the next file again and again visits every name once, in order |
| FileNames.SortedListingIsUnique | pipe/file.go:231-231 | a directory has one sorted listing |
| FileProducer.FileProducer.constructor | pipe/file.go:149-151 | a new producer has no file, no schema and file number zero |
| FileProducer.FileProducer.WriteHeader | pipe/header.go:20-35 | remembers a digest in the header and gives the header's line |
| FileProducer.FileProducer.NewFile | pipe/file.go:300-367 | takes a new number and name, writes a header with an empty digest unless the name has content already |
| FileProducer.FileProducer.WriteMessage | pipe/file.go:443-455 | the buffer gets the message with its length before it or its newline behind it |
| FileProducer.FileProducer.Flush | pipe/file.go:494-499 | what is buffered goes through the digest to the handle's position |
| FileProducer.FileProducer.CloseFile | pipe/file.go:380-403 | flushes, rewrites the header with the body's digest and drops ".open" from the name |
| FileProducer.FileProducer.Push | pipe/file.go:429-475 | the message comes behind all earlier ones and closed files stay as they are; its file is closed if and only if the lengths of its messages, and one for each, reach the maximum; unless batching everything pushed is then in the directory |
| FileProducer.FileProducer.PushBatchCommit | pipe/file.go:494-499 | everything pushed is in the directory |
| FileProducer.FileProducer.PushSchema | pipe/file.go:501-518 | flushes and closes the file, then pushes the schema as first message under a header that has it; it comes behind all earlier messages; the file that was open is closed whatever its size |
| FileProducer.FileProducer.Close | pipe/file.go:521-540 | the open file is closed, and every message pushed is in a closed file |
| FileRuns.NewFileKeepsInv | pipe/file.go:300-367 | a new file never takes the name of one that is there, and disturbs none |
| FileRuns.WriteKeepsInv | pipe/file.go:443-455 | written and buffered bytes are the frames of the file's messages |
| FileRuns.FlushKeepsInv | pipe/file.go:494-499 | flushing adds to the end of the open file alone |
| FileRuns.ClosedContent | pipe/file.go:386-393 | the header closing writes is as long as the first one, so the body is untouched |
| FileRuns.CloseKeepsInv | pipe/file.go:380-403 | the closed file holds its messages, the schema in force and the digest of its body, and the others are as before |
| FileRuns.PushFollows | pipe/file.go:429-475 | a push adds its message behind all earlier ones under the schema in force, whether it opens, rotates or neither |
| FileRuns.PushSchemaFollows | pipe/file.go:501-518 | so does a schema, under itself; the files before keep theirs |
| FileRuns.ApplyFollows | pipe/file.go:429-540 | every operation leaves closed files alone and adds exactly its message |
| FileRuns.RunFollows | pipe/file.go:429-540 | after any run every message pushed is in the closed files or the open one, once, in order, with its schema |
| FileRuns.FilesAreCutAtTheMaximum | pipe/file.go:463-471 | after any run no file has a message behind one that filled it, and the open one is not full; with pushes and commits alone every closed file is full |
| FileRuns.CommittedIsOnDisk | pipe/file.go:459-461 | after any run that does not end with a batched push the directory has every message pushed, in order |
| FileConsumer.FileConsumer.FetchNextLow | pipe/file.go:767-810 | a message, an error or the end of the open file |
| FileConsumer.FileConsumer.OpenFile | pipe/file.go:708-765 | opens a delimited file, its digest checked on demand; on an error the consumer stays where it was |
| FileConsumer.FileConsumer.InitConsumer | pipe/file.go:153-168 | a new consumer opens the first or the last file whatever its name, or is as on an empty directory when that fails |
| FileConsumer.FileConsumer.OpenNextFile | pipe/file.go:580-610 | opens the first name after the current one unless there is none or it is open |
| FileConsumer.FileConsumer.FetchNext | pipe/file.go:813-825 | steps until there is a message, an error or nothing to read yet, whatever the directory holds |
| FileConsuming.MovesOn | pipe/file.go:230-253 | after opening a file exactly the names up to it are behind the consumer |
| FileConsuming.RestOfOpenFileIsSkipped | pipe/file.go:245-252 | a consumer that is on an open file never opens it again under its closed name |
| FilePipe.DirectoryLists | pipe/file.go:230-253 | at any time the directory lists the closed files in creation order and then the open one |
| FilePipe.ClosedFileLooksOpenExactlyWhen | pipe/file.go:595-595 | a closed file is taken for an open one if and only if its key ends its name with ".open" |
| FilePipe.ClosedFileReads | pipe/file.go:708-765 | a closed file opens, verified or not, with its header's schema and digest and its body |
| FilePipe.ChangedBodyIsRefusedExactlyWhen | pipe/file.go:622-661 | a changed body is refused if and only if its digest changed |
| FilePipe.FetchGivesNext | pipe/file.go:813-825 | FetchNext delivers the next message of the closed files and waits only when there is none |
| FilePipe.RunKeepsInv | pipe/file.go:429-825 | over any run of producer and consumer what is delivered is what the closed files hold up to the consumer's place |
| FilePipe.DeliveredIsPrefixOfPushed | pipe/file.go:429-825 | at any moment the consumer has the first messages pushed, in order, without an error, for every rotation size |
| FilePipe.NothingIsLeftBehind | pipe/file.go:429-825 | once the producer has no open file FetchNext waits only when every message pushed is delivered |
| FilePipe.HeadersTellSchemaAndDigest | pipe/file.go:380-403 | after any run each closed file's header reads back with the schema of all its messages and the digest of its body |
| FileStart.StartIsGoodExactlyWhen | pipe/file.go:153-168 | however producer and consumer go on, one that starts at the oldest file gets all messages before and after, once, in order and without an error, if and only if that file is not open or is refused |
| FileStart.NewestStartIsGoodExactlyWhen | pipe/file.go:255-278 | one that starts at the end of the last file gets exactly the messages pushed from then on if and only if that file is not open |
| FileStart.OpenFileIsBadStart | pipe/file.go:590-598 | no consumer that starts on an open file, wherever in it, gets what is pushed to it once it was read to its end |
| FileStart.OpenFileIsRefusedExactlyWhen | pipe/file.go:736-741 | an open file is refused if and only if digests are verified and that of its body is not the all-zero one it was opened with |
| FileRestarts.LivesKeepInv | pipe/file.go:149-151 | over any number of producers that follow each other and close their last file, files and consumer are as with a single one |
| FileRestarts.RestartIsGoodExactlyWhen | pipe/file.go:590-598 | after such producers and one that ended anywhere, however the next one and the consumer go on, everything pushed before and after arrives once, in order and without an error, if and only if no file was left open |
| FileRestarts.NeverPassesOpenFile | pipe/file.go:595-598 | as long as an open file is in the directory no consumer before it ever opens it or one behind it, whatever else changes |
| ColumnFilter.GreedyListsDropped | encoder/json.go:292-304 | the loop lists, in order, the columns outside the key that its greedy match passes over |
| ColumnFilter.FilterIsRightExactlyWhen | encoder/json.go:278-307 | the filter is exactly the columns outside the key that the output does not have if and only if the output's fields, up to its last one outside the key, keep the columns' order |
| ColumnFilter.SubsequenceSuffices | encoder/json.go:278-307 | in particular for an output that has some of the columns in order |
| ColumnFilter.PreparedIsRightExactlyWhen | encoder/json.go:283-290 | for such an output the prepared filter is wrong exactly when it is left over from an earlier schema |
| ColumnFilter.CursorDropsFiltered | encoder/encoder.go:125-131 | one pass with the cursor drops exactly the filtered indices |
| ColumnFilter.RowPathIsEventPath | encoder/json.go:81-112 | encoding a row gives what filtering its unfiltered event gives, for every filter |
| ColumnFilter.EncodedFieldsAreOutputExactlyWhen | encoder/json.go:234-249 | an encoded insert has exactly the output's fields in the output's order if and only if the output has the whole key |
| ColumnFilter.SchemaEventDescribesTable | encoder/json.go:251-276 | a schema event has the name and type of every column, in order, and the names of the key; as output schema it filters nothing |
| ColumnFilter.DecodingPairsColumns | encoder/json.go:170-199 | decoding gives each text among the surviving fields and key values the type of its own column and leaves other values alone; it fails if and only if one of these texts does not fit the type of its column |
| ColumnFilter.RightFilterKeepsKey | encoder/json.go:296-304 | no key column is ever filtered |
| JsonEncoder.JsonEncoder.FilteredField | encoder/encoder.go:125-131 | tells whether the cursor stands at this index and moves it past |
| JsonEncoder.JsonEncoder.PrepareFilter | encoder/json.go:278-307 | the filter is left alone without an output schema or with as many columns as fields, else it is the greedy match |
| JsonEncoder.JsonEncoder.UpdateCodec | encoder/json.go:115-145 | input and output schema are replaced and the filter prepared; an output with more fields than columns is refused, a stored event that is no schema ignored; without an input schema nothing changes, and a stored schema that does not decode leaves filter and output as they were |
| JsonEncoder.JsonEncoder.FillCommonFormatKey | encoder/json.go:221-232 | the key columns' values, or names, in column order |
| JsonEncoder.JsonEncoder.FillCommonFormatFields | encoder/json.go:234-249 | the fields that survive the filter |
| JsonEncoder.JsonEncoder.ConvertRow | encoder/json.go:251-276 | inserts have key and fields, deletes the key, schema events names and types |
| JsonEncoder.JsonEncoder.FilterCommonFormat | encoder/json.go:86-100 | drops filtered fields and leaves everything else of the event |
| JsonEncoder.JsonEncoder.EncodeRow | encoder/json.go:81-84 | Row gives the filtered form of the unfiltered event |
| JsonEncoder.JsonEncoder.FixFieldTypes | encoder/json.go:170-199 | every column's type is applied to its field and its key value, or an error returned |
| RowKey.GetRowKey | encoder/encoder.go:99-113 | the key text of a row is that of the key of its event |
| RowKey.GetCommonFormatKey | encoder/encoder.go:116-123 | the texts of the key's values, each behind its length |
| RowKey.OneColumnIsUnambiguous | encoder/encoder.go:99-113 | keys of one column have texts of their own |
| RowKey.ShortKeysAreUnambiguous | encoder/encoder.go:99-113 | keys of several columns have texts of their own when all texts but the last are shorter than ten characters |
| RowKey.ShortKeysTellValuesApart | encoder/encoder.go:99-113 | such keys, without nulls and of the same types, have the same text if and only if they are the same |
| RowKey.NullSharesKeyText | encoder/encoder.go:99-113 | in a key of one column exactly null and the text it is written as share their text |
| RowKey.TenCharactersCanCollide | encoder/encoder.go:99-113 | two keys of two columns with one text, the first of ten characters |
| RowKey.UnambiguousExactlyWhen | encoder/encoder.go:99-113 | for every number of columns and every bound on the texts before the last, no two keys share a text if and only if there is one column or the bound is below ten |
| Throttling.WindowMoves | throttle/throttle.go:25-33 | one tick replaces the oldest total of the window by the current one, and the sum with it |
| Throttling.SleepIsShortest | throttle/throttle.go:35-40 | for a target that is not negative the advice is between zero and an interval and the shortest sleep that keeps an interval's amount within the target |
| Throttling.NegativeTargetTakesAnInterval | throttle/throttle.go:35-40 | with a negative target the advice for a positive average is at least an interval, and exactly one if and only if the average outweighs the target |
| Throttling.Throttle.Tick | throttle/throttle.go:25-41 | the ring read from the hand is the window of the last ticks, the sum is its sum, nothing added is lost, and the advice is that of the window's average, or a panic when that is zero and the target negative |
| Throttling.Throttle.Advice | throttle/throttle.go:44-60 | every amount is counted; without a target or a tick there is no advice |
| TicketLock.TryLockSucceedsExactlyWhen | lock/lock.go:97-121 | an undisturbed TryLock by a process without a ticket succeeds if and only if others hold fewer than all tickets, and takes the least free one |
| TicketLock.TakesLeastFree | lock/lock.go:97-117 | tickets are tried in order and no other holder is disturbed |
| TicketLock.StepKeepsInv | lock/lock.go:97-173 | no two processes ever share a connection |
| TicketLock.OthersKeepTickets | lock/lock.go:97-173 | whatever a process does or fails to do, the tickets of the others stay theirs |
| TicketLock.ClosingFreesTickets | lock/lock.go:171-173 | once a connection is closed each ticket it held, however often, can be taken by any other, and all other tickets are as before |
| TicketLock.AtMostAsManyHoldersAsTickets | lock/lock.go:97-173 | over any interleaving of attempts, unlocks, closes and lost connections at most as many processes hold a ticket, of any number, as there are tickets, each a different one |
| TicketLock.LockingAgainTakesSecondTicket | lock/lock.go:97-117 | locking while holding a ticket takes ticket 0 as well when it is free, and Unlock gives back that one |
| TicketLock.LockThenUnlockReleasesExactlyWhen | lock/lock.go:97-169 | an undisturbed Lock that succeeds and then Unlock leave the connection without a ticket if and only if the process held none before |
| LockObjects.MyLock.TryTicket | lock/lock.go:102-114 | one round of the loop: connection opened or not, ticket granted or not, connection closed after a failed query |
| LockObjects.MyLock.Lock | lock/lock.go:97-117 | tries tickets from zero until one is granted or no connection can be opened |
| LockObjects.MyLock.IsLockedByMe | lock/lock.go:123-141 | true exactly when the server has this connection for the ticket; a failed query costs the connection |
| LockObjects.MyLock.Refresh | lock/lock.go:143-148 | a ticket still held is kept and nothing changes, else it is a new Lock |
| LockObjects.MyLock.Unlock | lock/lock.go:150-169 | releases the ticket if this connection has it and says so |
| LockObjects.MyLock.Close | lock/lock.go:171-173 | the connection and all it holds are gone |
| StateTables.StateDb.ReplaceSchemaInPlace | state/state.go:374-430 | inserts or updates one row and replaces the table's columns, or nothing at all: for a duplicate, a missing row, another schema GTID or a repeated column |
| StateTables.RegistersExactlyWhen | state/state.go:400-430 | a new table is registered if and only if no row has its key, nothing of the cluster is registered under the same names, input, output and version, and no column comes twice; other tables are untouched |
| StateTables.ReplacesExactlyWhen | state/state.go:380-430 | a schema is replaced if and only if the state still has the version it was made from and no column comes twice; the rest of the row and all other tables are untouched |
| StateTables.StateDb.DeregisterTable | state/state.go:459-472 | the row goes, and the columns with the last row of the table |
| StateTables.StepKeepsInv | state/state.go:374-472 | each transaction and each statement keeps the invariants of both tables |
| StateTables.RunKeepsInv | state/state.go:374-472 | under any interleaving registered tables have columns, columns without a row are explained by a delete that is due or was abandoned, and both unique keys hold |
| StateTables.RegisteredTablesHaveTheirSchema | state/state.go:366-430 | the schema read for a registered table is the last one committed for it |
| StateTables.StoredExactlyWhen | state/state.go:459-472 | with no second delete due columns are stored exactly for registered tables and for those whose second delete was abandoned and that were neither registered again nor cleaned up since |
| StateTables.SecondOfTwoReadersIsSkippedExactlyWhen | state/state.go:380-399 | of two readers that replace the same version of a schema the second is skipped, with success, if and only if the first changed the GTID |
| StateTables.DyingBetweenDeletesLeavesColumns | state/state.go:459-472 | a deregistration that dies between its statements leaves columns behind |

## Left out

- Delivery.AtLeastOnce: one streamer owns all partitions of its topic, because moving a partition to another consumer while its events are in flight is not covered; a batch size of zero, which would commit after every event, is not either.
- Delivery.StepKeepsInv: a commit may come whenever the batch is not empty, which covers more than the loop in processBatch does.
- KafkaOffsets.OffsetTracker.CommitOffset: a partition id the cursors do not have, for which the source indexes its slice out of range and panics, cannot be passed.
- HandOff.HandOffIsExactlyOnce: the goroutines of one topic only; closing the last consumer and opening the topic again starts a new run.
- SeqNo.Reader.NextSeqNo: numbers do not wrap at 64 bits, because a run would need to issue that many.
- SeqNoRuns.NeverRepeats: one reader is active at a time; a reader that lost its lock and saves its state late is not modelled.
- RegistryTables.TableRegistry.ReloadState: the map of maps is one map keyed by database and table, because nothing depends on the outer map alone.
- Registry.SecondReloadIsComplete: rows are those read, so a state that changes between the two reloads is not covered.
- Bootstrap.BootstrapConverges: one table with one output and version, no ALTER; a reader starts at most once in a run, and what a restart does is RestartConvergesExactlyWhen. The buffer keeps everything until the streamer's consumer has registered; with a Kafka buffer that starts from the newest offset it would not.
- Bootstrap.RestartConvergesExactlyWhen: the reader dies after the snapshot was taken and the buffer has everything up to there.
- Framing.CutFileIsReportedExactlyWhen: ReadUvarint gives io.EOF for a length that is cut off, as it did when this code was written; newer versions of Go give io.ErrUnexpectedEOF once a byte was read, which the consumer reports.
- RowEvents.Producer.HandleRowsEvent: entries that a reload adds at the end of the list are not part of it, and a producer that a reload closes while it is being used is one whose pushes may fail.
- FileRestarts.RestartIsGoodExactlyWhen: producers die between operations, and the clock moves on between them: within one second the next producer would append to the file the last one left open, because it numbers files from one again.
- Gtid.GtidSet.IncGTID: AddSet of the replication library is taken as insert and normalise.
- SnapshotStream.KafkaProducer.PushBatchCommit: an error of another type than the library's list of failed messages, on which the source panics, is not modelled.
- FileProducer.FileProducer.NewFile: directories are made and files opened and written without an error.
- FileProducer.FileProducer.CloseFile: writing, closing and renaming do not fail.
- FileProducer.FileProducer.Push: write and rename errors, and early flushes of a full buffer, which leave the same bytes once flushed, are not modelled.
- FileStart.StartIsGoodExactlyWhen: the consumer reads of an open file what it has when it is opened; on a file that is closed, which is where a good start is, this makes no difference.
- FileProducer.FileProducer.Close: a producer is not used after Close, when the source still has the closed file in its map.
- FilePipe.DeliveredIsPrefixOfPushed: one key, delimited messages, headers on, no encryption or compression, the digest any function to 32 bytes; with several keys the shared header breaks the file that is closed after another key's schema.
- FileConsumer.FileConsumer.OpenNextFile: reading the directory does not fail; the source ignores such an error.
- FileConsumer.FileConsumer.OpenFile: fields a failed opening may already have set are left as they were, because the next opening sets them again.
- ColumnFilter.DecodingPairsColumns: what fixField does to a value is a tag with the column's type, because the conversion of numbers is lossy and not decided by this code.
- RowKey.GetRowKey: lengths count characters where the source counts bytes; for texts of bytes they are the same.
- Throttling.Throttle.Tick: sums do not overflow at 64 bits.
- TicketLock.AtMostAsManyHoldersAsTickets: a connection may hold several names, as in MySQL 5.7; before that taking a second name gave up the first.
- StateTables.StateDb.ReplaceSchemaInPlace: the paths that return without ending their transaction keep locks until the connection ends, which is not modelled.
- The polling loops of start, ensureBinlogReaderStart and waitForGtid are steps of Bootstrap, not methods, because all they do is wait for another process.
- Avro encoding, regular expressions for ALTER statements, MutateTable and SQL text.
- The local pipe, the thread pool and shutdown handling: plain queues and counters.
- HTTP handlers, configuration, logging and metrics; fsnotify, HDFS, S3 and other file systems that cannot seek.
