# A verified model of litefan

litefan is a durable fan-out queue kept in one SQLite file. Publishers append messages to a
shared log, with an optional idempotency key. Named consumers, each with a topic filter, read
the log through a scan cursor; what they have been handed and not settled is a small table of
delivery rows with a visibility deadline and a generation. Receipts name a generation. Copies
can be acknowledged, released, extended, archived and redriven; a consumer can be drained and
deleted; old messages can be pruned.

This project models that state machine in Dafny and proves what it is for.

## How it is built

- `Schema.dfy` holds the tables, the AUTOINCREMENT sequences and the declared constraints;
  `Transactions.dfy` says what each transaction does to them; `Runs.dfy` interleaves any
  transactions of any number of workers. Clock readings are inputs of every step and are never
  assumed to be ordered. A failing transaction returns the state it was given.
- `Store.dfy` (class `LiteFan`) and `Consumers.dfy` (class `Consumer`) carry the operations out
  the way the program does, statement by statement and chunk by chunk, with the loops of
  `Storage.dfy`, `Settling.dfy` and `Leasing.dfy`. A statement requires that the values it binds
  are at most 999. Rows that a statement returns come back in an order callers know nothing
  about. Each method is proved to leave exactly the state, the answer and the notices that
  `Transactions.dfy` and `Wakeups.dfy` say. A claim reads twice outside its transaction; what
  other workers commit and announce in between is an input.
- `Fanout.dfy` is the design the cursors replace: one copy in the inbox of every matching active
  consumer at publish time. `LazyIsEager.dfy` proves that litefan is that design, and
  `Pruning.dfy` and `Conservation.dfy` argue on it.
- `Leases.dfy` and `Receipts.dfy` are about leases and receipts within one cycle of a copy, from
  its first delivery or a redrive to its settlement; `Cycles.dfy` is about receipts across cycles.
  `Witnesses.dfy` has runs from the empty store for the inputs named below.
- `Signals.dfy` has the watch channels and the weak registry as classes; `Wakeups.dfy` has the
  long-poll protocol over them as a state machine, with commits of this process, which announce
  what they do, and of others, which cannot. `Polling.dfy` has the events of a poll in it.
  The poll of `Consumers.dfy` works on real receivers and is proved to perform those events.
- `Lifecycles.dfy` follows a consumer's row from its opening to its deletion and what snapshots show
  of it; `Backlogs.dfy` says what decides a deletion.
- `Ranking.dfy` and `Prelude.dfy` hold ordered selection (ORDER BY ... LIMIT) and shared types.

## Where the code and its own words differ

The model follows the code. Each of these is a proved statement with its exact condition.

- The repository's DESIGN.md:25-27 and README.md:116-117 say a receipt identifies one lease and a stale one is
  refused. A redrive restarts generations at zero (src/consumer.rs:484), so later claims mint
  receipts there have been before. A receipt of a copy the scan has passed, of any generation and
  however stale, can come to be honoured again if and only if the copy is live or archived; the
  way back is archive, redrive and as many claims as the generation says
  (`Cycles.ReceiptsComeBackExactly`). Up to the next redrive of the copy the promise holds:
  `Leases.ReceiptFencing` and `Cycles.OneReceiptInForce`.
- A nack batch of more than 332 receipts is sent in chunks, and a row bumped by one chunk can be
  hit again by a later one that holds the next generation's receipt. The chunked batch equals
  one statement over all receipts, on every table, if and only if no later chunk holds the
  successor of a receipt of an earlier chunk (`Receipts.NackIgnoresChunks`,
  `Receipts.NackBumpsTwice`). A worker can hold such receipts: a run from the empty store hands
  out both and leaves the row at the first (`Witnesses.SuccessiveReceiptsHeld`), and nacking them in
  a batch of 333 bumps the row twice (`Witnesses.ANackBatchBumpsTwice`).
- An extension repeated in two chunks is counted twice in `applied`, although the rows are right
  (`Receipts.ExtendCountIgnoresChunks`, `Receipts.ExtendRowsIgnoreChunks`; from the empty store:
  `Witnesses.AnExtensionCountsTwice`).
- DESIGN.md:148-149 says an empty poll also wakes at the earliest known visibility deadline. The
  time left is cast from a signed to an unsigned number (src/time.rs:56-57), so a deadline that
  has passed by the time the clock is read again becomes an enormous sleep, bounded only by the
  poll interval and the rest of the wait (`Time.SleepsUntilVisible`; an instance:
  `Witnesses.APassedDeadlineIsSleptOn`).
- A poll of a draining consumer gives up as soon as it finds it drained. The transaction that
  makes it so is announced to it if and only if it is not an acknowledgement of its own consumer
  (`Wakeups.ExhaustionIsAnnounced`). An acknowledgement leaves a poller's receivers and the notices
  on their way to it as they were (`Wakeups.AckWakesNobody`), so it does not wake a poll that
  sleeps when another worker acknowledges the last copy (from the empty store:
  `Witnesses.AnAckDrainsSilently`).
- The error for an incomplete ledger entry (src/store.rs:229-233) cannot be returned, and the
  error for a claimed delivery without its message (src/consumer.rs:675-684) cannot either.

## Model

| member | source | states |
|---|---|---|
| Invariants.StepKept | src/schema.rs:4-61 | every transaction keeps all keys, checks, unique and foreign keys and scan cursor <= drain cursor <= message sequence, with every delivery and archive at or below its scan cursor, and none is refused by a constraint |
| Invariants.ReachableWf | src/schema.rs:4-61 | the same for every state of every run from the empty file, with any clocks and any interleaving |
| Invariants.ScanTakesLowest | src/consumer.rs:617-668 | the scan takes the lowest unscanned matching ids and moves the cursor so that exactly the others stay unscanned |
| Invariants.ClaimKept | src/consumer.rs:561-680 | the locked half of a claim by a live consumer always succeeds: its insert never meets the primary key and no body is missing |
| Invariants.RedriveKept | src/consumer.rs:445-497 | a redrive never meets a delivery of the same copy, and reports the archives it found |
| Invariants.WindowIsUnseen | src/storage.rs:63-65 | bounding the scan by COALESCE(drain_cursor, MAX(id)) selects the same messages as testing drain_cursor for null |
| LazyIsEager.ClaimBacklog | src/consumer.rs:617-668 | a claim takes the lowest copies of the consumer's inbox, leaves the others, and touches no other inbox, although it moves a cursor over a log with gaps |
| LazyIsEager.UnseenGrows | src/consumer.rs:107-114 | after a publish the consumers that gain the message are the active ones whose filter takes it, null topics included |
| LazyIsEager.IdleIsPrunable | src/store.rs:377-401 | the prune guard selects exactly the old messages in nobody's inbox, delivery or archive |
| LazyIsEager.StepAgrees | src/consumer.rs:525-734 | seen as inboxes, each transaction is the eager fan-out's step with the same result for the caller |
| LazyIsEager.RunAgrees | src/consumer.rs:525-734 | every run of every operation simulates the eager fan-out: same inboxes, same results |
| Pruning.StepAlike | src/store.rs:370-410 | two states that differ only in unneeded messages answer every operation but prune alike and stay so, though their MAX(id) and hence their cursors differ |
| Pruning.RunAlike | src/store.rs:370-410 | the bisimulation over whole runs |
| Pruning.PruningIsInvisible | src/store.rs:370-410 | inserting prunes anywhere in a run changes no claim, receipt, publish or snapshot result |
| Retention.PruneIsExact | src/store.rs:370-409 | one prune deletes the min(limit, eligible) lowest eligible ids, cascades to no delivery and changes nothing but the log |
| Retention.PruningConverges | src/store.rs:370-409 | repeated at one cutoff it ends after ceil(eligible / limit) calls with exactly the eligible messages gone |
| Retention.PruningLeavesTheNeeded | src/store.rs:370-409 | what is left of the old messages is exactly what some delivery, archive or unfinished scan needs |
| Conservation.StepBalanced | src/consumer.rs:213-237 | one step keeps, for each consumer and message, the number of places the copy is in equal to whether it is owed |
| Conservation.NothingLostNothingDoubled | src/consumer.rs:454-489 | after any run a message owed to a consumer is in exactly one of unscanned, materialized, archived, acknowledged, purged; one not owed is in none |
| Leases.StepRow | src/consumer.rs:582-606 | what any step may do to a live delivery row: claim and nack raise its generation, ack, archive and deletion end it, extension moves its deadline forward only, everything else leaves it |
| Leases.StepAbsent | src/consumer.rs:454-489 | a copy the scan has passed and that is not live comes back by a redrive of its archive and in no other way |
| Leases.StepOnward | src/consumer.rs:617-668 | scan cursors never move back and consumer ids are never reused |
| Leases.HonouredIsHit | src/storage.rs:152-168 | settling one receipt hits its row exactly when consumer, message and generation all match, through its own consumer only |
| Leases.ReceiptFencing | src/consumer.rs:257-261 | within a cycle a receipt is honoured after a run exactly when nobody claimed, nacked, settled or archived the copy or deleted its consumer |
| Leases.ClaimHandsOut | src/consumer.rs:606-698 | a claim returns its retries and newly scanned messages once each in id order, with the stored message and a receipt honoured from then on |
| Leases.HandedRow | src/consumer.rs:556-606 | a copy a claim hands out stays hidden until exactly that claim's deadline, and was visible or never materialized before |
| Leases.ClaimsMintFresh | src/consumer.rs:582-606 | two claims of one copy with no redrive between mint strictly increasing generations |
| Leases.LeaseExclusion | src/consumer.rs:556-606 | for any clocks and interleaving, a copy claimed twice with no nack or archive between was claimed the second time at a reading not before the first deadline with all its extensions |
| Leases.FirstDeliveriesFollowTheLog | src/consumer.rs:617-668 | ids first materialized by a later claim are above those of any earlier one, across workers, prunes and topic gaps |
| Leases.AttemptsAreCounted | src/consumer.rs:582-606 | while a copy stays live its delivery count goes up by one for each claim that hands it out and by nothing else |
| Leases.FirstAttempt | src/consumer.rs:480-486 | a first delivery is attempt one, and a redriven copy starts again at none |
| Cycles.MintsAreDelivered | src/consumer.rs:686-698 | the receipts a step mints are exactly those its caller is handed |
| Cycles.OneReceiptInForce | src/consumer.rs:582-606 | of all receipts delivered for a copy during a cycle at most one matches its row: the latest, and only while nothing has nacked, settled or archived the copy since |
| Cycles.NackEndsThemAll | src/consumer.rs:257-261 | after a nack that hit the copy none of them matches until the next claim of it |
| Cycles.ReceiptsComeBackExactly | src/consumer.rs:480-486 | a receipt of any generation of a scanned copy can be honoured after some run if and only if the copy is live or archived |
| Cycles.SettledForGood | src/consumer.rs:213-237 | a copy that is scanned, not live and not archived stays so through every run |
| Witnesses.SuccessiveReceiptsHeld | src/consumer.rs:480-486 | a run from the empty store delivers two successive receipts of one copy and leaves its row at the first |
| Witnesses.ANackBatchBumpsTwice | src/consumer.rs:254-275 | from there a nack batch of 333 receipts raises the generation twice where one statement would raise it once |
| Receipts.NackChunksEffect | src/consumer.rs:254-267 | a chunked nack changes exactly the rows the batch holds receipts for, raises their generation and reports zero only when there are none |
| Receipts.NackIgnoresChunks | src/consumer.rs:254-275 | chunked nacks equal one statement on every table if and only if no later chunk holds the successor of an earlier receipt |
| Receipts.NackBumpsTwice | src/consumer.rs:254-275 | with such a successor some table has a row bumped twice |
| Receipts.ExtendRowsIgnoreChunks | src/consumer.rs:311-325 | the rows after an extension never depend on the chunks |
| Receipts.ExtendCountIgnoresChunks | src/consumer.rs:311-330 | rows and count equal those of one statement on every table if and only if no receipt repeats in a later chunk |
| Receipts.ExtendCountsTwice | src/consumer.rs:311-330 | a live receipt repeated in a later chunk is counted twice |
| Receipts.EveryReceiptTallied | src/consumer.rs:233-236 | applied and stale make up the batch for ack, nack and extend: the saturating subtraction never saturates |
| Receipts.AckReports | src/consumer.rs:213-237 | an acknowledgement ends exactly the consumer's rows whose receipts the batch holds and reports as many as it ended, the others as stale |
| Receipts.NackReports | src/consumer.rs:245-276 | unless a later chunk holds a successor, a nack reports as many as the rows it changed, which are those the batch holds receipts for |
| Receipts.ExtendReports | src/consumer.rs:295-331 | unless a receipt is in two chunks, an extension reports as many as the rows the batch holds receipts for, and moves exactly those forward |
| Idempotency.OneEffectPerBatch | src/store.rs:174-236 | in a batch the first use of a key publishes, every other is told its id, and the ledger remembers it until now + window |
| Idempotency.WindowLasts | src/storage.rs:136-145 | an entry lasts through a run exactly when no keyed publish read a clock at or past its expiry, and while it lasts every publish of the key is told the same id |
| Idempotency.EffectsAreAWindowApart | src/store.rs:136-157 | between two effects of one key some keyed publish read a clock at or past the first one's fixed expiry |
| Publishing.FoldFollowsPlan | src/store.rs:174-200 | publishing a batch one by one inserts, fills and tells exactly what the plan computed from sets of keys does |
| Publishing.EveryKeyFilled | src/store.rs:221-233 | after a batch every key it used has a message id, so no entry stays incomplete |
| Publishing.FilledIsChosen | src/store.rs:192-218 | each key filled gets the id of a message of the batch that has the key |
| Publishing.ChosenTold | src/store.rs:221-230 | at an inserted position the caller is told the id that position got |
| Publishing.OthersTold | src/store.rs:221-236 | at any other position the caller is told the id the ledger ends with for its key |
| Storage.InsertMessagesStatement | src/storage.rs:26-41 | one insert binds at most 999 values, appends its rows with consecutive ids and returns the ids in no particular order |
| Storage.InsertMessageRows | src/storage.rs:20-46 | chunked inserts append the whole batch, and the sorted ids are those of the messages in input order |
| Store.ReserveKeys | src/store.rs:148-157 | chunked key inserts add an incomplete entry for each missing key and leave the others' ids and expiry alone |
| Store.LookUpKeys | src/store.rs:159-172 | chunked selects find the message id, or its absence, of every key |
| Store.UniqueKeys | src/store.rs:142-147 | the keys of a batch, each once |
| Store.ScheduleBatch | src/store.rs:174-190 | the loop selects the positions and messages of the plan: unkeyed ones, and the first use of each open key |
| Store.CollectUpdates | src/store.rs:197-203 | the updates pair each filled key with its own id |
| Store.FillKeys | src/store.rs:204-215 | chunked updates set the id of exactly the filled keys and keep every expiry |
| Store.PublishedIds | src/store.rs:192-196 | each inserted position maps to the id it got |
| Store.InsertIds | src/store.rs:217-219 | the local ledger holds the new id of each filled key and what it held for the others |
| Store.ReservedThenFilled | src/store.rs:148-215 | reserving and then filling leaves the ledger of the fold |
| Store.TellAll | src/store.rs:221-236 | the outcomes in input order are those of the fold, and the incomplete-entry error is never taken |
| Store.ValidateConfig | src/time.rs:5-36 | the settings are refused unless there are connections, a batch size that fits, a poll interval, and a window of at least one and at most 2^63 - 1 milliseconds |
| Store.LiteFan.OpenWithConfig | src/store.rs:47-110 | opening refuses bad settings, a newer schema version and tables without the expected columns, in that order; otherwise the handle has the file's tables, or empty ones it creates, at the current version, with its settings and signals of its own |
| Store.LiteFan.constructor | src/store.rs:101-109 | a handle over the tables it is given, unchanged, with its settings and with signals of its own |
| Store.LiteFan.PublishBatch | src/store.rs:123-245 | the set-based chunked publish equals a left fold of single publishes at one clock reading in messages, ledger, ids and outcomes, for any mix of keys, with the batch-size and overflow errors, and sends one change to exactly the live signals of the topics it inserted |
| Store.LiteFan.PublishUnkeyedBatch | src/store.rs:247-260 | without keys the batch is appended in order, the ledger is not even purged, and the live signals of its topics get one change |
| Store.PublishKeyed | src/store.rs:136-239 | the statements on sets of keys and chunks of rows, with no handle around them, have the tables, outcomes and notice of that fold |
| Store.DeleteRows | src/store.rs:299-361 | the statements of a deletion have its tables, counts, errors and notice, and a refused one leaves the tables alone |
| Store.LiteFan.DeleteConsumer | src/store.rs:296-367 | deletion by its guards, in their order, with the counts and errors of each mode; a successful one sends one change to the consumer's live signal and to no other |
| Store.CheckGuards | src/store.rs:333-352 | drained-only refuses an active consumer, then outstanding copies with their number, then archives with theirs; discarding the outstanding refuses archives only; discarding all refuses nothing |
| Store.LiteFan.PruneMessages | src/store.rs:370-410 | the bounded prune, with the zero and batch-size cases |
| Store.LiteFan.Snapshot | src/store.rs:263-293 | the snapshot of every consumer, in the order of their names, with totals that count every outstanding and every archived copy of the store exactly once, or the error that they do not fit |
| Store.ConsumersByName | src/storage.rs:102 | the rows of the snapshot query: each consumer once, names ascending |
| Ranking.SortByName | src/storage.rs:102 | ordering rows with different names by name keeps each row once and leaves the names ascending |
| Store.TotalsAre | src/store.rs:266-276 | adding the consumers' counts up counts each copy once |
| Store.ChosenTopics | src/store.rs:238-243 | the topics notified are those of the published messages, and there are none exactly when nothing was published |
| Settling.AckChunks | src/consumer.rs:220-232 | however the batch is chunked, rows and count are those of one delete, duplicates included |
| Settling.NackBatch | src/consumer.rs:253-267 | the nack loop is the fold of its statements, each within 999 values |
| Settling.ExtendBatch | src/consumer.rs:309-325 | the extend loop is the fold of its statements, each within 999 values |
| Settling.TakeChunks | src/consumer.rs:365-380 | chunked deletes return each deleted row once, with its values before the deletion |
| Settling.SortByMessage | src/consumer.rs:381 | sorting what statements returned gives the rows in message order |
| Settling.InsertArchivedLeases | src/consumer.rs:769-793 | chunked inserts archive the leases in order under consecutive ids and never meet a constraint |
| Settling.ArchiveChunks | src/consumer.rs:363-391 | archiving in chunks equals archiving the whole batch in one statement, in tables and count |
| Settling.TakeArchives | src/consumer.rs:456-473 | chunked deletes take each listed archive of the consumer once and return its message |
| Settling.RestoreChunks | src/consumer.rs:474-488 | chunked inserts put every message back at generation and count zero and never meet a constraint |
| Settling.RedriveChunks | src/consumer.rs:454-497 | redriving in chunks equals redriving the whole list at once, in tables and count |
| Leasing.CursorIsScan | src/consumer.rs:641-654 | the new cursor: the limit when fewer ids than room were found, else the last id found |
| Leasing.FetchMessages | src/consumer.rs:795-829 | chunked selects return the messages present, in id order |
| Leasing.Assemble | src/consumer.rs:670-698 | leases and messages pair up in id order, or the storage error is reported exactly when a message is missing |
| Leasing.ClaimLocked | src/consumer.rs:561-698 | the statements of the locked half together are the claim transaction |
| Claims.PreflightIsSound | src/consumer.rs:529-554 | when the lock-free read stops the claim, nothing is ready, and the time it reports is the snapshot's next ready time |
| Claims.ClaimIsExact | src/consumer.rs:582-670 | the locked half hands out min(max, ready) copies: retries by visibility time and id, then the lowest unscanned ids |
| Claims.ChoiceIsUnique | src/consumer.rs:582-606 | those rules leave no other choice |
| Claims.UndisturbedClaim | src/consumer.rs:525-734 | left alone, a whole claim returns exactly min(max, ready) deliveries, and an empty one reports the next ready time |
| Claims.DisturbedClaim | src/consumer.rs:525-734 | whatever others commit around it, a claim's deliveries are those of its locked half and it fails only for a deleted consumer or an overflowing deadline |
| Claims.ClaimReports | src/consumer.rs:529-561 | why a claim fails: a deadline that overflows when there is something to look for, or a deleted consumer; with deliveries it reports no time |
| Claims.EmptyClaimReports | src/consumer.rs:699-728 | an empty claim reports, of the state it read last, whether the consumer drains, and to come back at once if there is log past the cursor, else when the first row becomes visible |
| Claims.NothingToWaitFor | src/consumer.rs:176-178 | that it says there is nothing to wait for exactly when it last read a draining consumer with no rows and its cursor at the boundary |
| Claims.EarlyExitIsDrained | src/consumer.rs:176-178 | a poll gives up early only after a read of a draining consumer with nothing materialized and nothing left to scan |
| Claims.DrainedStays | src/consumer.rs:107-114 | that state is kept by every step but a redrive, until deletion |
| Claims.DrainedForGood | src/consumer.rs:107-114 | the same over whole runs |
| Claims.GoneForGood | src/schema.rs:24 | the id of a deleted consumer is never in use again |
| Draining.RoundIs | src/consumer.rs:213-237 | claiming and acknowledging a batch takes min(max, outstanding) copies, each once, and leaves the others untouched |
| Draining.RunAside | src/consumer.rs:107-114 | commits of other handles, reads, prunes, openings, deletions of others and publishes a consumer does not get leave its row, its deliveries and its unscanned log as they were |
| Draining.DrainingTerminates | src/consumer.rs:617-668 | with such commits between the rounds and all rows visible, exactly the first ceil(outstanding / max) rounds are nonempty, they hand out each outstanding id once, and nothing stays outstanding |
| Draining.DrainingEndsDrained | src/consumer.rs:107-114 | a draining consumer served by one worker, with publishes, prunes and other consumers' work in between, is drained after exactly that many rounds and not before |
| Draining.DrainingIsIrreversible | src/consumer.rs:107-114 | the draining time and the boundary stay as they are through any run, until deletion |
| Draining.ExhaustedForGood | src/consumer.rs:107-114 | such a consumer stays so through any run with no redrive to it, until it is deleted |
| Draining.ClaimOfDrained | src/consumer.rs:525-734 | a claim of a drained consumer finds nothing and says there is nothing to wait for, whatever others commit meanwhile short of redriving to it or deleting it |
| Backlogs.SnapshotCounts | src/storage.rs:54-102 | the snapshot counts the outstanding copies, ready plus hidden rows make them up, and the next ready time is missing exactly when all are ready |
| Backlogs.BacklogViewsAgree | src/store.rs:305-317 | what deletion decides, in every mode, is what the counts and the state the snapshot shows decide |
| Backlogs.DeletionIsDecided | src/store.rs:296-367 | a deletion succeeds exactly when its mode allows what is outstanding and archived, with those two counts, and otherwise gives the first reason against it with its count and changes nothing |
| Backlogs.NobodyToDelete | src/store.rs:296-317 | deleting a name no consumer has fails as not found and changes nothing |
| Backlogs.SnapshotShows | src/storage.rs:107-133 | a snapshot shows the name, filter, creation time and draining time of the consumer's row, and fails exactly when it is deleted |
| Lifecycles.OpeningIsDecided | src/consumer.rs:42-79 | opening makes a consumer with the given name, filter and time for a name nobody has, finds the one that has it if the filter is the same, and fails for another filter or no name, changing nothing |
| Lifecycles.IdentityStays | src/schema.rs:24-30 | through any run a consumer keeps its name, filter and creation time for as long as it lives |
| Lifecycles.SnapshotsShowTheOpening | src/storage.rs:107-133 | every later snapshot of a consumer opened under a new name shows that name, that filter and that time |
| Lifecycles.DrainingIsDecided | src/consumer.rs:105-138 | draining begins once and for live consumers only, records the given time and leaves what is unscanned as it was |
| Lifecycles.SnapshotsShowTheDraining | src/storage.rs:107-133 | every later snapshot shows the time draining began |
| Backlogs.OldestOutstanding | src/storage.rs:85-96 | the oldest outstanding time is the earliest publish time among the outstanding copies, and missing exactly when there are none |
| Backlogs.PruningSparesTheOutstanding | src/store.rs:377-401 | a message is prunable exactly when it is old, outstanding for no consumer and in no archive |
| Identity.HandlesAreSeparate | src/consumer.rs:213-237 | an operation through one handle changes no row, cursor, archive or configuration of another consumer |
| Identity.ForeignReceiptsMissed | src/storage.rs:152-168 | another consumer's receipts in a batch make no difference to the rows it hits |
| Identity.DeadHandleIsInert | src/consumer.rs:525-547 | no operation through the handle of a deleted consumer changes anything |
| Identity.OldHandlesReachNothing | src/consumer.rs:48-64 | such operations can be dropped from any later run without changing the state it reaches |
| Identity.DrainedOnlyDiscardsNothing | src/store.rs:333-352 | drained-only deletion removes the consumer row and no delivery or archive |
| Identity.ReplacementIsNew | src/schema.rs:24 | reopening a deleted name gives an id no earlier consumer had |
| Archives.ArchivedWithDetail | src/consumer.rs:769-793 | each archived copy keeps its attempt count and generation, with the caller's time and detail, under a new id |
| Archives.ArchivedInOrder | src/consumer.rs:381-382 | archive ids follow message order |
| Archives.ArchiveReports | src/consumer.rs:353-391 | archiving moves exactly the rows the batch holds receipts for and reports as many as it moved |
| Archives.RedriveReports | src/consumer.rs:445-497 | redriving takes exactly the listed archives of the consumer, reports as many as it took, and puts each copy back at generation and count zero, visible at the given time |
| Archives.PageIsExact | src/consumer.rs:394-435 | a page holds the lowest archives after its cursor, as many as fit, in id order, each entry with the row's message, count, time and detail |
| Archives.ArchivedIsListed | src/consumer.rs:394-435 | an archived copy is listed with the log's message, the attempts its lease had counted, and the caller's time and detail |
| Archives.PagesListEverything | src/consumer.rs:394-435 | page after page lists every archive of the consumer once in id order, for every page size |
| Archives.PurgeIsExact | src/consumer.rs:500-523 | a purge deletes the min(limit, eligible) lowest old archives of the consumer and nothing else |
| Contents.StoredAsPublished | src/storage.rs:26-41 | a published message is in the log with its topic, body and publish time under the id reported |
| Contents.DeliveredAsPublished | src/consumer.rs:686-698 | whoever is handed an id in any later state is handed what was published under it |
| Consumers.InsertThenFind | src/consumer.rs:48-68 | insert-or-ignore and a look-up open the existing consumer, a new one at the end of the log, or report another filter |
| Consumers.Consumer.Open | src/consumer.rs:42-79 | opening by those statements, with the empty-name error and nothing changed on failure; the handle gets the live signals of its filter and its consumer, and earlier handles keep theirs |
| Consumers.Consumer.BeginDraining | src/consumer.rs:105-138 | draining by its guarded update, one change to the handle's signal when it happened; otherwise a second read, after whatever others have committed since, tells a deleted consumer from a draining one |
| Consumers.Consumer.Drop | src/consumer.rs:83-91 | a handle that goes away gives up its hold on its signals, and the registries still hold every live one |
| Consumers.Consumer.NotifyOwn | src/consumer.rs:123 | notifying the handle's own signal sends one change to the live signal of the consumer, and no other signal moves |
| Consumers.Consumer.AckBatch | src/consumer.rs:213-237 | the acknowledged state and tally, with the batch-size error |
| Consumers.Consumer.NackBatch | src/consumer.rs:245-276 | the released state and tally; the handle's signal gets one change exactly when a row was released |
| Consumers.Consumer.ExtendVisibilityBatch | src/consumer.rs:295-331 | the extended state and tally, with the zero-timeout and overflow errors |
| Consumers.Consumer.ArchiveBatchWithDetail | src/consumer.rs:353-391 | the archived state and tally, never refused; the handle's signal gets one change exactly when a copy moved |
| Consumers.Consumer.RedriveBatch | src/consumer.rs:445-497 | the redriven state and tally, never refused; the handle's signal gets one change exactly when a copy moved |
| Consumers.Consumer.PurgeArchives | src/consumer.rs:500-523 | the purged state and count, with the zero and batch-size cases |
| Consumers.Consumer.Claim | src/consumer.rs:525-734 | preflight, locked half and last read, with others' commits and notices between them, as the events of the wakeup protocol |
| Consumers.Consumer.MarkAndClaim | src/consumer.rs:169-172 | a turn marks both receivers as seen and then claims: the receivers end at the versions their signals had before the claim read anything |
| Consumers.Consumer.PollWith | src/consumer.rs:169-204 | the loop on its two receivers: tables, signals, receivers and notices still owed end as the wakeup protocol does after the marks, reads, commits and wakes of the poll, and each sleep is exactly the one given by the interval, the rest of the wait and the time its claim reported |
| Consumers.Consumer.Poll | src/consumer.rs:153-205 | the argument errors, then receivers subscribed to the handle's signals and that loop, until the wait is over |
| Polling.ClaimActs | src/consumer.rs:169-183 | what a claim does to the tables is what its events do, and an empty claim ends with the read it answers from |
| Polling.PollSleepsThroughNothing | src/consumer.rs:166-203 | whenever a poll sleeps, whatever others have done, news since the state its claim last looked for work in (its transaction, if it got that far, and not only the read after it) is still to be announced to it or has marked a receiver changed; if another process has committed since, news since that |
| Polling.ForeignWakesNobody | src/consumer.rs:185-202 | a commit of another process neither owes the poll a notice nor changes a receiver |
| Polling.PollReturns | src/consumer.rs:169-204 | a poll returns the deliveries of one locked claim, or nothing after reading a drained consumer or at the end of its wait |
| Polling.PollEndsExactly | src/consumer.rs:169-204 | a poll ends in the first turn whose claim delivers, fails or last reads an exhausted consumer, or with which the wait is over, answers what that claim did, and sleeps in every turn before for exactly the least of interval, rest of the wait and time reported |
| Polling.DrainedPollReturnsAtOnce | src/consumer.rs:176-178 | a poll of a drained consumer returns in its first turn, with nothing and without a sleep, however long its wait and whatever others commit short of redriving; deleted under it, it says so |
| Polling.QuietDrainedPoll | src/consumer.rs:176-178 | with nobody else about it returns the empty list at once |
| Time.AddDurationIsExact | src/time.rs:45-53 | deadlines are moved on by whole milliseconds, or refused exactly when they do not fit |
| Time.UntilIsExact | src/time.rs:55-58 | the time until a deadline is right exactly when it has not passed, and at least 2^63 ms otherwise |
| Time.SleepIsBounded | src/consumer.rs:185-189 | a sleep never outlasts the interval or the rest of the wait |
| Time.SleepsUntilVisible | src/consumer.rs:185-189 | a sleeper is up by the next visibility deadline exactly when that deadline had not passed or there was nothing to sleep for, and then sleeps the least of the three bounds |
| Signals.Registry.SignalForKey | src/signals.rs:85-96 | the live signal of a key is shared, a dead one is replaced, and the registry always holds the live one |
| Signals.Registry.NotifyKey | src/signals.rs:75-82 | the live signal of the key is sent one change, no other is, and a dead entry is dropped |
| Signals.Hub.PublishesFor | src/signals.rs:50-55 | a handle listens to the all-topics signal or to its topic's live one |
| Signals.Hub.ConsumerSignal | src/signals.rs:57-59 | a handle listens to the live signal of its consumer id |
| Signals.Hub.NotifyPublishes | src/signals.rs:61-73 | the all-topics signal and each live signal of a published topic are sent exactly one change, repeated and null topics included |
| Signals.Hub.NotifyConsumer | src/signals.rs:75-82 | the live signal of that consumer and no other is sent one change |
| Signals.DistinctTopics | src/signals.rs:64 | the topics of a publish without null and without repetition |
| Notifying.Send | src/signals.rs:61-83 | sending a notice moves a handle's two live signals exactly when the protocol says the notice reaches it |
| Wakeups.NewMessageIsPublished | src/store.rs:238-243 | a message new to the log was published at some position, with that position's topic |
| Wakeups.WorkIsAnnounced | src/consumer.rs:269-271 | whatever a step makes claimable for a surviving consumer, at any clock reading, is announced to one of its two signals |
| Wakeups.AnnouncedExactly | src/store.rs:238-243 | publishes announce the topics of what they published, nacks, archives, redrives, drains and deletions announce their consumer, each exactly when it did something, and nothing else announces anything |
| Wakeups.StateChangesAreAnnounced | src/consumer.rs:122-125 | the beginning of draining and the deletion of a consumer are announced to it |
| Wakeups.NoLostWakeup | src/consumer.rs:166-203 | however commits, notices and the poller's steps interleave: if a copy is ready, or draining has begun, or the consumer is gone, that was not so in some state the tables have been in since the marks (and since another process last committed), a notice that reaches the poller is still to come or its receiver is marked changed |
| Wakeups.ExhaustionIsAnnounced | src/consumer.rs:176-178 | reaching the drained state is announced to the consumer if and only if it is not one of its acknowledgements that reaches it |
| Wakeups.AckWakesNobody | src/consumer.rs:213-237 | an acknowledgement leaves a poller's notices to come and its receivers as they were |
| Witnesses.AnAckDrainsSilently | src/consumer.rs:213-237 | a run from the empty store whose last acknowledgement leaves the consumer drained, and a poll that fell asleep before it asleep, with nothing to come and nothing changed |
| Witnesses.AnExtensionCountsTwice | src/consumer.rs:311-330 | extending one delivery in a batch of 333 receipts reports at least two as applied where one statement would report one row |
| Witnesses.APassedDeadlineIsSleptOn | src/consumer.rs:185-189 | a deadline one millisecond past is slept on for the whole interval, and one a millisecond ahead for that millisecond |
| Wakeups.PollStarts | src/consumer.rs:166-167 | subscribing establishes the protocol's invariant |
| Wakeups.ReadingFirstLosesWakeups | src/consumer.rs:170-172 | with the marks taken after the read a publish between the two would be slept through |

## Left out

- SQLite itself, the pool, WAL and busy timeouts: transactions are atomic and serializable, reads are consistent snapshots.
- SQL text, row decoding, error messages, plain getters, builders and the settings handed to SQLite.
- Real sleeping and scheduling: a poll is given the clock readings, the rest of its wait and the commits and notices of others turn by turn, and a sleep is only its bound.
- Generations, counts and ids past the 64-bit range, and the wrap-around of a signal's 64-bit counter.
- The AUTOINCREMENT gap an ignored insert may leave: a new consumer's id is the next one, though only that it is new is used.
- The `Instant` overflow of a poll's wait, the conversions from `usize` to `i64`, and clocks before the Unix epoch.
- `Consumer.snapshot` and `Consumer.archives` as methods: one query each, whose results `Backlogs.SnapshotCounts` and `Archives.PagesListEverything` are about.
- Store.LiteFan.OpenWithConfig: a file's tables are this schema's, missing, or without the columns it probes; creating some tables beside existing ones, and the text of a refusal, are not modelled.
- Leasing.ClaimLocked: commits before it checks that every delivery has its message, as the program does; the check cannot fail.
- Signals.Registry.NotifyKey: the weak reference is an owner count kept with the signal, so the moment between upgrading and sending is one step.
