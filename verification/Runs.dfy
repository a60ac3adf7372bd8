/**
 Runs: any interleaving of committed transactions, issued by any number of workers.

 Every operation carries its own clock readings, so nothing is assumed about the order of
 the readings of two workers, and a worker that read the clock long before its transaction
 committed is covered.
 */
module Runs {
  import opened Prelude
  import opened Schema
  import opened Transactions

  datatype Op =
    | OpenOp(name: string, filter: Option<string>, now: int)
    | DrainOp(cid: nat, now: int)
    | PublishOp(batch: seq<Publish>, now: int, window: int)
    | ClaimOp(cid: nat, max: nat, now: int, lease: int)
    | AckOp(cid: nat, receipts: seq<Receipt>)
    | NackOp(cid: nat, receipts: seq<Receipt>, visibleAt: int)
    | ExtendOp(cid: nat, receipts: seq<Receipt>, visibleAt: int)
    | ArchiveOp(cid: nat, receipts: seq<Receipt>, archivedAt: int, detail: Option<string>)
    | RedriveOp(cid: nat, archiveIds: seq<nat>, visibleAt: int)
    | PurgeOp(cid: nat, before: int, limit: nat)
    | ListOp(cid: nat, after: nat, limit: nat)
    | SnapshotOp(cid: nat, now: int)
    | DeleteOp(name: string, mode: DeleteMode)
    | PruneOp(before: int, limit: nat)

  datatype Outcome =
    | Opened(consumer: Result<nat>)
    | Drained(changed: Result<bool>)
    | PublishedAll(outcomes: seq<PublishOutcome>)
    | Claimed(deliveries: Result<seq<Delivery>>)
    | Settled(settled: BatchResult)
    | Moved(moved: Result<BatchResult>)
    | Purged(purged: nat)
    | Listed(page: seq<ArchivedDelivery>)
    | Viewed(snapshot: Result<ConsumerSnapshot>)
    | Deleted(deleted: Result<DeleteOutcome>)
    | Pruned(pruned: Result<nat>)

  /** Operations that never look at how far a consumer has scanned the log. */
  predicate OnCore(op: Op) {
    op.AckOp? || op.NackOp? || op.ExtendOp? || op.ArchiveOp? || op.RedriveOp? || op.PurgeOp? || op.ListOp?
  }

  function CoreStep(core: Core, op: Op): (Core, Outcome)
    requires OnCore(op)
  {
    match op
    case AckOp(cid, receipts) =>
      var (after, r) := Ack(core, cid, receipts); (after, Settled(r))
    case NackOp(cid, receipts, visibleAt) =>
      var (after, r) := Nack(core, cid, receipts, visibleAt); (after, Settled(r))
    case ExtendOp(cid, receipts, visibleAt) =>
      var (after, r) := Extend(core, cid, receipts, visibleAt); (after, Settled(r))
    case ArchiveOp(cid, receipts, archivedAt, detail) =>
      var (after, r) := Archive(core, cid, receipts, archivedAt, detail); (after, Moved(r))
    case RedriveOp(cid, archiveIds, visibleAt) =>
      var (after, r) := Redrive(core, cid, archiveIds, visibleAt); (after, Moved(r))
    case PurgeOp(cid, before, limit) =>
      var (after, n) := PurgeArchives(core, cid, before, limit); (after, Purged(n))
    case ListOp(cid, after, limit) =>
      (core, Listed(ListArchives(core, cid, after, limit)))
  }

  function Step(db: Db, op: Op): (Db, Outcome) {
    match op
    case OpenOp(name, filter, now) =>
      var (after, r) := OpenConsumer(db, name, filter, now); (after, Opened(r))
    case DrainOp(cid, now) =>
      var (after, r) := BeginDraining(db, cid, now); (after, Drained(r))
    case PublishOp(batch, now, window) =>
      var (core, r) := PublishAll(db.core, batch, now, window); (Db(core, db.cursors), PublishedAll(r))
    case ClaimOp(cid, max, now, lease) =>
      var (after, r) := Claim(db, cid, max, now, now + lease); (after, Claimed(r))
    case SnapshotOp(cid, now) =>
      (db, Viewed(Snapshot(db, cid, now)))
    case DeleteOp(name, mode) =>
      var (after, r) := DeleteConsumer(db, name, mode); (after, Deleted(r))
    case PruneOp(before, limit) =>
      var (after, r) := PruneMessages(db, before, limit); (after, Pruned(r))
    case _ =>
      var (core, r) := CoreStep(db.core, op); (Db(core, db.cursors), r)
  }

  /** A core operation leaves the cursors alone. */
  lemma StepOnCore(db: Db, op: Op)
    requires OnCore(op)
    ensures Step(db, op) == (Db(CoreStep(db.core, op).0, db.cursors), CoreStep(db.core, op).1)
  {
    hide CoreStep;
  }

  function Run(db: Db, ops: seq<Op>): Db
    decreases |ops|
  {
    if ops == [] then db else Run(Step(db, ops[0]).0, ops[1..])
  }

  function Outcomes(db: Db, ops: seq<Op>): (outcomes: seq<Outcome>)
    ensures |outcomes| == |ops|
    decreases |ops|
  {
    if ops == [] then [] else [Step(db, ops[0]).1] + Outcomes(Step(db, ops[0]).0, ops[1..])
  }
}
