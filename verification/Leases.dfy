/**
 Leases and receipts over whole runs: which receipts are honoured, when a lease can be
 taken over, and in what order a consumer first meets the log.
 */
module Leases {
  import opened Prelude
  import opened Ranking
  import opened Schema
  import opened Transactions
  import opened Receipts
  import opened Runs
  import opened Invariants
  import opened Conservation

  /** The step re-leases, releases or settles the copy, or deletes its consumer. */
  predicate Touches(db: Db, op: Op, s: Slot) {
    match op
    case AckOp(cid, receipts) => s in Hit(db.core.deliveries, cid, receipts)
    case NackOp(cid, receipts, _) => s in Hit(db.core.deliveries, cid, receipts)
    case ArchiveOp(cid, receipts, _, _) => s in Hit(db.core.deliveries, cid, receipts)
    case ClaimOp(cid, max, now, _) =>
      cid == s.consumer && cid in db.core.consumers && s.message in Retries(db.core, cid, max, now)
    case DeleteOp(name, mode) =>
      FindConsumer(db.core, name) == Some(s.consumer) && DeleteConsumer(db, name, mode).1.Ok?
    case _ => false
  }

  /** The step puts the archived copy back. */
  predicate Redrives(db: Db, op: Op, s: Slot) {
    op.RedriveOp? && s in SlotsOf(db.core, Redriven(db.core, op.cid, op.archiveIds))
  }

  function ExtendedTo(db: Db, op: Op, s: Slot, deadline: int): int {
    if op.ExtendOp? && s in Hit(db.core.deliveries, op.cid, op.receipts) then Max(deadline, op.visibleAt) else deadline
  }

  /** What a step may do to a live row it does not touch: only an extension, and only forwards. */
  ghost predicate RowSteady(db: Db, op: Op, after: map<Slot, Lease>, s: Slot)
    requires s in db.core.deliveries
  {
    && s in after
    && after[s].generation == db.core.deliveries[s].generation
    && after[s].deliveryCount == db.core.deliveries[s].deliveryCount
    && after[s].visibleAt == ExtendedTo(db, op, s, db.core.deliveries[s].visibleAt)
  }

  /** What a step does to a row it touches. */
  ghost predicate RowMoved(db: Db, op: Op, after: map<Slot, Lease>, s: Slot)
    requires s in db.core.deliveries
  {
    if op.AckOp? || op.ArchiveOp? || op.DeleteOp? then s !in after
    else
      && s in after
      && after[s].generation > db.core.deliveries[s].generation
      && (op.ClaimOp? ==> after[s] == Bump(db.core.deliveries[s], op.now + op.lease))
      && (op.NackOp? ==> after[s].visibleAt == op.visibleAt && after[s].deliveryCount == db.core.deliveries[s].deliveryCount)
  }

  ghost predicate RowEffect(db: Db, op: Op, after: map<Slot, Lease>, s: Slot)
    requires s in db.core.deliveries
  {
    if Touches(db, op, s) then RowMoved(db, op, after, s) else RowSteady(db, op, after, s)
  }

  lemma ReceiptRow(db: Db, op: Op, s: Slot)
    requires CoreOk(db.core) && s in db.core.deliveries && OnCore(op)
    ensures RowEffect(db, op, CoreStep(db.core, op).0.deliveries, s)
  {
    hide Hit, NackChunks, ExtendChunks, Archive, Redrive, PurgeArchives, ListArchives, CoreOk;
    if op.NackOp? {
      NackChunksEffect(db.core.deliveries, op.cid, op.receipts, op.visibleAt, RECEIPTS_PER_CHUNK);
    } else if op.ExtendOp? {
      ExtendRowsIgnoreChunks(db.core.deliveries, op.cid, op.receipts, op.visibleAt, RECEIPTS_PER_CHUNK);
    } else if op.ArchiveOp? {
      ArchiveRows(db.core, op.cid, op.receipts, op.archivedAt, op.detail);
    } else if op.RedriveOp? {
      RedriveRows(db.core, op.cid, op.archiveIds, op.visibleAt);
    } else if op.PurgeOp? {
      PurgeRows(db.core, op.cid, op.before, op.limit);
    }
  }

  lemma ArchiveRows(core: Core, cid: nat, receipts: seq<Receipt>, archivedAt: int, detail: Option<string>)
    requires CoreOk(core)
    ensures Archive(core, cid, receipts, archivedAt, detail).0.deliveries == core.deliveries - Hit(core.deliveries, cid, receipts)
  {
    hide CoreOk, Hit, MessagesOf, Sorted, NextIds;
    ArchiveAllowed(core, cid, receipts);
  }

  lemma RedriveRows(core: Core, cid: nat, archiveIds: seq<nat>, visibleAt: int)
    requires CoreOk(core)
    ensures var slots := SlotsOf(core, Redriven(core, cid, archiveIds));
      && (forall s | s in slots :: s !in core.deliveries)
      && Redrive(core, cid, archiveIds, visibleAt).0.deliveries == core.deliveries + (map s | s in slots :: Lease(visibleAt, 0, 0))
  {
    hide CoreOk, SlotsOf;
    RedriveKept(core, cid, archiveIds, visibleAt);
    CoreArchivesOk(core);
    ArchivesRemoved(core, Redriven(core, cid, archiveIds));
  }

  lemma PurgeRows(core: Core, cid: nat, before: int, limit: nat)
    ensures PurgeArchives(core, cid, before, limit).0.deliveries == core.deliveries
  {
  }

  lemma ClaimRow(db: Db, op: Op, s: Slot)
    requires Wf(db) && s in db.core.deliveries && op.ClaimOp?
    ensures RowEffect(db, op, Claim(db, op.cid, op.max, op.now, op.now + op.lease).0.core.deliveries, s)
  {
    hide Wf, Claim, Retries, Scan;
    if op.cid in db.core.consumers {
      var retries, taken, scan := ClaimIs(db, op.cid, op.max, op.now, op.now + op.lease);
    } else {
      ClaimDeleted(db, op.cid, op.max, op.now, op.now + op.lease);
    }
  }

  lemma ClaimDeleted(db: Db, cid: nat, max: nat, now: int, deadline: int)
    requires cid !in db.core.consumers
    ensures Claim(db, cid, max, now, deadline) == (db, Err(ConsumerDeleted))
  {
  }

  lemma DeleteRow(db: Db, op: Op, s: Slot)
    requires Wf(db) && s in db.core.deliveries && op.DeleteOp?
    ensures RowEffect(db, op, DeleteConsumer(db, op.name, op.mode).0.core.deliveries, s)
  {
    hide Wf, FindConsumer, Inbox, ArchivesOf, Unseen;
  }

  lemma LogRow(db: Db, op: Op, s: Slot)
    requires Wf(db) && s in db.core.deliveries && !OnCore(op)
    ensures RowEffect(db, op, Step(db, op).0.core.deliveries, s)
  {
    hide Wf, OpenConsumer, BeginDraining, PublishAll, Claim, Snapshot, DeleteConsumer, PruneMessages, RowEffect;
    if op.ClaimOp? {
      ClaimRow(db, op, s);
    } else if op.DeleteOp? {
      DeleteRow(db, op, s);
    } else {
      SameRows(db, op);
      SteadyRow(db, op, s);
    }
  }

  lemma SteadyRow(db: Db, op: Op, s: Slot)
    requires s in db.core.deliveries && !OnCore(op) && !op.ClaimOp? && !op.DeleteOp?
    ensures RowEffect(db, op, db.core.deliveries, s)
  {
  }

  lemma SameRows(db: Db, op: Op)
    requires Wf(db) && !OnCore(op) && !op.ClaimOp? && !op.DeleteOp?
    ensures Step(db, op).0.core.deliveries == db.core.deliveries
    ensures Step(db, op).0.core.archives == db.core.archives
  {
    hide Wf, FindConsumer, HighWater, PublishAll, Snapshot, Prunable, DropMessages, Lowest;
    if op.PublishOp? {
      PublishedRows(db, op.batch, op.now, op.window);
    } else if op.PruneOp? {
      PrunedRows(db, op.before, op.limit);
    }
  }

  lemma PublishedRows(db: Db, batch: seq<Publish>, now: int, window: int)
    requires Wf(db)
    ensures Appended(db.core, PublishAll(db.core, batch, now, window).0)
  {
    hide PublishAll, Appended;
    PublishAllAppends(db.core, batch, now, window);
  }

  lemma PrunedRows(db: Db, before: int, limit: nat)
    requires Wf(db)
    ensures DropMessages(db.core, Lowest(Prunable(db, before), limit)).0 == db.core.(messages := db.core.messages - Lowest(Prunable(db, before), limit))
  {
    hide DropMessages, Lowest, CoreOk;
    DropKept(db.core, Lowest(Prunable(db, before), limit));
  }

  /** One step and one live row. */
  lemma StepRow(db: Db, op: Op, s: Slot)
    requires Wf(db) && s in db.core.deliveries
    ensures RowEffect(db, op, Step(db, op).0.core.deliveries, s)
  {
    hide Step, CoreStep, RowEffect, Wf;
    if OnCore(op) {
      WfCore(db);
      ReceiptRow(db, op, s);
      StepOnCore(db, op);
    } else {
      LogRow(db, op, s);
    }
  }

  lemma WfCore(db: Db)
    requires Wf(db)
    ensures CoreOk(db.core)
  {
  }

  // ---- Copies that are not live ---------------------------------------------------------

  /** The consumer's scan is past the message (or the consumer is gone for good). */
  ghost predicate Passed(db: Db, s: Slot) {
    && s.consumer <= db.core.consumerSeq
    && (s.consumer in db.core.consumers ==> s.consumer in db.cursors && s.message <= db.cursors[s.consumer].scan)
  }

  lemma LivePassed(db: Db, s: Slot)
    requires Wf(db) && s in db.core.deliveries
    ensures Passed(db, s)
  {
    assert SlotOk(db.core, s);
  }

  /** Consumer ids are never handed out again, and a surviving consumer's cursor never moves back. */
  ghost predicate Onward(before: Db, after: Db) {
    && before.core.consumerSeq <= after.core.consumerSeq
    && after.cursors.Keys == after.core.consumers.Keys
    && (forall c | c in after.core.consumers && c !in before.core.consumers :: before.core.consumerSeq < c)
    && (forall c | c in after.cursors && c in before.cursors :: before.cursors[c].scan <= after.cursors[c].scan)
  }

  lemma ClaimOnward(db: Db, cid: nat, max: nat, now: int, deadline: int)
    requires Wf(db)
    ensures Onward(db, Claim(db, cid, max, now, deadline).0)
  {
    hide Wf, Claim, Scan, Retries, LeaseRows;
    CursorKeys(db);
    if cid in db.core.consumers {
      var retries, taken, scan := ClaimIs(db, cid, max, now, deadline);
    } else {
      ClaimDeleted(db, cid, max, now, deadline);
    }
  }

  lemma StepOnward(db: Db, op: Op)
    requires Wf(db)
    ensures Onward(db, Step(db, op).0)
  {
    hide Wf, Step, CoreStep, Onward;
    CursorKeys(db);
    StepKept(db, op);
    CursorKeys(Step(db, op).0);
    if OnCore(op) {
      WfCore(db);
      CoreStepKept(db.core, op);
      StepOnCore(db, op);
      CoreOnward(db, CoreStep(db.core, op).0);
    } else {
      LogOnward(db, op);
    }
  }

  lemma CoreOnward(db: Db, core: Core)
    requires SameLog(db.core, core) && db.cursors.Keys == db.core.consumers.Keys
    ensures Onward(db, Db(core, db.cursors))
  {
  }

  lemma LogOnward(db: Db, op: Op)
    requires Wf(db) && !OnCore(op)
    ensures Onward(db, Step(db, op).0)
  {
    hide Wf, Claim, PublishAll, Snapshot, PruneMessages, DeleteConsumer, OpenConsumer, BeginDraining, Onward;
    if op.ClaimOp? {
      ClaimOnward(db, op.cid, op.max, op.now, op.now + op.lease);
    } else if op.PublishOp? {
      PublishedOnward(db, op.batch, op.now, op.window);
    } else if op.PruneOp? {
      PrunedOnward(db, op.before, op.limit);
    } else if op.OpenOp? {
      OpenOnward(db, op.name, op.filter, op.now);
    } else if op.DeleteOp? {
      DeleteOnward(db, op.name, op.mode);
    } else if op.DrainOp? {
      DrainOnward(db, op.cid, op.now);
    } else {
      NothingOnward(db);
    }
  }

  lemma NothingOnward(db: Db)
    requires Wf(db)
    ensures Onward(db, db)
  {
  }

  lemma PrunedOnward(db: Db, before: int, limit: nat)
    requires Wf(db)
    ensures Onward(db, PruneMessages(db, before, limit).0)
  {
    hide Wf, DropMessages, Prunable, Lowest;
    CursorKeys(db);
    PrunedRows(db, before, limit);
  }

  lemma OpenOnward(db: Db, name: string, filter: Option<string>, now: int)
    requires Wf(db)
    ensures Onward(db, OpenConsumer(db, name, filter, now).0)
  {
    hide Wf, FindConsumer, HighWater;
    CursorKeys(db);
    ConsumersBounded(db);
  }

  lemma ConsumersBounded(db: Db)
    requires Wf(db)
    ensures forall c | c in db.core.consumers :: c <= db.core.consumerSeq
  {
  }

  lemma DeleteOnward(db: Db, name: string, mode: DeleteMode)
    requires Wf(db)
    ensures Onward(db, DeleteConsumer(db, name, mode).0)
  {
    hide Wf, FindConsumer, Inbox, ArchivesOf, Unseen;
    CursorKeys(db);
  }

  lemma DrainOnward(db: Db, cid: nat, now: int)
    requires Wf(db)
    ensures Onward(db, BeginDraining(db, cid, now).0)
  {
    hide Wf, HighWater;
    CursorKeys(db);
  }

  lemma PublishedOnward(db: Db, batch: seq<Publish>, now: int, window: int)
    requires Wf(db)
    ensures Onward(db, Db(PublishAll(db.core, batch, now, window).0, db.cursors))
  {
    hide Wf, PublishAll;
    CursorKeys(db);
    PublishedRows(db, batch, now, window);
  }

  lemma OnwardPassed(before: Db, after: Db, s: Slot)
    requires Wf(before) && Onward(before, after) && Passed(before, s)
    ensures Passed(after, s)
  {
    hide CoreOk, BelowCursor;
  }

  /** A copy that is not live comes back by a redrive and in no other way. */
  lemma StepAbsent(db: Db, op: Op, s: Slot)
    requires Wf(db) && Passed(db, s) && s !in db.core.deliveries
    ensures s in Step(db, op).0.core.deliveries <==> Redrives(db, op, s)
  {
    hide Step, CoreStep, Wf, Passed;
    if OnCore(op) {
      WfCore(db);
      ReceiptAbsent(db, op, s);
      StepOnCore(db, op);
    } else {
      LogAbsent(db, op, s);
    }
  }

  lemma ReceiptAbsent(db: Db, op: Op, s: Slot)
    requires CoreOk(db.core) && s !in db.core.deliveries && OnCore(op)
    ensures s in CoreStep(db.core, op).0.deliveries <==> Redrives(db, op, s)
  {
    hide Hit, NackChunks, ExtendChunks, Archive, Redrive, PurgeArchives, ListArchives, CoreOk, SlotsOf;
    if op.NackOp? || op.ExtendOp? {
      RowsKept(db.core, op);
    } else if op.ArchiveOp? {
      ArchiveRows(db.core, op.cid, op.receipts, op.archivedAt, op.detail);
    } else if op.RedriveOp? {
      RedriveRows(db.core, op.cid, op.archiveIds, op.visibleAt);
    } else if op.PurgeOp? {
      PurgeRows(db.core, op.cid, op.before, op.limit);
    }
  }

  lemma LogAbsent(db: Db, op: Op, s: Slot)
    requires Wf(db) && Passed(db, s) && s !in db.core.deliveries && !OnCore(op)
    ensures s !in Step(db, op).0.core.deliveries
  {
    hide Wf, Claim, DeleteConsumer, OpenConsumer, BeginDraining, PublishAll, Snapshot, PruneMessages, Passed;
    if op.ClaimOp? {
      ClaimAbsent(db, op.cid, op.max, op.now, op.now + op.lease, s);
    } else if op.DeleteOp? {
      DeleteAbsent(db, op.name, op.mode, s);
    } else {
      SameRows(db, op);
    }
  }

  lemma ClaimAbsent(db: Db, cid: nat, max: nat, now: int, deadline: int, s: Slot)
    requires Wf(db) && Passed(db, s) && s !in db.core.deliveries
    ensures s !in Claim(db, cid, max, now, deadline).0.core.deliveries
  {
    hide Wf, Claim, Retries, Scan;
    if cid in db.core.consumers {
      var retries, taken, scan := ClaimIs(db, cid, max, now, deadline);
    } else {
      ClaimDeleted(db, cid, max, now, deadline);
    }
  }

  lemma DeleteAbsent(db: Db, name: string, mode: DeleteMode, s: Slot)
    requires s !in db.core.deliveries
    ensures s !in DeleteConsumer(db, name, mode).0.core.deliveries
  {
    hide FindConsumer, Inbox, ArchivesOf, Unseen;
  }

  // ---- Fencing --------------------------------------------------------------------------

  /** The receipt is the one the copy would be settled with now. */
  predicate Honoured(db: Db, r: Receipt) {
    Slot(r.consumer, r.message) in db.core.deliveries && ReceiptFor(db.core.deliveries, Slot(r.consumer, r.message)) == r
  }

  function SlotOf(r: Receipt): Slot {
    Slot(r.consumer, r.message)
  }

  predicate Untouched(db: Db, ops: seq<Op>, s: Slot)
    decreases |ops|
  {
    ops == [] || (!Touches(db, ops[0], s) && Untouched(Step(db, ops[0]).0, ops[1..], s))
  }

  predicate EverRedriven(db: Db, ops: seq<Op>, s: Slot)
    decreases |ops|
  {
    ops != [] && (Redrives(db, ops[0], s) || EverRedriven(Step(db, ops[0]).0, ops[1..], s))
  }

  /** The copy has moved past the receipt's generation and can only come back by a redrive. */
  ghost predicate Stale(db: Db, r: Receipt) {
    Passed(db, SlotOf(r)) && (SlotOf(r) in db.core.deliveries ==> db.core.deliveries[SlotOf(r)].generation > r.generation)
  }

  lemma StepHonoured(db: Db, op: Op, r: Receipt)
    requires Wf(db) && Honoured(db, r)
    ensures !Touches(db, op, SlotOf(r)) ==> Honoured(Step(db, op).0, r)
    ensures Touches(db, op, SlotOf(r)) ==> Stale(Step(db, op).0, r)
  {
    hide Wf, Step, Passed, Touches, Onward;
    LivePassed(db, SlotOf(r));
    StepOnward(db, op);
    OnwardPassed(db, Step(db, op).0, SlotOf(r));
    StepRow(db, op, SlotOf(r));
  }

  lemma StepStale(db: Db, op: Op, r: Receipt)
    requires Wf(db) && Stale(db, r) && !Redrives(db, op, SlotOf(r))
    ensures Stale(Step(db, op).0, r)
  {
    hide Wf, Step, Passed, Touches, Onward, Redrives;
    StepOnward(db, op);
    OnwardPassed(db, Step(db, op).0, SlotOf(r));
    if SlotOf(r) in db.core.deliveries {
      StepRow(db, op, SlotOf(r));
    } else {
      StepAbsent(db, op, SlotOf(r));
    }
  }

  lemma {:induction false} StaleStays(db: Db, ops: seq<Op>, r: Receipt)
    requires Wf(db) && Stale(db, r) && !EverRedriven(db, ops, SlotOf(r))
    ensures Stale(Run(db, ops), r)
    decreases |ops|
  {
    hide Wf, Step, Stale, Redrives;
    if ops != [] {
      StepStale(db, ops[0], r);
      StepKept(db, ops[0]);
      StaleStays(Step(db, ops[0]).0, ops[1..], r);
    }
  }

  /**
   Fencing. A receipt honoured now stays honoured while nobody re-leases, nacks, settles or
   archives the copy or deletes its consumer; and unless the copy is redriven, it is honoured
   after a run in no other case.
   */
  lemma {:induction false} ReceiptFencing(db: Db, ops: seq<Op>, r: Receipt)
    requires Wf(db) && Honoured(db, r)
    ensures Untouched(db, ops, SlotOf(r)) ==> Honoured(Run(db, ops), r)
    ensures !EverRedriven(db, ops, SlotOf(r)) ==> (Honoured(Run(db, ops), r) <==> Untouched(db, ops, SlotOf(r)))
    decreases |ops|
  {
    hide Wf, Step, Honoured, Touches, Redrives, Stale;
    if ops != [] {
      var next := Step(db, ops[0]).0;
      StepHonoured(db, ops[0], r);
      StepKept(db, ops[0]);
      if !Touches(db, ops[0], SlotOf(r)) {
        ReceiptFencing(next, ops[1..], r);
      } else if !EverRedriven(db, ops, SlotOf(r)) {
        StaleStays(next, ops[1..], r);
        StaleRefused(Run(next, ops[1..]), r);
      }
    }
  }

  lemma StaleRefused(db: Db, r: Receipt)
    requires Stale(db, r)
    ensures !Honoured(db, r)
  {
  }

  /** Settling a single receipt hits its row exactly when it is honoured, and only through its own consumer. */
  lemma HonouredIsHit(db: Db, cid: nat, r: Receipt)
    ensures Hit(db.core.deliveries, cid, [r]) == if cid == r.consumer && Honoured(db, r) then {SlotOf(r)} else {}
  {
  }

  // ---- Claims ---------------------------------------------------------------------------

  /** The ids a claim hands out: its retries and what it scans. */
  function Handed(db: Db, op: Op): set<nat>
    requires op.ClaimOp?
  {
    var retries := Retries(db.core, op.cid, op.max, op.now);
    if op.cid in db.core.consumers && op.cid in db.cursors && |retries| <= op.max then
      retries + Scan(db.core.messages, db.core.consumers[op.cid].filter, db.cursors[op.cid], op.max - |retries|).0
    else {}
  }

  lemma CollectIs(core: Core, cid: nat, ids: set<nat>)
    requires ids <= core.messages.Keys && forall m | m in ids :: Slot(cid, m) in core.deliveries
    ensures var claimed := Collect(core, cid, ids);
      && claimed.Ok? && |claimed.value| == |ids|
      && (forall i | 0 <= i < |claimed.value| ::
            && claimed.value[i].id == Sorted(ids)[i] && Sorted(ids)[i] in ids
            && claimed.value[i] == DeliveryOf(core, cid, Sorted(ids)[i]))
  {
    hide Sorted;
    var order := Sorted(ids);
    assert forall i | 0 <= i < |order| :: order[i] in order;
  }

  /** The delivery of a row: its message's stored body, its count, and a receipt honoured in `after`. */
  ghost predicate DeliveryGood(after: Db, cid: nat, d: Delivery) {
    && d.id in after.core.messages && d.message == after.core.messages[d.id]
    && d.receipt.consumer == cid && d.receipt.message == d.id && Honoured(after, d.receipt)
    && d.deliveryCount == after.core.deliveries[Slot(cid, d.id)].deliveryCount
  }

  /**
   A claim by a live consumer succeeds and hands out exactly its retries and its newly
   scanned messages, in id order, with receipts that are honoured from then on.
   */
  lemma ClaimHandsOut(db: Db, op: Op)
    requires Wf(db) && op.ClaimOp? && op.cid in db.core.consumers
    ensures var (after, claimed) := Claim(db, op.cid, op.max, op.now, op.now + op.lease);
      && claimed.Ok? && |claimed.value| == |Handed(db, op)|
      && (forall i | 0 <= i < |claimed.value| :: claimed.value[i].id == Sorted(Handed(db, op))[i] && DeliveryGood(after, op.cid, claimed.value[i]))
  {
    hide Wf, Claim, Retries, Scan, LeaseRows, Sorted, Collect, DeliveryOf, DeliveryGood;
    var retries, taken, scan := ClaimIs(db, op.cid, op.max, op.now, op.now + op.lease);
    ClaimCollects(db, op.cid, op.max, op.now, op.now + op.lease, retries, taken);
    var (after, claimed) := Claim(db, op.cid, op.max, op.now, op.now + op.lease);
    CollectGood(after, op.cid, retries + taken);
  }

  lemma CollectGood(db: Db, cid: nat, ids: set<nat>)
    requires ids <= db.core.messages.Keys && forall m | m in ids :: Slot(cid, m) in db.core.deliveries
    ensures var claimed := Collect(db.core, cid, ids);
      && claimed.Ok? && |claimed.value| == |ids|
      && (forall i | 0 <= i < |claimed.value| :: claimed.value[i].id == Sorted(ids)[i] && DeliveryGood(db, cid, claimed.value[i]))
  {
    hide Sorted, Collect, DeliveryOf, DeliveryGood;
    CollectIs(db.core, cid, ids);
    var claimed := Collect(db.core, cid, ids).value;
    forall i | 0 <= i < |claimed| ensures DeliveryGood(db, cid, claimed[i]) {
      DeliveryFields(db, cid, Sorted(ids)[i]);
    }
  }

  lemma DeliveryFields(db: Db, cid: nat, m: nat)
    requires m in db.core.messages && Slot(cid, m) in db.core.deliveries
    ensures DeliveryOf(db.core, cid, m).id == m && DeliveryGood(db, cid, DeliveryOf(db.core, cid, m))
  {
  }

  lemma ClaimCollects(db: Db, cid: nat, max: nat, now: int, deadline: int, retries: set<nat>, taken: set<nat>)
    requires Wf(db) && cid in db.core.consumers && cid in db.cursors
    requires retries == Retries(db.core, cid, max, now) && |retries| <= max
    requires taken == Scan(db.core.messages, db.core.consumers[cid].filter, db.cursors[cid], max - |retries|).0
    ensures var (after, claimed) := Claim(db, cid, max, now, deadline);
      && after.core.messages == db.core.messages
      && retries + taken <= after.core.messages.Keys
      && (forall m | m in retries + taken :: Slot(cid, m) in after.core.deliveries)
      && claimed == Collect(after.core, cid, retries + taken)
  {
    hide Wf, Claim, Retries, Scan, Collect, LeaseRows;
    ClaimKept(db, cid, max, now, deadline);
    var after := Claim(db, cid, max, now, deadline).0;
    WfCore(after);
    RowsHaveMessages(after.core);
    assert forall m | m in retries + taken :: Slot(cid, m) in after.core.deliveries;
    assert forall m | m in taken :: Slot(cid, m) !in db.core.deliveries by { ClaimableApart(db.core, cid, retries, taken); }
  }

  lemma RowsHaveMessages(core: Core)
    requires CoreOk(core)
    ensures forall s | s in core.deliveries :: s.message in core.messages
  {
    forall s | s in core.deliveries ensures s.message in core.messages {
      assert SlotOk(core, s);
    }
  }

  predicate Hands(db: Db, op: Op, s: Slot) {
    op.ClaimOp? && op.cid == s.consumer && s.message in Handed(db, op)
  }

  /** After handing a copy out the row carries the claim's deadline, and the cursor is past the message. */
  lemma HandedRow(db: Db, op: Op, s: Slot)
    requires Wf(db) && Hands(db, op, s)
    ensures var after := Step(db, op).0;
      && s in after.core.deliveries && after.core.deliveries[s].visibleAt == op.now + op.lease
      && (s in db.core.deliveries ==> db.core.deliveries[s].visibleAt <= op.now)
      && (s !in db.core.deliveries ==> s.consumer in db.cursors && db.cursors[s.consumer].scan < s.message)
  {
    hide Wf, Claim, Retries, Scan, LeaseRows;
    var retries, taken, scan := ClaimIs(db, op.cid, op.max, op.now, op.now + op.lease);
    LeasedUntil(db.core.deliveries, op.cid, retries, taken, op.now + op.lease);
  }

  lemma LeasedUntil(deliveries: map<Slot, Lease>, cid: nat, retries: set<nat>, taken: set<nat>, deadline: int)
    requires forall m | m in retries :: Slot(cid, m) in deliveries
    ensures var rows := LeaseRows(deliveries, cid, retries, taken, deadline);
      forall m | m in retries || m in taken :: Slot(cid, m) in rows && rows[Slot(cid, m)].visibleAt == deadline
  {
  }

  // ---- Mutual exclusion -----------------------------------------------------------------

  /** A successful nack or archive gives the lease up. */
  predicate Releases(db: Db, op: Op, s: Slot) {
    (op.NackOp? || op.ArchiveOp?) && s in Hit(db.core.deliveries, op.cid, op.receipts)
  }

  predicate NeverReleased(db: Db, ops: seq<Op>, s: Slot)
    decreases |ops|
  {
    ops == [] || (!Releases(db, ops[0], s) && NeverReleased(Step(db, ops[0]).0, ops[1..], s))
  }

  /** A lease deadline moved on by every successful extension of a run. */
  function DeadlineAfter(db: Db, ops: seq<Op>, s: Slot, deadline: int): int
    decreases |ops|
  {
    if ops == [] then deadline
    else DeadlineAfter(Step(db, ops[0]).0, ops[1..], s, ExtendedTo(db, ops[0], s, deadline))
  }

  /** Polling refuses a zero visibility timeout, so no lease ends before it starts. */
  predicate LeasesForward(ops: seq<Op>) {
    forall i | 0 <= i < |ops| && ops[i].ClaimOp? :: ops[i].lease >= 0
  }

  /** Nobody else may be handed the copy before the deadline. */
  ghost predicate Reserved(db: Db, s: Slot, deadline: int) {
    Passed(db, s) && !Archived(db.core.archives, s) && (s in db.core.deliveries ==> deadline <= db.core.deliveries[s].visibleAt)
  }

  lemma StepUnarchived(db: Db, op: Op, s: Slot)
    requires Wf(db) && !Archived(db.core.archives, s) && !Releases(db, op, s)
    ensures !Archived(Step(db, op).0.core.archives, s)
  {
    hide Step, CoreStep, Wf, Archived;
    if OnCore(op) {
      WfCore(db);
      ReceiptUnarchived(db, op, s);
      StepOnCore(db, op);
    } else {
      LogUnarchived(db, op, s);
    }
  }

  lemma ReceiptUnarchived(db: Db, op: Op, s: Slot)
    requires CoreOk(db.core) && !Archived(db.core.archives, s) && !Releases(db, op, s) && OnCore(op)
    ensures !Archived(CoreStep(db.core, op).0.archives, s)
  {
    hide Hit, NackChunks, ExtendChunks, Archive, Redrive, PurgeArchives, ListArchives, CoreOk, SlotsOf, Archived;
    if op.NackOp? || op.ExtendOp? {
      RowsKept(db.core, op);
    } else if op.ArchiveOp? {
      ArchiveSwaps(db.core, op.cid, op.receipts, op.archivedAt, op.detail);
    } else if op.RedriveOp? {
      RedriveArchives(db.core, op.cid, op.archiveIds, op.visibleAt);
      FewerArchived(db.core.archives, CoreStep(db.core, op).0.archives, s);
    } else if op.PurgeOp? {
      PurgedArchives(db.core, op.cid, op.before, op.limit);
      FewerArchived(db.core.archives, CoreStep(db.core, op).0.archives, s);
    }
  }

  lemma RedriveArchives(core: Core, cid: nat, archiveIds: seq<nat>, visibleAt: int)
    ensures forall a | a in Redrive(core, cid, archiveIds, visibleAt).0.archives :: a in core.archives && Redrive(core, cid, archiveIds, visibleAt).0.archives[a] == core.archives[a]
  {
    hide SlotsOf, Redriven;
  }

  lemma PurgedArchives(core: Core, cid: nat, before: int, limit: nat)
    ensures forall a | a in PurgeArchives(core, cid, before, limit).0.archives :: a in core.archives && PurgeArchives(core, cid, before, limit).0.archives[a] == core.archives[a]
  {
    hide PurgeVictims;
  }

  lemma FewerArchived(before: map<nat, ArchiveRow>, after: map<nat, ArchiveRow>, s: Slot)
    requires forall a | a in after :: a in before && after[a] == before[a]
    ensures Archived(after, s) ==> Archived(before, s)
  {
  }

  lemma LogUnarchived(db: Db, op: Op, s: Slot)
    requires Wf(db) && !Archived(db.core.archives, s) && !OnCore(op)
    ensures !Archived(Step(db, op).0.core.archives, s)
  {
    hide Wf, Claim, DeleteConsumer, OpenConsumer, BeginDraining, PublishAll, Snapshot, PruneMessages, Archived;
    if op.ClaimOp? {
      ClaimArchives(db, op.cid, op.max, op.now, op.now + op.lease);
    } else if op.DeleteOp? {
      DeletedArchives(db, op.name, op.mode);
      FewerArchived(db.core.archives, Step(db, op).0.core.archives, s);
    } else {
      SameRows(db, op);
    }
  }

  lemma ClaimArchives(db: Db, cid: nat, max: nat, now: int, deadline: int)
    requires Wf(db)
    ensures Claim(db, cid, max, now, deadline).0.core.archives == db.core.archives
  {
    hide Wf, Claim, Scan, Retries;
    if cid in db.core.consumers {
      var retries, taken, scan := ClaimIs(db, cid, max, now, deadline);
    } else {
      ClaimDeleted(db, cid, max, now, deadline);
    }
  }

  lemma DeletedArchives(db: Db, name: string, mode: DeleteMode)
    ensures var after := DeleteConsumer(db, name, mode).0.core.archives;
      forall a | a in after :: a in db.core.archives && after[a] == db.core.archives[a]
  {
    hide FindConsumer, Inbox, ArchivesOf, Unseen;
  }

  lemma StepReserved(db: Db, op: Op, s: Slot, deadline: int)
    requires Wf(db) && Reserved(db, s, deadline) && !Releases(db, op, s) && (op.ClaimOp? ==> op.lease >= 0)
    ensures Reserved(Step(db, op).0, s, ExtendedTo(db, op, s, deadline))
  {
    hide Wf, Step, Passed, Onward, Redrives, Archived, Retries, Hit, FindConsumer, DeleteConsumer;
    StepOnward(db, op);
    OnwardPassed(db, Step(db, op).0, s);
    StepUnarchived(db, op, s);
    if s in db.core.deliveries {
      StepRow(db, op, s);
      if op.ClaimOp? && Touches(db, op, s) { TouchedInTime(db, op, s); }
    } else {
      StepAbsent(db, op, s);
      if Redrives(db, op, s) { RedrivesArchived(db, op, s); }
    }
  }

  lemma TouchedInTime(db: Db, op: Op, s: Slot)
    requires op.ClaimOp? && s in db.core.deliveries && Touches(db, op, s)
    ensures db.core.deliveries[s].visibleAt <= op.now
  {
    RetriesVisible(db.core, op.cid, op.max, op.now);
  }

  lemma RedrivesArchived(db: Db, op: Op, s: Slot)
    requires Redrives(db, op, s)
    ensures Archived(db.core.archives, s)
  {
  }

  lemma {:induction false} ReservedThrough(db: Db, ops: seq<Op>, s: Slot, deadline: int)
    requires Wf(db) && Reserved(db, s, deadline) && NeverReleased(db, ops, s) && LeasesForward(ops)
    ensures Reserved(Run(db, ops), s, DeadlineAfter(db, ops, s, deadline))
    decreases |ops|
  {
    hide Wf, Step, Reserved, Releases, ExtendedTo;
    if ops != [] {
      StepReserved(db, ops[0], s, deadline);
      StepKept(db, ops[0]);
      ReservedThrough(Step(db, ops[0]).0, ops[1..], s, ExtendedTo(db, ops[0], s, deadline));
    }
  }

  /**
   Mutual exclusion, for any clocks and any interleaving: if one claim hands a copy out and a
   later one hands it out again, and no nack or archive gave it up in between, the later
   claim's clock had reached the first one's deadline with every extension since.
   */
  lemma LeaseExclusion(db: Db, first: Op, between: seq<Op>, second: Op, s: Slot)
    requires Wf(db) && Hands(db, first, s) && LeasesForward(between)
    requires NeverReleased(Step(db, first).0, between, s)
    requires Hands(Run(Step(db, first).0, between), second, s)
    ensures second.now >= DeadlineAfter(Step(db, first).0, between, s, first.now + first.lease)
  {
    hide Wf, Step, Handed, Archived, NeverReleased, DeadlineAfter, Touches, Run, Passed;
    var start := Step(db, first).0;
    HandedRow(db, first, s);
    StepKept(db, first);
    LivePassed(start, s);
    LiveUnarchived(start, s);
    ReservedThrough(start, between, s, first.now + first.lease);
    RunKept(start, between);
    HandedRow(Run(start, between), second, s);
    PassedNotScanned(Run(start, between), s);
  }

  lemma LiveUnarchived(db: Db, s: Slot)
    requires Wf(db) && s in db.core.deliveries
    ensures !Archived(db.core.archives, s)
  {
  }

  lemma PassedNotScanned(db: Db, s: Slot)
    requires Wf(db) && Passed(db, s)
    ensures !(s.consumer in db.cursors && db.cursors[s.consumer].scan < s.message)
  {
    CursorKeys(db);
  }

  // ---- Fresh receipts, and the order of first deliveries --------------------------------

  lemma {:induction false} HonouredOrStale(db: Db, ops: seq<Op>, r: Receipt)
    requires Wf(db) && Honoured(db, r) && !EverRedriven(db, ops, SlotOf(r))
    ensures Honoured(Run(db, ops), r) || Stale(Run(db, ops), r)
    decreases |ops|
  {
    hide Wf, Step, Honoured, Touches, Redrives, Stale;
    if ops != [] {
      var next := Step(db, ops[0]).0;
      StepHonoured(db, ops[0], r);
      StepKept(db, ops[0]);
      if Touches(db, ops[0], SlotOf(r)) {
        StaleStays(next, ops[1..], r);
      } else {
        HonouredOrStale(next, ops[1..], r);
      }
    }
  }

  /** Each claim of a copy mints a generation above every earlier one, unless the copy was redriven in between. */
  lemma ClaimsMintFresh(db: Db, first: Op, between: seq<Op>, second: Op, s: Slot)
    requires Wf(db) && Hands(db, first, s) && !EverRedriven(Step(db, first).0, between, s)
    requires Hands(Run(Step(db, first).0, between), second, s)
    ensures var start, end := Step(db, first).0, Run(Step(db, first).0, between);
      var after := Step(end, second).0;
      && s in start.core.deliveries && s in after.core.deliveries
      && start.core.deliveries[s].generation < after.core.deliveries[s].generation
  {
    hide Wf, Step, Handed, Run, Passed, Redrives, EverRedriven;
    var start := Step(db, first).0;
    HandedRow(db, first, s);
    StepKept(db, first);
    var r := ReceiptFor(start.core.deliveries, s);
    HonouredOrStale(start, between, r);
    RunKept(start, between);
    var end := Run(start, between);
    HandedRow(end, second, s);
    if s !in end.core.deliveries { PassedNotScanned(end, s); }
    HandedTouches(end, second, s);
    StepRow(end, second, s);
  }

  /** A live copy that is handed out is a retry. */
  lemma HandedTouches(db: Db, op: Op, s: Slot)
    requires Wf(db) && Hands(db, op, s) && s in db.core.deliveries
    ensures Touches(db, op, s)
  {
    hide Wf, Claim, Retries, Scan, LeaseRows;
    var retries, taken, scan := ClaimIs(db, op.cid, op.max, op.now, op.now + op.lease);
  }

  lemma {:induction false} PassedThrough(db: Db, ops: seq<Op>, s: Slot)
    requires Wf(db) && Passed(db, s)
    ensures Passed(Run(db, ops), s)
    decreases |ops|
  {
    hide Wf, Step, Passed, Onward;
    if ops != [] {
      StepOnward(db, ops[0]);
      OnwardPassed(db, Step(db, ops[0]).0, s);
      StepKept(db, ops[0]);
      PassedThrough(Step(db, ops[0]).0, ops[1..], s);
    }
  }

  /**
   A consumer meets the log in order: whatever a later claim materializes for the first time
   has a higher id than whatever an earlier one did, with any workers, prunes and topic gaps
   in between. So no message is scanned twice.
   */
  lemma FirstDeliveriesFollowTheLog(db: Db, first: Op, between: seq<Op>, second: Op, s: Slot, t: Slot)
    requires Wf(db) && s.consumer == t.consumer
    requires Hands(db, first, s) && s !in db.core.deliveries
    requires Hands(Run(Step(db, first).0, between), second, t) && t !in Run(Step(db, first).0, between).core.deliveries
    ensures s.message < t.message
  {
    hide Wf, Step, Handed, Run, Touches;
    var start := Step(db, first).0;
    HandedRow(db, first, s);
    StepKept(db, first);
    LivePassed(start, s);
    PassedThrough(start, between, s);
    RunKept(start, between);
    HandedRow(Run(start, between), second, t);
    CursorKeys(Run(start, between));
  }

  // ---- Attempts -------------------------------------------------------------------------

  predicate Ends(db: Db, op: Op, s: Slot) {
    (op.AckOp? || op.ArchiveOp? || op.DeleteOp?) && Touches(db, op, s)
  }

  predicate NeverEnded(db: Db, ops: seq<Op>, s: Slot)
    decreases |ops|
  {
    ops == [] || (!Ends(db, ops[0], s) && NeverEnded(Step(db, ops[0]).0, ops[1..], s))
  }

  /** How many claims of the run handed the copy out. */
  function TimesHanded(db: Db, ops: seq<Op>, s: Slot): nat
    decreases |ops|
  {
    if ops == [] then 0 else One(Hands(db, ops[0], s)) + TimesHanded(Step(db, ops[0]).0, ops[1..], s)
  }

  lemma StepCounts(db: Db, op: Op, s: Slot)
    requires Wf(db) && s in db.core.deliveries && !Ends(db, op, s)
    ensures var after := Step(db, op).0.core.deliveries;
      s in after && after[s].deliveryCount == db.core.deliveries[s].deliveryCount + One(Hands(db, op, s))
  {
    hide Wf, Step, Handed, Hit, Retries, FindConsumer, DeleteConsumer;
    StepRow(db, op, s);
    if op.ClaimOp? && Touches(db, op, s) {
      TouchedHanded(db, op, s);
    } else if Hands(db, op, s) {
      HandedTouches(db, op, s);
    }
  }

  lemma TouchedHanded(db: Db, op: Op, s: Slot)
    requires Wf(db) && op.ClaimOp? && Touches(db, op, s)
    ensures Hands(db, op, s)
  {
    hide Wf, Retries, Scan;
    CursorKeys(db);
    RetriesVisible(db.core, op.cid, op.max, op.now);
  }

  /** While a copy stays live its delivery count goes up by one for each claim that hands it out, and by nothing else. */
  lemma {:induction false} AttemptsAreCounted(db: Db, ops: seq<Op>, s: Slot)
    requires Wf(db) && s in db.core.deliveries && NeverEnded(db, ops, s)
    ensures var after := Run(db, ops).core.deliveries;
      s in after && after[s].deliveryCount == db.core.deliveries[s].deliveryCount + TimesHanded(db, ops, s)
    decreases |ops|
  {
    hide Wf, Step, Ends, Hands;
    if ops != [] {
      StepCounts(db, ops[0], s);
      StepKept(db, ops[0]);
      AttemptsAreCounted(Step(db, ops[0]).0, ops[1..], s);
    }
  }

  /** A row that was not there was handed out by this step or redriven by it. */
  lemma NewlyLive(db: Db, op: Op, s: Slot)
    requires Wf(db) && s !in db.core.deliveries && s in Step(db, op).0.core.deliveries
    ensures Redrives(db, op, s) || Hands(db, op, s)
  {
    hide Wf, CoreStep, OpenConsumer, BeginDraining, PublishAll, Claim, Snapshot, DeleteConsumer, PruneMessages, Redrives, Handed;
    if OnCore(op) {
      WfCore(db);
      ReceiptAbsent(db, op, s);
      StepOnCore(db, op);
    } else if op.ClaimOp? {
      NewlyHanded(db, op, s);
    } else if op.DeleteOp? {
      DeleteAbsent(db, op.name, op.mode, s);
    } else {
      SameRows(db, op);
    }
  }

  lemma NewlyHanded(db: Db, op: Op, s: Slot)
    requires Wf(db) && op.ClaimOp? && s !in db.core.deliveries && s in Claim(db, op.cid, op.max, op.now, op.now + op.lease).0.core.deliveries
    ensures Hands(db, op, s)
  {
    hide Wf, Claim, Retries, Scan, LeaseRows;
    if op.cid in db.core.consumers {
      var retries, taken, scan := ClaimIs(db, op.cid, op.max, op.now, op.now + op.lease);
    } else {
      ClaimDeleted(db, op.cid, op.max, op.now, op.now + op.lease);
    }
  }

  /** A first delivery is attempt one; a redriven copy starts at none. */
  lemma FirstAttempt(db: Db, op: Op, s: Slot)
    requires Wf(db) && s !in db.core.deliveries && s in Step(db, op).0.core.deliveries
    ensures Step(db, op).0.core.deliveries[s].deliveryCount == One(Hands(db, op, s))
  {
    hide Wf, Step, Handed, Redrives;
    NewlyLive(db, op, s);
    if Hands(db, op, s) {
      HandedFirst(db, op, s);
    } else {
      RedrivenFirst(db, op, s);
    }
  }

  lemma HandedFirst(db: Db, op: Op, s: Slot)
    requires Wf(db) && Hands(db, op, s) && s !in db.core.deliveries
    ensures s in Step(db, op).0.core.deliveries && Step(db, op).0.core.deliveries[s] == Lease(op.now + op.lease, 1, 1)
  {
    hide Wf, Claim, Retries, Scan, LeaseRows;
    var retries, taken, scan := ClaimIs(db, op.cid, op.max, op.now, op.now + op.lease);
    assert s == Slot(op.cid, s.message);
    FirstRows(db.core.deliveries, op.cid, retries, taken, op.now + op.lease);
  }

  lemma FirstRows(rows: map<Slot, Lease>, cid: nat, retries: set<nat>, taken: set<nat>, deadline: int)
    ensures var after := LeaseRows(rows, cid, retries, taken, deadline);
      forall m | m in taken :: Slot(cid, m) in after && after[Slot(cid, m)] == Lease(deadline, 1, 1)
  {
  }

  lemma RedrivenFirst(db: Db, op: Op, s: Slot)
    requires Wf(db) && Redrives(db, op, s)
    ensures s in Step(db, op).0.core.deliveries && Step(db, op).0.core.deliveries[s] == Lease(op.visibleAt, 0, 0)
    ensures !Hands(db, op, s)
  {
    hide CoreOk, Redriven, SlotsOf, Redrive;
    RedriveRows(db.core, op.cid, op.archiveIds, op.visibleAt);
  }
}
