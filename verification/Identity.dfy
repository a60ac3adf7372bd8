/**
 Consumer identities: what a handle can reach, and what is left for a handle whose consumer
 has been deleted.
 */
module Identity {
  import opened Prelude
  import opened Ranking
  import opened Schema
  import opened Transactions
  import opened Receipts
  import opened Runs
  import opened Invariants
  import opened Fanout
  import opened LazyIsEager
  import opened Conservation
  import opened Leases
  import opened Backlogs
  import opened Claims

  /** The consumer handle an operation is called on. */
  function Handle(op: Op): Option<nat> {
    match op
    case DrainOp(cid, _) => Some(cid)
    case ClaimOp(cid, _, _, _) => Some(cid)
    case AckOp(cid, _) => Some(cid)
    case NackOp(cid, _, _) => Some(cid)
    case ExtendOp(cid, _, _) => Some(cid)
    case ArchiveOp(cid, _, _, _) => Some(cid)
    case RedriveOp(cid, _, _) => Some(cid)
    case PurgeOp(cid, _, _) => Some(cid)
    case ListOp(cid, _, _) => Some(cid)
    case SnapshotOp(cid, _) => Some(cid)
    case _ => None
  }

  // ---- What a handle can reach ----------------------------------------------------------

  /** Everything the store holds for one consumer. */
  datatype View = View(row: Option<ConsumerRow>, cursor: Option<Cursor>, rows: map<nat, Lease>, archives: map<nat, ArchiveRow>)

  function ArchiveRows(archives: map<nat, ArchiveRow>, d: nat): map<nat, ArchiveRow> {
    map a | a in archives && archives[a].slot.consumer == d :: archives[a]
  }

  function ViewOf(db: Db, d: nat): View {
    View(
      if d in db.core.consumers then Some(db.core.consumers[d]) else None,
      if d in db.cursors then Some(db.cursors[d]) else None,
      Inbox(db.core.deliveries, d),
      ArchiveRows(db.core.archives, d))
  }

  ghost predicate OtherRowsKept(before: map<Slot, Lease>, after: map<Slot, Lease>, cid: nat) {
    forall s: Slot | s.consumer != cid :: (s in after <==> s in before) && (s in before ==> after[s] == before[s])
  }

  ghost predicate OtherArchivesKept(before: map<nat, ArchiveRow>, after: map<nat, ArchiveRow>, cid: nat) {
    && (forall a | a in before && before[a].slot.consumer != cid :: a in after && after[a] == before[a])
    && (forall a | a in after && after[a].slot.consumer != cid :: a in before && after[a] == before[a])
  }

  lemma SameView(before: Db, after: Db, cid: nat, d: nat)
    requires OtherRowsKept(before.core.deliveries, after.core.deliveries, cid)
    requires OtherArchivesKept(before.core.archives, after.core.archives, cid)
    requires after.core.consumers.Keys == before.core.consumers.Keys && after.cursors.Keys == before.cursors.Keys
    requires forall c | c in before.core.consumers && c != cid :: after.core.consumers[c] == before.core.consumers[c]
    requires forall c | c in before.cursors && c != cid :: after.cursors[c] == before.cursors[c]
    requires d != cid
    ensures ViewOf(after, d) == ViewOf(before, d)
  {
    hide Inbox, ArchiveRows, OtherRowsKept, OtherArchivesKept;
    SameInbox(before.core.deliveries, after.core.deliveries, cid, d);
    SameArchives(before.core.archives, after.core.archives, cid, d);
  }

  lemma SameInbox(before: map<Slot, Lease>, after: map<Slot, Lease>, cid: nat, d: nat)
    requires OtherRowsKept(before, after, cid) && d != cid
    ensures Inbox(after, d) == Inbox(before, d)
  {
    hide Inbox;
    var a, b := Inbox(after, d), Inbox(before, d);
    forall m ensures (m in a <==> m in b) && (m in a ==> a[m] == b[m]) {
      assert Slot(d, m) in after <==> Slot(d, m) in before;
    }
  }

  lemma SameArchives(before: map<nat, ArchiveRow>, after: map<nat, ArchiveRow>, cid: nat, d: nat)
    requires OtherArchivesKept(before, after, cid) && d != cid
    ensures ArchiveRows(after, d) == ArchiveRows(before, d)
  {
  }

  lemma ReceiptsReachOwnRows(core: Core, op: Op)
    requires CoreOk(core) && OnCore(op)
    ensures OtherRowsKept(core.deliveries, CoreStep(core, op).0.deliveries, op.cid)
  {
    hide NackChunks, ExtendChunks, Archive, Redrive, PurgeArchives, ListArchives, CoreOk;
    if op.NackOp? {
      NackChunksEffect(core.deliveries, op.cid, op.receipts, op.visibleAt, RECEIPTS_PER_CHUNK);
    } else if op.ExtendOp? {
      ExtendRowsIgnoreChunks(core.deliveries, op.cid, op.receipts, op.visibleAt, RECEIPTS_PER_CHUNK);
    } else if op.ArchiveOp? {
      Leases.ArchiveRows(core, op.cid, op.receipts, op.archivedAt, op.detail);
    } else if op.RedriveOp? {
      RedriveRows(core, op.cid, op.archiveIds, op.visibleAt);
    } else if op.PurgeOp? {
      PurgeRows(core, op.cid, op.before, op.limit);
    }
  }

  lemma ReceiptsReachOwnArchives(core: Core, op: Op)
    requires CoreOk(core) && OnCore(op)
    ensures OtherArchivesKept(core.archives, CoreStep(core, op).0.archives, op.cid)
  {
    hide Hit, NackChunks, ExtendChunks, Archive, Redrive, PurgeArchives, ListArchives, CoreOk;
    if op.NackOp? || op.ExtendOp? {
      RowsKept(core, op);
    } else if op.ArchiveOp? {
      NewArchivesAreOwn(core, op.cid, op.receipts, op.archivedAt, op.detail);
    } else if op.RedriveOp? {
      RedriveTakesOwn(core, op.cid, op.archiveIds, op.visibleAt);
    } else if op.PurgeOp? {
      PurgeTakesOwn(core, op.cid, op.before, op.limit);
    }
  }

  lemma NewArchivesAreOwn(core: Core, cid: nat, receipts: seq<Receipt>, archivedAt: int, detail: Option<string>)
    requires CoreOk(core)
    ensures OtherArchivesKept(core.archives, Archive(core, cid, receipts, archivedAt, detail).0.archives, cid)
  {
    hide CoreOk, Hit, Sorted, MessagesOf, NewArchives, NextIds;
    ArchiveAllowed(core, cid, receipts);
    CoreArchivesOk(core);
    MovedRows(core, cid, Hit(core.deliveries, cid, receipts), archivedAt, detail);
  }

  lemma RedriveTakesOwn(core: Core, cid: nat, archiveIds: seq<nat>, visibleAt: int)
    ensures OtherArchivesKept(core.archives, Redrive(core, cid, archiveIds, visibleAt).0.archives, cid)
  {
    hide SlotsOf;
  }

  lemma PurgeTakesOwn(core: Core, cid: nat, before: int, limit: nat)
    ensures OtherArchivesKept(core.archives, PurgeArchives(core, cid, before, limit).0.archives, cid)
  {
    hide Lowest;
  }

  lemma CoreHandleFrames(db: Db, op: Op, d: nat)
    requires Wf(db) && OnCore(op) && d != op.cid
    ensures ViewOf(Step(db, op).0, d) == ViewOf(db, d)
  {
    hide Wf, Step, CoreStep, ViewOf, OtherRowsKept, OtherArchivesKept;
    WfCore(db);
    CoreStepKept(db.core, op);
    ReceiptsReachOwnRows(db.core, op);
    ReceiptsReachOwnArchives(db.core, op);
    StepOnCore(db, op);
    SameConsumers(db.core, CoreStep(db.core, op).0);
    SameView(db, Step(db, op).0, op.cid, d);
  }

  lemma ClaimFrames(db: Db, cid: nat, max: nat, now: int, deadline: int, d: nat)
    requires Wf(db) && d != cid
    ensures ViewOf(Claim(db, cid, max, now, deadline).0, d) == ViewOf(db, d)
  {
    hide Wf, Claim, Scan, Retries, ViewOf;
    if cid in db.core.consumers {
      var retries, taken, scan := ClaimIs(db, cid, max, now, deadline);
      SameView(db, Claim(db, cid, max, now, deadline).0, cid, d);
    } else {
      ClaimDeleted(db, cid, max, now, deadline);
    }
  }

  lemma DrainFrames(db: Db, cid: nat, now: int, d: nat)
    requires Wf(db) && d != cid
    ensures ViewOf(BeginDraining(db, cid, now).0, d) == ViewOf(db, d)
  {
    hide Wf, HighWater, ViewOf;
    CursorKeys(db);
    SameView(db, BeginDraining(db, cid, now).0, cid, d);
  }

  /** An operation on one handle changes nothing the store holds for any other consumer. */
  lemma HandlesAreSeparate(db: Db, op: Op, d: nat)
    requires Wf(db) && Handle(op).Some? && d != Handle(op).value
    ensures ViewOf(Step(db, op).0, d) == ViewOf(db, d)
  {
    hide Wf, CoreStep, Claim, BeginDraining, Snapshot, ViewOf;
    if OnCore(op) {
      CoreHandleFrames(db, op, d);
    } else if op.ClaimOp? {
      ClaimFrames(db, op.cid, op.max, op.now, op.now + op.lease, d);
    } else if op.DrainOp? {
      DrainFrames(db, op.cid, op.now, d);
    }
  }

  // ---- Foreign receipts -----------------------------------------------------------------

  /** The receipts a handle's statements look at: those with its own consumer id. */
  function Own(cid: nat, receipts: seq<Receipt>): seq<Receipt> {
    if receipts == [] then []
    else (if receipts[0].consumer == cid then [receipts[0]] else []) + Own(cid, receipts[1..])
  }

  lemma {:induction false} OwnHolds(cid: nat, receipts: seq<Receipt>, r: Receipt)
    ensures r in Own(cid, receipts) <==> r in receipts && r.consumer == cid
  {
    if receipts != [] {
      OwnHolds(cid, receipts[1..], r);
      assert r in receipts <==> r == receipts[0] || r in receipts[1..];
    }
  }

  /** A receipt of another consumer, deleted or not, hits no row through this handle. */
  lemma ForeignReceiptsMissed(deliveries: map<Slot, Lease>, cid: nat, receipts: seq<Receipt>)
    ensures Hit(deliveries, cid, receipts) == Hit(deliveries, cid, Own(cid, receipts))
  {
    forall s | s in deliveries && s.consumer == cid {
      OwnHolds(cid, receipts, Receipt(s.consumer, s.message, deliveries[s].generation));
    }
  }

  // ---- Dead handles ---------------------------------------------------------------------

  /** A deleted consumer has no row anywhere. */
  ghost predicate Dead(db: Db, cid: nat) {
    && cid !in db.core.consumers && cid !in db.cursors
    && (forall s | s in db.core.deliveries :: s.consumer != cid)
    && (forall a | a in db.core.archives :: db.core.archives[a].slot.consumer != cid)
  }

  lemma DeletedIsDead(db: Db, cid: nat)
    requires Wf(db) && cid !in db.core.consumers
    ensures Dead(db, cid)
  {
    forall s | s in db.core.deliveries ensures s.consumer != cid {
      assert SlotOk(db.core, s);
    }
    forall a | a in db.core.archives ensures db.core.archives[a].slot.consumer != cid {
      assert SlotOk(db.core, db.core.archives[a].slot);
    }
  }

  lemma NothingHit(db: Db, cid: nat, receipts: seq<Receipt>)
    requires Dead(db, cid)
    ensures Hit(db.core.deliveries, cid, receipts) == {}
  {
  }

  lemma DeadArchive(db: Db, cid: nat, receipts: seq<Receipt>, archivedAt: int, detail: Option<string>)
    requires Dead(db, cid)
    ensures Archive(db.core, cid, receipts, archivedAt, detail).0 == db.core
  {
    hide Hit, Dead;
    NothingHit(db, cid, receipts);
    assert MessagesOf({}) == {};
    assert NewArchives(db.core.deliveries, db.core.archiveSeq, cid, [], archivedAt, detail) == map[];
  }

  lemma DeadRedrive(db: Db, cid: nat, archiveIds: seq<nat>, visibleAt: int)
    requires Dead(db, cid)
    ensures Redrive(db.core, cid, archiveIds, visibleAt).0 == db.core
  {
    var hits := Redriven(db.core, cid, archiveIds);
    assert hits == {} && SlotsOf(db.core, hits) == {};
  }

  lemma DeadPurge(db: Db, cid: nat, before: int, limit: nat)
    requires Dead(db, cid)
    ensures PurgeArchives(db.core, cid, before, limit).0 == db.core
  {
    hide Lowest;
    assert PurgeVictims(db.core, cid, before, limit) == {};
  }

  lemma DeadChunks(db: Db, cid: nat, receipts: seq<Receipt>, visibleAt: int)
    requires Dead(db, cid)
    ensures NackChunks(db.core.deliveries, cid, receipts, visibleAt, RECEIPTS_PER_CHUNK).0 == db.core.deliveries
    ensures ExtendChunks(db.core.deliveries, cid, receipts, visibleAt, RECEIPTS_PER_CHUNK).0 == db.core.deliveries
  {
    hide Hit, Dead, NackChunks, ExtendChunks;
    NothingHit(db, cid, receipts);
    NackChunksEffect(db.core.deliveries, cid, receipts, visibleAt, RECEIPTS_PER_CHUNK);
    ExtendRowsIgnoreChunks(db.core.deliveries, cid, receipts, visibleAt, RECEIPTS_PER_CHUNK);
  }

  lemma DeadCoreStep(db: Db, op: Op)
    requires OnCore(op) && Dead(db, op.cid)
    ensures CoreStep(db.core, op).0 == db.core
  {
    hide Hit, Dead, NackChunks, ExtendChunks, Archive, Redrive, PurgeArchives, ListArchives;
    match op
    case AckOp(cid, receipts) => NothingHit(db, cid, receipts);
    case NackOp(cid, receipts, visibleAt) => DeadChunks(db, cid, receipts, visibleAt);
    case ExtendOp(cid, receipts, visibleAt) => DeadChunks(db, cid, receipts, visibleAt);
    case ArchiveOp(cid, receipts, archivedAt, detail) => DeadArchive(db, cid, receipts, archivedAt, detail);
    case RedriveOp(cid, archiveIds, visibleAt) => DeadRedrive(db, cid, archiveIds, visibleAt);
    case PurgeOp(cid, before, limit) => DeadPurge(db, cid, before, limit);
    case ListOp(cid, after, limit) =>
  }

  /** Nothing a handle of a deleted consumer does changes anything at all. */
  lemma DeadHandleIsInert(db: Db, op: Op)
    requires Wf(db) && Handle(op).Some? && Handle(op).value !in db.core.consumers
    ensures Step(db, op).0 == db
  {
    hide Wf, CoreStep, Claim, Snapshot, Dead;
    var cid := Handle(op).value;
    DeletedIsDead(db, cid);
    if OnCore(op) {
      DeadCoreStep(db, op);
    } else if op.ClaimOp? {
      ClaimDeleted(db, cid, op.max, op.now, op.now + op.lease);
    }
  }

  /** A run without the operations on one handle. */
  function WithoutHandle(ops: seq<Op>, cid: nat): seq<Op> {
    if ops == [] then []
    else (if Handle(ops[0]) == Some(cid) then [] else [ops[0]]) + WithoutHandle(ops[1..], cid)
  }

  /**
   After a deletion the old handles can be dropped from any later run without changing the
   state it reaches: neither a replacement of the same name nor anyone else sees them.
   */
  lemma {:induction false} OldHandlesReachNothing(db: Db, ops: seq<Op>, cid: nat)
    requires Wf(db) && cid !in db.core.consumers && cid <= db.core.consumerSeq
    ensures Run(db, ops) == Run(db, WithoutHandle(ops, cid))
    decreases |ops|
  {
    hide Wf, Step, Onward;
    if ops != [] {
      var next := Step(db, ops[0]).0;
      StepKept(db, ops[0]);
      StepOnward(db, ops[0]);
      GoneStays(db, next, cid);
      OldHandlesReachNothing(next, ops[1..], cid);
      if Handle(ops[0]) == Some(cid) {
        DeadHandleIsInert(db, ops[0]);
        assert WithoutHandle(ops, cid) == WithoutHandle(ops[1..], cid);
      } else {
        assert WithoutHandle(ops, cid)[0] == ops[0] && WithoutHandle(ops, cid)[1..] == WithoutHandle(ops[1..], cid);
      }
    }
  }

  lemma GoneStays(before: Db, after: Db, cid: nat)
    requires Onward(before, after) && cid !in before.core.consumers && cid <= before.core.consumerSeq
    ensures cid !in after.core.consumers && cid <= after.core.consumerSeq
  {
  }

  // ---- Deletion -------------------------------------------------------------------------

  /** Deleting in drained-only mode discards no outstanding and no archived copy, of anyone. */
  lemma DrainedOnlyDiscardsNothing(db: Db, name: string)
    requires Wf(db) && DeleteConsumer(db, name, DrainedOnly).1.Ok?
    ensures FindConsumer(db.core, name).Some?
    ensures var id := FindConsumer(db.core, name).value; var (after, deleted) := DeleteConsumer(db, name, DrainedOnly);
      && id in db.core.consumers && FullyDrained(db, id) && ArchivesOf(db.core, id) == {}
      && deleted.value == DeleteOutcome(0, 0)
      && after == Db(db.core.(consumers := db.core.consumers - {id}), db.cursors - {id})
  {
    hide Wf, FindConsumer, Inbox, ArchivesOf, Unseen, DeleteConsumer, FullyDrained;
    DeletedIs(db, name, DrainedOnly);
    var id := FindConsumer(db.core, name).value;
    CursorKeys(db);
    DeleteGuards(db, name);
    DrainedHas(db, id);
    assert forall s | s in db.core.deliveries :: s.consumer != id;
  }

  lemma DeleteGuards(db: Db, name: string)
    requires FindConsumer(db.core, name).Some? && FindConsumer(db.core, name).value in db.cursors && DeleteConsumer(db, name, DrainedOnly).1.Ok?
    ensures var id := FindConsumer(db.core, name).value;
      FullyDrained(db, id) && ArchivesOf(db.core, id) == {} && DeleteConsumer(db, name, DrainedOnly).1.value == DeleteOutcome(0, 0)
  {
    hide FindConsumer, Inbox, ArchivesOf, Unseen;
  }

  /** Reopening a deleted name makes a consumer with an id no earlier consumer ever had. */
  lemma ReplacementIsNew(db: Db, ops: seq<Op>, name: string, filter: Option<string>, now: int, cid: nat)
    requires Wf(db) && cid !in db.core.consumers && cid <= db.core.consumerSeq
    ensures var r := OpenConsumer(Run(db, ops), name, filter, now).1; r.Ok? ==> r.value != cid
  {
    hide Wf, Run, FindConsumer, HighWater;
    GoneForGood(db, ops, cid);
    SequenceGrows(db, ops);
  }

  lemma {:induction false} SequenceGrows(db: Db, ops: seq<Op>)
    requires Wf(db)
    ensures db.core.consumerSeq <= Run(db, ops).core.consumerSeq
    decreases |ops|
  {
    hide Wf, Step;
    if ops != [] {
      StepKept(db, ops[0]);
      StepOnward(db, ops[0]);
      SequenceGrows(Step(db, ops[0]).0, ops[1..]);
    }
  }
}
