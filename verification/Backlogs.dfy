/**
 The three queries that count a consumer's backlog — inspection, deletion and pruning — write
 its bounds differently; they agree on what is outstanding.
 */
module Backlogs {
  import opened Prelude
  import opened Ranking
  import opened Schema
  import opened Transactions
  import opened Invariants
  import opened Fanout
  import opened LazyIsEager

  /** Copies handed out and not settled, and messages not scanned yet. */
  function Outstanding(db: Db, c: nat): set<nat>
    requires c in db.cursors && c in db.core.consumers
  {
    Inbox(db.core.deliveries, c).Keys + Backlog(db, c)
  }

  lemma NameFinds(core: Core, cid: nat)
    requires CoreOk(core) && cid in core.consumers
    ensures FindConsumer(core, core.consumers[cid].name) == Some(cid)
  {
    var name := core.consumers[cid].name;
    assert cid in Named(core, name);
    hide DeliveriesOk, ArchivesOk, LedgerOk, MessagesOk;
  }

  /** Nothing unscanned has been materialized, so the two parts of a backlog are disjoint. */
  lemma OutstandingSize(db: Db, cid: nat)
    requires Wf(db) && cid in db.core.consumers
    ensures cid in db.cursors && |Outstanding(db, cid)| == |Inbox(db.core.deliveries, cid).Keys| + |Backlog(db, cid)|
  {
    CursorKeys(db);
    assert Inbox(db.core.deliveries, cid).Keys !! Backlog(db, cid) by { RowsScanned(db, cid); }
    hide Wf, Inbox, Backlog;
  }

  lemma RowsScanned(db: Db, cid: nat)
    requires Wf(db) && cid in db.core.consumers
    ensures cid in db.cursors && forall m | m in Inbox(db.core.deliveries, cid) :: m <= db.cursors[cid].scan
  {
    CursorKeys(db);
    forall m | m in Inbox(db.core.deliveries, cid) ensures m <= db.cursors[cid].scan {
      assert Slot(cid, m) in db.core.deliveries;
    }
  }

  /** Every row is visible now or later. */
  lemma VisibleOrLater(deliveries: map<Slot, Lease>, cid: nat, now: int)
    ensures |Visible(deliveries, cid, now).Keys| + |LaterVisible(deliveries, cid, now).Keys| == |Inbox(deliveries, cid).Keys|
  {
    var visible, later := Visible(deliveries, cid, now).Keys, LaterVisible(deliveries, cid, now).Keys;
    assert visible !! later && visible + later == Inbox(deliveries, cid).Keys;
  }

  /** What the inspection query reports, in terms of the copies themselves. */
  lemma SnapshotCounts(db: Db, cid: nat, now: int)
    requires Wf(db) && cid in db.core.consumers
    ensures cid in db.cursors && Snapshot(db, cid, now).Ok?
    ensures var s := Snapshot(db, cid, now).value;
      && s.outstanding == |Outstanding(db, cid)|
      && s.ready == |Visible(db.core.deliveries, cid, now).Keys| + |Backlog(db, cid)|
      && s.ready + |LaterVisible(db.core.deliveries, cid, now).Keys| == s.outstanding
      && s.archived == |ArchivesOf(db.core, cid)|
      && s.drainingAt == db.core.consumers[cid].drainingAt
      && s.nextReadyAt == Minimum(LaterVisible(db.core.deliveries, cid, now))
      && (s.nextReadyAt.None? <==> s.ready == s.outstanding)
  {
    hide Wf, Visible, LaterVisible, Inbox, Minimum, ArchivesOf, Backlog, Snapshot, PublishTimes;
    SnapshotAgrees(db, cid, now);
    AbstractShares(db);
    OutstandingSize(db, cid);
    VisibleOrLater(db.core.deliveries, cid, now);
  }

  /** The rest of a snapshot is the consumer's row. */
  lemma SnapshotShows(db: Db, cid: nat, now: int)
    requires Wf(db)
    ensures cid !in db.core.consumers ==> Snapshot(db, cid, now) == Err(ConsumerDeleted)
    ensures cid in db.core.consumers ==> Snapshot(db, cid, now).Ok?
    ensures cid in db.core.consumers ==>
      var s, row := Snapshot(db, cid, now).value, db.core.consumers[cid];
      s.name == row.name && s.filter == row.filter && s.createdAt == row.createdAt && s.drainingAt == row.drainingAt
  {
    hide Wf, Visible, LaterVisible, Inbox, Minimum, ArchivesOf, PublishTimes, Window, ScanLimit;
    CursorKeys(db);
  }

  // ---- What a deletion may do -----------------------------------------------------------

  /** When a mode lets a consumer with such a backlog go. */
  predicate Allowed(mode: DeleteMode, draining: bool, outstanding: nat, archived: nat) {
    match mode
    case DrainedOnly => draining && outstanding == 0 && archived == 0
    case DiscardOutstanding => archived == 0
    case DiscardAll => true
  }

  /** The answer to a deletion: what it discarded, or the first reason against it with its count. */
  predicate Decides(mode: DeleteMode, draining: bool, outstanding: nat, archived: nat, r: Result<DeleteOutcome>) {
    && (r.Ok? <==> Allowed(mode, draining, outstanding, archived))
    && (r.Ok? ==> r.value == DeleteOutcome(outstanding, archived))
    && (r == Err(ConsumerNotDraining) <==> mode == DrainedOnly && !draining)
    && (r == Err(ConsumerNotEmpty(outstanding)) <==> mode == DrainedOnly && draining && outstanding > 0)
    && (r == Err(ConsumerHasArchives(archived)) <==>
          archived > 0 && (mode == DiscardOutstanding || (mode == DrainedOnly && draining && outstanding == 0)))
  }

  lemma AnswerDecides(mode: DeleteMode, draining: bool, outstanding: nat, archived: nat)
    ensures Decides(mode, draining, outstanding, archived, DeleteAnswer(mode, draining, outstanding, archived))
  {
  }

  lemma DeleteRemoves(db: Db, cid: nat, mode: DeleteMode)
    requires cid in db.core.consumers && cid in db.cursors && FindConsumer(db.core, db.core.consumers[cid].name) == Some(cid)
    ensures var (after, r) := DeleteConsumer(db, db.core.consumers[cid].name, mode);
      && r == DeleteAnswer(mode, db.core.consumers[cid].drainingAt.Some?, |Inbox(db.core.deliveries, cid).Keys| + |Backlog(db, cid)|, |ArchivesOf(db.core, cid)|)
      && (r.Err? ==> after == db)
  {
    hide FindConsumer, Unseen, Inbox, ArchivesOf, Without, DeleteAnswer;
  }

  /**
   A deletion is decided by the mode, whether the consumer drains, and how many copies are
   outstanding and archived; refused, it changes nothing.
   */
  lemma DeletionIsDecided(db: Db, cid: nat, mode: DeleteMode)
    requires Wf(db) && cid in db.core.consumers
    ensures cid in db.cursors
    ensures var (after, r) := DeleteConsumer(db, db.core.consumers[cid].name, mode);
      && Decides(mode, db.core.consumers[cid].drainingAt.Some?, |Outstanding(db, cid)|, |ArchivesOf(db.core, cid)|, r)
      && (r.Err? ==> after == db)
  {
    hide Wf, CoreOk, Inbox, ArchivesOf, Outstanding, FindConsumer, Backlog, DeleteConsumer, DeleteAnswer, Decides;
    CursorKeys(db);
    WfHasCore(db);
    NameFinds(db.core, cid);
    OutstandingSize(db, cid);
    DeleteRemoves(db, cid, mode);
    AnswerDecides(mode, db.core.consumers[cid].drainingAt.Some?, |Outstanding(db, cid)|, |ArchivesOf(db.core, cid)|);
  }

  /** A name nobody has is not found. */
  lemma NobodyToDelete(db: Db, name: string, mode: DeleteMode)
    requires forall c | c in db.core.consumers :: db.core.consumers[c].name != name
    ensures DeleteConsumer(db, name, mode) == (db, Err(ConsumerNotFound))
  {
  }

  /** Deletion counts with `drain_cursor IS NULL OR`, inspection with COALESCE; what it decides is what the snapshot shows. */
  lemma BacklogViewsAgree(db: Db, cid: nat, now: int, mode: DeleteMode)
    requires Wf(db) && cid in db.core.consumers
    ensures Snapshot(db, cid, now).Ok?
    ensures var s := Snapshot(db, cid, now).value;
      Decides(mode, s.drainingAt.Some?, s.outstanding, s.archived, DeleteConsumer(db, db.core.consumers[cid].name, mode).1)
  {
    hide Wf, Snapshot, Inbox, ArchivesOf, Outstanding, Backlog, Visible, LaterVisible, Minimum, DeleteConsumer, Decides;
    SnapshotCounts(db, cid, now);
    DeletionIsDecided(db, cid, mode);
  }

  lemma WfHasCore(db: Db)
    requires Wf(db)
    ensures CoreOk(db.core)
  {
  }

  /** Some consumer has an archived copy of the message. */
  predicate KeptInArchive(db: Db, m: nat) {
    exists a | a in db.core.archives :: db.core.archives[a].slot.message == m
  }

  /** The guard of pruning: old, outstanding for no consumer, and in nobody's archive. */
  lemma PruningSparesTheOutstanding(db: Db, before: int, m: nat)
    requires Wf(db)
    ensures db.cursors.Keys == db.core.consumers.Keys
    ensures m in Prunable(db, before) <==>
      && m in db.core.messages && db.core.messages[m].publishedAt < before
      && (forall c | c in db.core.consumers :: m !in Outstanding(db, c))
      && !KeptInArchive(db, m)
  {
    CursorKeys(db);
    RowsOwned(db);
    hide Wf, Unseen;
    if Referenced(db.core, m) && !KeptInArchive(db, m) {
      var s :| s in db.core.deliveries && s.message == m;
      assert m in Inbox(db.core.deliveries, s.consumer) by { assert Slot(s.consumer, m) in db.core.deliveries; }
      assert m in Outstanding(db, s.consumer);
    }
    if Awaited(db, m) {
      var c :| c in db.cursors && c in db.core.consumers && m in Unseen(db.core.messages, db.core.consumers[c].filter, db.cursors[c]);
      assert m in Outstanding(db, c);
    }
    forall c | c in db.core.consumers && m in Outstanding(db, c) ensures Referenced(db.core, m) || Awaited(db, m) {
      if m in Inbox(db.core.deliveries, c) {
        assert Slot(c, m) in db.core.deliveries;
      }
    }
  }

  lemma RowsOwned(db: Db)
    requires Wf(db)
    ensures forall s | s in db.core.deliveries :: s.consumer in db.core.consumers
  {
    forall s | s in db.core.deliveries ensures s.consumer in db.core.consumers {
      assert SlotOk(db.core, s);
    }
  }

  /** The snapshot's oldest time is the earliest publish time among the outstanding copies. */
  lemma OldestOutstanding(db: Db, cid: nat, now: int)
    requires Wf(db) && cid in db.core.consumers
    ensures cid in db.cursors && Snapshot(db, cid, now).Ok?
    ensures forall m | m in Outstanding(db, cid) :: m in db.core.messages
    ensures var oldest := Snapshot(db, cid, now).value.oldestOutstandingAt;
      && (oldest.None? <==> Outstanding(db, cid) == {})
      && (oldest.Some? ==>
            && (exists m :: m in Outstanding(db, cid) && db.core.messages[m].publishedAt == oldest.value)
            && (forall m | m in Outstanding(db, cid) :: oldest.value <= db.core.messages[m].publishedAt))
  {
    hide Wf, Visible, LaterVisible, Inbox, Minimum, ArchivesOf, Unseen, Snapshot, PublishTimes;
    SnapshotAgrees(db, cid, now);
    AbstractShares(db);
    OutstandingRetained(db, cid);
    MinimumHolds(db.core.messages, Outstanding(db, cid));
  }

  lemma OutstandingRetained(db: Db, cid: nat)
    requires Wf(db) && cid in db.core.consumers && cid in db.cursors
    ensures Outstanding(db, cid) <= db.core.messages.Keys
  {
    forall m | m in Inbox(db.core.deliveries, cid) ensures m in db.core.messages {
      assert SlotOk(db.core, Slot(cid, m));
    }
  }

  lemma MinimumHolds(messages: map<nat, Message>, ids: set<nat>)
    requires ids <= messages.Keys
    ensures var oldest := Minimum(PublishTimes(messages, ids));
      && (oldest.None? <==> ids == {})
      && (oldest.Some? ==> (exists m :: m in ids && messages[m].publishedAt == oldest.value) && forall m | m in ids :: oldest.value <= messages[m].publishedAt)
  {
    hide Minimum;
    var times := PublishTimes(messages, ids);
    assert times.Keys == ids;
    MinimumIs(times);
  }

  lemma MinimumIs(column: map<nat, int>)
    ensures var m := Minimum(column);
      && (m.None? <==> column.Keys == {})
      && (m.Some? ==> (exists a :: a in column && column[a] == m.value) && forall a | a in column :: m.value <= column[a])
  {
  }
}
