/**
 The cursors implement the eager fan-out: seen through `Abstract`, every transaction of
 litefan is the corresponding eager step, with the same result for the caller.
 */
module LazyIsEager {
  import opened Prelude
  import opened Ranking
  import opened Schema
  import opened Transactions
  import opened Runs
  import opened Invariants
  import opened Fanout

  /** The state after a lazy step is the state after the eager one, and callers see no difference. */
  ghost predicate Agrees(db: Db, op: Op) {
    EagerStep(Abstract(db), op) == (Abstract(Step(db, op).0), Step(db, op).1)
  }

  lemma AbstractIs(db: Db, pending: map<nat, set<nat>>)
    requires db.cursors.Keys == db.core.consumers.Keys == pending.Keys
    requires forall c | c in pending :: pending[c] == Backlog(db, c)
    ensures Abstract(db) == Eager(db.core, pending)
  {
    assert Abstract(db).pending == pending;
  }

  /** Inboxes depend on the log, the filters and the cursors only. */
  lemma SamePending(db: Db, core: Core)
    requires db.cursors.Keys == db.core.consumers.Keys
    requires core.messages == db.core.messages
    requires core.consumers.Keys == db.core.consumers.Keys
    requires forall c | c in core.consumers :: core.consumers[c].filter == db.core.consumers[c].filter
    ensures Abstract(Db(core, db.cursors)) == Eager(core, Abstract(db).pending)
  {
    AbstractIs(Db(core, db.cursors), Abstract(db).pending);
  }

  lemma OnCoreAgrees(db: Db, op: Op)
    requires Wf(db) && OnCore(op)
    ensures Agrees(db, op)
  {
    CoreStepKept(db.core, op);
    StepOnCore(db, op);
    EagerOnCore(Abstract(db), op);
    hide CoreStep, Step, EagerStep, Wf;
    SamePending(db, CoreStep(db.core, op).0);
  }

  lemma EagerOnCore(e: Eager, op: Op)
    requires OnCore(op)
    ensures EagerStep(e, op) == (Eager(CoreStep(e.core, op).0, e.pending), CoreStep(e.core, op).1)
  {
    hide CoreStep;
  }

  // ---- Publishing -----------------------------------------------------------------------

  /** Appended messages are above every cursor, so the active consumers that match gain exactly them. */
  lemma UnseenGrows(before: Core, after: Core, row: ConsumerRow, cursor: Cursor)
    requires CoreOk(before) && Appended(before, after)
    requires cursor.scan <= before.messageSeq
    requires cursor.drain.Some? ==> cursor.drain.value <= before.messageSeq
    requires cursor.drain.Some? <==> row.drainingAt.Some?
    ensures Unseen(after.messages, row.filter, cursor) == Unseen(before.messages, row.filter, cursor) + Copies(before, after, row)
  {
  }

  lemma PublishAgrees(db: Db, batch: seq<Publish>, now: int, window: int)
    requires Wf(db)
    ensures FanOut(Abstract(db), batch, now, window) ==
      (Abstract(Db(PublishAll(db.core, batch, now, window).0, db.cursors)), PublishedAll(PublishAll(db.core, batch, now, window).1))
  {
    var after := PublishAll(db.core, batch, now, window).0;
    PublishAllAppends(db.core, batch, now, window);
    hide PublishAll;
    var e := FanOut(Abstract(db), batch, now, window).0;
    CursorKeys(db);
    forall c | c in e.pending ensures e.pending[c] == Backlog(Db(after, db.cursors), c) {
      assert CursorOk(db.core, c, db.cursors[c]);
      UnseenGrows(db.core, after, db.core.consumers[c], db.cursors[c]);
    }
    hide Wf, Appended, Unseen, Copies;
    AbstractIs(Db(after, db.cursors), e.pending);
  }

  // ---- Claiming -------------------------------------------------------------------------

  /** A claim takes the lowest copies of one inbox and leaves the rest, whatever the cursor did. */
  lemma ClaimBacklog(db: Db, cid: nat, max: nat, now: int, deadline: int)
    requires Wf(db) && cid in db.core.consumers
    ensures var retries, after := Retries(db.core, cid, max, now), Claim(db, cid, max, now, deadline);
      var taken := Scan(db.core.messages, db.core.consumers[cid].filter, db.cursors[cid], max - |retries|).0;
      && taken == Lowest(Backlog(db, cid), max - |retries|)
      && (after.0.core, after.1) == LeaseOut(db.core, cid, retries, taken, deadline) && after.1.Ok?
      && after.0.core.consumers == db.core.consumers && after.0.cursors.Keys == db.cursors.Keys
      && (forall c | c in db.cursors :: Backlog(after.0, c) == if c == cid then Backlog(db, c) - taken else Backlog(db, c))
  {
    hide Wf, Claim, LeaseOut, Retries, Scan, Claimable, LeaseRows, Unseen, Lowest;
    CursorKeys(db);
    ClaimKept(db, cid, max, now, deadline);
    RetriesVisible(db.core, cid, max, now);
    ScanTakes(db, cid, max - |Retries(db.core, cid, max, now)|);
  }

  /** A scan of a consumer's log takes the lowest ids of its inbox. */
  lemma ScanTakes(db: Db, cid: nat, n: nat)
    requires Wf(db) && cid in db.core.consumers
    ensures cid in db.cursors
    ensures var (taken, scan) := Scan(db.core.messages, db.core.consumers[cid].filter, db.cursors[cid], n);
      && taken == Lowest(Backlog(db, cid), n)
      && Unseen(db.core.messages, db.core.consumers[cid].filter, db.cursors[cid].(scan := scan)) == Backlog(db, cid) - taken
  {
    hide Wf, Scan, Unseen, Lowest;
    CursorKeys(db);
    CursorInOrder(db, cid);
    ScanTakesLowest(db.core.messages, db.core.consumers[cid].filter, db.cursors[cid], n);
  }

  lemma CursorInOrder(db: Db, cid: nat)
    requires Wf(db) && cid in db.cursors
    ensures db.cursors[cid].drain.Some? ==> db.cursors[cid].scan <= db.cursors[cid].drain.value
  {
    assert CursorOk(db.core, cid, db.cursors[cid]);
  }

  lemma DeliverIs(e: Eager, cid: nat, max: nat, now: int, deadline: int, taken: set<nat>)
    requires cid in e.core.consumers && cid in e.pending
    requires taken == Lowest(e.pending[cid], max - |Retries(e.core, cid, max, now)|)
    requires LeaseOut(e.core, cid, Retries(e.core, cid, max, now), taken, deadline).1.Ok?
    ensures var (core, claimed) := LeaseOut(e.core, cid, Retries(e.core, cid, max, now), taken, deadline);
      Deliver(e, cid, max, now, deadline) == (Eager(core, e.pending[cid := e.pending[cid] - taken]), claimed)
  {
    hide LeaseOut, Retries, Lowest;
  }

  lemma LiveClaimAgrees(db: Db, cid: nat, max: nat, now: int, deadline: int)
    requires Wf(db) && cid in db.core.consumers
    ensures Deliver(Abstract(db), cid, max, now, deadline) == (Abstract(Claim(db, cid, max, now, deadline).0), Claim(db, cid, max, now, deadline).1)
  {
    hide Wf, LeaseOut, Retries, Scan, Backlog, Lowest, Claim, Deliver;
    CursorKeys(db);
    ClaimBacklog(db, cid, max, now, deadline);
    var after := Claim(db, cid, max, now, deadline).0;
    var taken := Lowest(Backlog(db, cid), max - |Retries(db.core, cid, max, now)|);
    DeliverIs(Abstract(db), cid, max, now, deadline, taken);
    AbstractIs(after, Abstract(db).pending[cid := Backlog(db, cid) - taken]);
  }

  lemma ClaimAgrees(db: Db, cid: nat, max: nat, now: int, deadline: int)
    requires Wf(db)
    ensures Deliver(Abstract(db), cid, max, now, deadline) == (Abstract(Claim(db, cid, max, now, deadline).0), Claim(db, cid, max, now, deadline).1)
  {
    hide Wf, LeaseOut, Retries, Scan;
    if cid in db.core.consumers {
      LiveClaimAgrees(db, cid, max, now, deadline);
    }
  }

  // ---- The other transactions -----------------------------------------------------------

  lemma OpenAgrees(db: Db, name: string, filter: Option<string>, now: int)
    requires Wf(db)
    ensures Subscribe(Abstract(db), name, filter, now) == (Abstract(OpenConsumer(db, name, filter, now).0), OpenConsumer(db, name, filter, now).1)
  {
    CursorKeys(db);
    hide FindConsumer;
    if name != "" && FindConsumer(db.core, name).None? {
      var id := db.core.consumerSeq + 1;
      assert id !in db.core.consumers;
      hide Wf;
      AbstractIs(OpenConsumer(db, name, filter, now).0, Subscribe(Abstract(db), name, filter, now).0.pending);
    }
  }

  lemma DrainAgrees(db: Db, cid: nat, now: int)
    requires Wf(db)
    ensures var (core, changed) := MarkDraining(db.core, cid, now);
      (Eager(core, Abstract(db).pending), changed) == (Abstract(BeginDraining(db, cid, now).0), BeginDraining(db, cid, now).1)
  {
    CursorKeys(db);
    if cid in db.core.consumers && db.core.consumers[cid].drainingAt.None? {
      assert CursorOk(db.core, cid, db.cursors[cid]);
      hide Wf;
      AbstractIs(BeginDraining(db, cid, now).0, Abstract(db).pending);
    }
  }

  lemma SnapshotAgrees(db: Db, cid: nat, now: int)
    requires Wf(db)
    ensures Snapshot(db, cid, now) ==
      if cid !in db.core.consumers then Err(ConsumerDeleted) else Ok(SnapshotOf(db.core, cid, Abstract(db).pending[cid], now))
  {
    CursorKeys(db);
    if cid in db.core.consumers {
      assert CursorOk(db.core, cid, db.cursors[cid]);
      WindowIsUnseen(db.core.messages, db.core.consumers[cid].filter, db.cursors[cid]);
      hide Wf, SnapshotOf, Window, Unseen;
    }
  }

  /** Dropping a consumer drops its inbox and no other. */
  lemma DeleteBacklog(db: Db, cid: nat)
    requires Wf(db) && cid in db.core.consumers
    ensures Abstract(Db(Without(db.core, cid), db.cursors - {cid})) == Eager(Without(db.core, cid), Abstract(db).pending - {cid})
  {
    hide Wf, ArchivesOf, Unseen;
    CursorKeys(db);
    AbstractIs(Db(Without(db.core, cid), db.cursors - {cid}), Abstract(db).pending - {cid});
  }

  lemma DeleteAgrees(db: Db, name: string, mode: DeleteMode)
    requires Wf(db)
    ensures Unsubscribe(Abstract(db), name, mode) == (Abstract(DeleteConsumer(db, name, mode).0), DeleteConsumer(db, name, mode).1)
  {
    hide Wf, FindConsumer, Without, DeleteAnswer, Inbox, ArchivesOf, Backlog, Abstract;
    AbstractShares(db);
    if FindConsumer(db.core, name).Some? {
      var id := FindConsumer(db.core, name).value;
      InboxOf(db, id);
      DeleteBacklog(db, id);
    }
  }

  lemma InboxOf(db: Db, c: nat)
    requires c in db.cursors && c in db.core.consumers
    ensures c in Abstract(db).pending && Abstract(db).pending[c] == Backlog(db, c) == Unseen(db.core.messages, db.core.consumers[c].filter, db.cursors[c])
  {
    hide Unseen;
  }

  /** Pruned messages were in no inbox, so no inbox changes. */
  lemma PruneBacklog(db: Db, before: int, limit: nat)
    requires Wf(db)
    ensures var victims, after := Lowest(Prunable(db, before), limit), PruneMessages(db, before, limit);
      && (after.0.core, after.1) == DropMessages(db.core, victims)
      && after.0.core.consumers == db.core.consumers && after.0.cursors == db.cursors
      && (forall c | c in db.cursors :: Backlog(after.0, c) == Backlog(db, c))
  {
    hide Wf, Prunable, DropMessages, Lowest, Unseen;
    PruneIs(db, before, limit);
    var victims := Lowest(Prunable(db, before), limit);
    forall c | c in db.cursors ensures Backlog(PruneMessages(db, before, limit).0, c) == Backlog(db, c) {
      UnawaitedKept(db, victims, c);
    }
  }

  lemma PruneIs(db: Db, before: int, limit: nat)
    requires Wf(db)
    ensures var victims := Lowest(Prunable(db, before), limit);
      && db.cursors.Keys == db.core.consumers.Keys
      && (forall m | m in victims :: !Awaited(db, m))
      && DropMessages(db.core, victims) == (db.core.(messages := db.core.messages - victims), Ok(|victims|))
  {
    hide CoreOk, Lowest, DropMessages;
    DropKept(db.core, Lowest(Prunable(db, before), limit));
  }

  /** Dropping messages a consumer does not await leaves its inbox. */
  lemma UnawaitedKept(db: Db, victims: set<nat>, c: nat)
    requires c in db.cursors && c in db.core.consumers && forall m | m in victims :: !Awaited(db, m)
    ensures Unseen(db.core.messages - victims, db.core.consumers[c].filter, db.cursors[c]) == Unseen(db.core.messages, db.core.consumers[c].filter, db.cursors[c])
  {
    forall m | m in Unseen(db.core.messages, db.core.consumers[c].filter, db.cursors[c]) ensures m !in victims {
      assert Awaited(db, m);
    }
  }

  lemma PruneAgrees(db: Db, before: int, limit: nat)
    requires Wf(db)
    ensures Forget(Abstract(db), before, limit) == (Abstract(PruneMessages(db, before, limit).0), PruneMessages(db, before, limit).1)
  {
    CursorKeys(db);
    IdleIsPrunable(db, before);
    PruneBacklog(db, before, limit);
    hide Wf, Prunable, DropMessages, PruneMessages, Backlog, Held, Lowest;
    AbstractIs(PruneMessages(db, before, limit).0, Abstract(db).pending);
  }

  /** Pruning spares exactly the messages in some inbox, delivery or archive. */
  lemma IdleIsPrunable(db: Db, before: int)
    requires Wf(db)
    ensures Prunable(db, before) ==
      (set m | m in db.core.messages && db.core.messages[m].publishedAt < before && !Held(Abstract(db), m))
  {
    CursorKeys(db);
    hide Wf;
    var pending := Abstract(db).pending;
    forall m ensures Awaited(db, m) <==> exists c | c in pending :: m in pending[c] {
      if c :| c in pending && m in pending[c] {
        assert m in Unseen(db.core.messages, db.core.consumers[c].filter, db.cursors[c]);
      }
      if c :| c in db.cursors && c in db.core.consumers && m in Unseen(db.core.messages, db.core.consumers[c].filter, db.cursors[c]) {
        assert m in pending[c];
      }
    }
  }

  // ---- One step, and whole runs ---------------------------------------------------------

  lemma AbstractShares(db: Db)
    requires Wf(db)
    ensures Abstract(db).core == db.core && Abstract(db).pending.Keys == db.cursors.Keys == db.core.consumers.Keys
  {
  }

  lemma LogAgrees(db: Db, op: Op)
    requires Wf(db) && !OnCore(op)
    ensures Agrees(db, op)
  {
    hide Wf, Abstract, OpenConsumer, BeginDraining, MarkDraining, PublishAll, Claim, Snapshot, SnapshotOf, DeleteConsumer, PruneMessages,
      Subscribe, FanOut, Deliver, Unsubscribe, Forget;
    AbstractShares(db);
    if op.OpenOp? {
      OpenAgrees(db, op.name, op.filter, op.now);
    } else if op.DrainOp? {
      DrainAgrees(db, op.cid, op.now);
    } else if op.PublishOp? {
      PublishAgrees(db, op.batch, op.now, op.window);
    } else if op.ClaimOp? {
      ClaimAgrees(db, op.cid, op.max, op.now, op.now + op.lease);
    } else if op.SnapshotOp? {
      SnapshotAgrees(db, op.cid, op.now);
    } else if op.DeleteOp? {
      DeleteAgrees(db, op.name, op.mode);
    } else if op.PruneOp? {
      PruneAgrees(db, op.before, op.limit);
    }
  }

  /** The simulation: one transaction is one eager step. */
  lemma StepAgrees(db: Db, op: Op)
    requires Wf(db)
    ensures Agrees(db, op)
  {
    hide Wf, Agrees;
    if OnCore(op) {
      OnCoreAgrees(db, op);
    } else {
      LogAgrees(db, op);
    }
  }

  /** Every run of litefan is a run of the eager fan-out with the same results. */
  lemma {:induction false} RunAgrees(db: Db, ops: seq<Op>)
    requires Wf(db)
    ensures EagerRun(Abstract(db), ops) == Abstract(Run(db, ops))
    ensures EagerOutcomes(Abstract(db), ops) == Outcomes(db, ops)
    decreases |ops|
  {
    hide Wf, Step, EagerStep, Abstract;
    if ops != [] {
      StepAgrees(db, ops[0]);
      StepKept(db, ops[0]);
      RunAgrees(Step(db, ops[0]).0, ops[1..]);
    }
  }
}
