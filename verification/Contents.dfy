/** What consumers are handed is what publishers published, through any run in between. */
module Contents {
  import opened Prelude
  import opened Ranking
  import opened Schema
  import opened Transactions
  import opened Runs
  import opened Invariants
  import opened Idempotency
  import opened Leases

  /** A published message is in the log with its topic, its body and the publisher's clock reading. */
  lemma {:induction false} StoredAsPublished(core: Core, batch: seq<Publish>, now: int, window: int, i: nat)
    requires i < |batch| && PublishAll(core, batch, now, window).1[i].Published?
    ensures var (after, outcomes) := PublishAll(core, batch, now, window); var id := outcomes[i].id;
      && core.messageSeq < id <= after.messageSeq
      && id in after.messages && after.messages[id] == Message(batch[i].topic, batch[i].body, now)
    decreases |batch|
  {
    hide PublishOne;
    var n := |batch| - 1;
    var before := PublishAll(core, batch[..n], now, window).0;
    LogGrows(core, batch[..n], now, window);
    OneStored(before, batch[n], now, window);
    if i < n {
      StoredAsPublished(core, batch[..n], now, window, i);
    }
  }

  lemma OneStored(core: Core, p: Publish, now: int, window: int)
    ensures var (after, outcome) := PublishOne(core, p, now, window);
      && core.messageSeq <= after.messageSeq
      && (forall m | m in core.messages && m <= core.messageSeq :: m in after.messages && after.messages[m] == core.messages[m])
      && (outcome.Published? ==>
            && core.messageSeq < outcome.id <= after.messageSeq && outcome.id in after.messages
            && after.messages[outcome.id] == Message(p.topic, p.body, now))
  {
    hide PurgeExpired;
  }

  /** The messages of a log as it was: what is still there is unchanged. */
  ghost predicate Unaltered(before: Core, after: Core) {
    && before.messageSeq <= after.messageSeq
    && forall m | m in after.messages && m <= before.messageSeq :: m in before.messages && after.messages[m] == before.messages[m]
  }

  lemma StepUnaltered(db: Db, op: Op)
    requires Wf(db)
    ensures Unaltered(db.core, Step(db, op).0.core)
  {
    hide Wf, CoreStep, OpenConsumer, BeginDraining, Claim, Snapshot, DeleteConsumer, PruneMessages, PublishAll, Appended, Unaltered, SameLog;
    if OnCore(op) {
      CoreUntouched(db, op);
      SameUnaltered(db.core, Step(db, op).0.core);
    } else if op.PublishOp? {
      PublishedRows(db, op.batch, op.now, op.window);
      AppendedUnaltered(db.core, PublishAll(db.core, op.batch, op.now, op.window).0);
    } else if op.PruneOp? {
      PruneUnaltered(db, op.before, op.limit);
    } else if op.DeleteOp? {
      DeleteUnaltered(db, op.name, op.mode);
    } else {
      OthersUnaltered(db, op);
    }
  }

  lemma SameUnaltered(a: Core, b: Core)
    requires SameLog(a, b)
    ensures Unaltered(a, b)
  {
  }

  lemma AppendedUnaltered(a: Core, b: Core)
    requires Appended(a, b)
    ensures Unaltered(a, b)
  {
  }

  lemma PruneUnaltered(db: Db, before: int, limit: nat)
    ensures Unaltered(db.core, PruneMessages(db, before, limit).0.core)
  {
    hide Prunable, Lowest;
  }

  lemma DeleteUnaltered(db: Db, name: string, mode: DeleteMode)
    ensures Unaltered(db.core, DeleteConsumer(db, name, mode).0.core)
  {
    hide FindConsumer, Inbox, ArchivesOf, Unseen;
  }

  lemma OthersUnaltered(db: Db, op: Op)
    requires op.OpenOp? || op.DrainOp? || op.ClaimOp? || op.SnapshotOp?
    ensures Unaltered(db.core, Step(db, op).0.core)
  {
    hide FindConsumer, HighWater, Retries, Scan, LeaseRows, Collect, Snapshot;
    if op.ClaimOp? {
      RetriesVisible(db.core, op.cid, op.max, op.now);
    }
  }

  lemma {:induction false} RunUnaltered(db: Db, ops: seq<Op>)
    requires Wf(db)
    ensures Unaltered(db.core, Run(db, ops).core)
    decreases |ops|
  {
    hide Wf, Step;
    if ops != [] {
      StepUnaltered(db, ops[0]);
      StepKept(db, ops[0]);
      RunUnaltered(Step(db, ops[0]).0, ops[1..]);
    }
  }

  /**
   Whoever is handed a message, in whatever later state, is handed the topic, the body and
   the time it was published with: ids are never reused and messages never rewritten.
   */
  lemma DeliveredAsPublished(db: Db, first: Op, i: nat, between: seq<Op>, second: Op, j: nat)
    requires Wf(db) && first.PublishOp? && second.ClaimOp? && i < |first.batch|
    requires PublishAll(db.core, first.batch, first.now, first.window).1[i].Published?
    requires var claimed := Claim(Run(Step(db, first).0, between), second.cid, second.max, second.now, second.now + second.lease).1;
      && claimed.Ok? && j < |claimed.value|
      && claimed.value[j].id == PublishAll(db.core, first.batch, first.now, first.window).1[i].id
    ensures Claim(Run(Step(db, first).0, between), second.cid, second.max, second.now, second.now + second.lease).1.value[j].message
      == Message(first.batch[i].topic, first.batch[i].body, first.now)
  {
    hide Wf, PublishAll, Run, Claim, Handed, Sorted, Honoured;
    var start := Step(db, first).0;
    var end := Run(start, between);
    StepKept(db, first);
    RunKept(start, between);
    StoredAsPublished(db.core, first.batch, first.now, first.window, i);
    RunUnaltered(start, between);
    OnlyLiveClaims(end, second.cid, second.max, second.now, second.now + second.lease);
    ClaimHandsOut(end, second);
    ClaimKeepsLog(end, second.cid, second.max, second.now, second.now + second.lease);
  }

  lemma OnlyLiveClaims(db: Db, cid: nat, max: nat, now: int, deadline: int)
    ensures cid !in db.core.consumers ==> Claim(db, cid, max, now, deadline).1 == Err(ConsumerDeleted)
  {
  }

  lemma ClaimKeepsLog(db: Db, cid: nat, max: nat, now: int, deadline: int)
    ensures Claim(db, cid, max, now, deadline).0.core.messages == db.core.messages
  {
    hide Retries, Scan, LeaseRows, Collect;
    RetriesVisible(db.core, cid, max, now);
  }
}
