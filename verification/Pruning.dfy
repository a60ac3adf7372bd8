/**
 Pruning: invisible to publishers and consumers, even though MAX(id) and the cursors read
 from it may fall; bounded; and convergent.
 */
module Pruning {
  import opened Prelude
  import opened Ranking
  import opened Schema
  import opened Transactions
  import opened Receipts
  import opened Runs
  import opened Invariants
  import opened Fanout
  import opened LazyIsEager

  // ---- States that differ only in what pruning removed ----------------------------------

  ghost predicate SameMessage(x: map<nat, Message>, y: map<nat, Message>, m: nat) {
    m in x && m in y && x[m] == y[m]
  }

  /** All but the log is equal, and the logs agree on every message still held. */
  ghost predicate Alike(a: Eager, b: Eager) {
    && b == Eager(a.core.(messages := b.core.messages), a.pending)
    && forall m | Held(a, m) :: SameMessage(a.core.messages, b.core.messages, m)
  }

  /** The logs agree on every message a delivery or archive refers to. */
  ghost predicate AlikeCore(core: Core, log: map<nat, Message>) {
    forall m | Referenced(core, m) :: SameMessage(core.messages, log, m)
  }

  lemma ArchivedAlike(core: Core, log: map<nat, Message>)
    requires AlikeCore(core, log)
    ensures forall a | a in core.archives :: SameMessage(core.messages, log, core.archives[a].slot.message)
  {
    forall a | a in core.archives ensures SameMessage(core.messages, log, core.archives[a].slot.message) {
      assert Referenced(core, core.archives[a].slot.message);
    }
  }

  lemma PageAlike(core: Core, log: map<nat, Message>, cid: nat, after: nat, limit: nat)
    requires AlikeCore(core, log)
    ensures ArchivePage(core.(messages := log), cid, after, limit) == ArchivePage(core, cid, after, limit)
  {
    hide AlikeCore, Lowest;
    ArchivedAlike(core, log);
    assert ArchivesAfter(core.(messages := log), cid, after) == ArchivesAfter(core, cid, after);
  }

  lemma ListAlike(core: Core, log: map<nat, Message>, cid: nat, after: nat, limit: nat)
    requires AlikeCore(core, log)
    ensures ListArchives(core.(messages := log), cid, after, limit) == ListArchives(core, cid, after, limit)
  {
    hide AlikeCore, ArchivePage, Sorted;
    ArchivedAlike(core, log);
    PageAlike(core, log, cid, after, limit);
  }

  lemma ArchiveAlike(core: Core, log: map<nat, Message>, cid: nat, receipts: seq<Receipt>, archivedAt: int, detail: Option<string>)
    requires CoreOk(core) && CoreOk(core.(messages := log))
    ensures Archive(core.(messages := log), cid, receipts, archivedAt, detail) ==
      (Archive(core, cid, receipts, archivedAt, detail).0.(messages := log), Archive(core, cid, receipts, archivedAt, detail).1)
  {
    hide CoreOk, Hit, MessagesOf, Sorted;
    ArchiveAllowed(core, cid, receipts);
    ArchiveAllowed(core.(messages := log), cid, receipts);
  }

  lemma RedriveAlike(core: Core, log: map<nat, Message>, cid: nat, archiveIds: seq<nat>, visibleAt: int)
    requires CoreOk(core) && CoreOk(core.(messages := log))
    ensures Redrive(core.(messages := log), cid, archiveIds, visibleAt) ==
      (Redrive(core, cid, archiveIds, visibleAt).0.(messages := log), Redrive(core, cid, archiveIds, visibleAt).1)
  {
    hide CoreOk;
    RedriveKept(core, cid, archiveIds, visibleAt);
    RedriveKept(core.(messages := log), cid, archiveIds, visibleAt);
  }

  /** Receipt and archive operations read no more of the log than what is referred to. */
  lemma CoreStepAlike(core: Core, log: map<nat, Message>, op: Op)
    requires CoreOk(core) && CoreOk(core.(messages := log)) && AlikeCore(core, log) && OnCore(op)
    ensures CoreStep(core.(messages := log), op) == (CoreStep(core, op).0.(messages := log), CoreStep(core, op).1)
  {
    hide CoreOk, AlikeCore, Hit, NackChunks, ExtendChunks, Archive, Redrive, ListArchives, PurgeVictims;
    if op.ArchiveOp? {
      ArchiveAlike(core, log, op.cid, op.receipts, op.archivedAt, op.detail);
    } else if op.RedriveOp? {
      RedriveAlike(core, log, op.cid, op.archiveIds, op.visibleAt);
    } else if op.ListOp? {
      ListAlike(core, log, op.cid, op.after, op.limit);
    } else if op.PurgeOp? {
      PurgeAlike(core, log, op.cid, op.before, op.limit);
    }
  }

  lemma PurgeAlike(core: Core, log: map<nat, Message>, cid: nat, before: int, limit: nat)
    ensures PurgeVictims(core.(messages := log), cid, before, limit) == PurgeVictims(core, cid, before, limit)
  {
  }

  lemma OnCoreAlike(a: Eager, b: Eager, op: Op)
    requires EagerWf(a) && EagerWf(b) && Alike(a, b) && OnCore(op)
    ensures EagerStep(a, op).1 == EagerStep(b, op).1 && Alike(EagerStep(a, op).0, EagerStep(b, op).0)
  {
    hide CoreStep, EagerStep, CoreOk, PendingOk;
    EagerOnCore(a, op);
    EagerOnCore(b, op);
    CoreStepAlike(a.core, b.core.messages, op);
    CoreStepKept(a.core, op);
    StillHeld(a, CoreStep(a.core, op).0);
  }

  lemma StillHeld(a: Eager, core: Core)
    requires NoNewCopies(a.core, core)
    ensures forall m | Held(Eager(core, a.pending), m) :: Held(a, m)
  {
    forall m | Referenced(core, m) ensures Referenced(a.core, m) {
      if s :| s in core.deliveries && s.message == m {
        assert Owns(core, s);
      } else {
        var x :| x in core.archives && core.archives[x].slot.message == m;
        assert Owns(core, core.archives[x].slot);
      }
    }
  }

  // ---- Publishing -----------------------------------------------------------------------

  /** Publishing the same batch adds the same messages to both logs. */
  ghost predicate SameGrowth(core: Core, log: map<nat, Message>, after: Core, grown: map<nat, Message>) {
    && (forall m | m in core.messages :: m in after.messages && after.messages[m] == core.messages[m])
    && (forall m | m in log :: m in grown && grown[m] == log[m])
    && (forall m | core.messageSeq < m :: m in after.messages <==> m in grown)
    && (forall m | core.messageSeq < m && m in grown :: grown[m] == after.messages[m])
    && (forall m | m in after.messages && m !in core.messages :: core.messageSeq < m)
    && (forall m | m in grown && m !in log :: core.messageSeq < m)
    && core.messageSeq <= after.messageSeq
  }

  lemma {:induction false} PublishAlike(core: Core, log: map<nat, Message>, batch: seq<Publish>, now: int, window: int) returns (grown: map<nat, Message>)
    requires MessagesOk(core) && MessagesOk(core.(messages := log))
    ensures PublishAll(core.(messages := log), batch, now, window) ==
      (PublishAll(core, batch, now, window).0.(messages := grown), PublishAll(core, batch, now, window).1)
    ensures SameGrowth(core, log, PublishAll(core, batch, now, window).0, grown)
    decreases |batch|
  {
    if batch == [] {
      grown := log;
    } else {
      var n := |batch| - 1;
      var most := PublishAlike(core, log, batch[..n], now, window);
      var before := PublishAll(core, batch[..n], now, window).0;
      grown := PublishOneAlike(before, most, batch[n], now, window);
    }
  }

  lemma PublishOneAlike(core: Core, log: map<nat, Message>, p: Publish, now: int, window: int) returns (grown: map<nat, Message>)
    ensures PublishOne(core.(messages := log), p, now, window) ==
      (PublishOne(core, p, now, window).0.(messages := grown), PublishOne(core, p, now, window).1)
    ensures var after := PublishOne(core, p, now, window).0;
      var id := core.messageSeq + 1;
      || (grown == log && after.messages == core.messages && after.messageSeq == core.messageSeq)
      || (grown == log[id := Message(p.topic, p.body, now)]
          && after.messages == core.messages[id := Message(p.topic, p.body, now)] && after.messageSeq == id)
  {
    var after, outcome := PublishOne(core, p, now, window).0, PublishOne(core, p, now, window).1;
    grown := if outcome.Published? then log[core.messageSeq + 1 := Message(p.topic, p.body, now)] else log;
  }

  lemma CopiesAlike(core: Core, log: map<nat, Message>, after: Core, grown: map<nat, Message>, row: ConsumerRow)
    requires MessagesOk(core) && MessagesOk(core.(messages := log)) && SameGrowth(core, log, after, grown)
    ensures Copies(core.(messages := log), after.(messages := grown), row) == Copies(core, after, row)
    ensures forall m | m in Copies(core, after, row) :: SameMessage(after.messages, grown, m)
  {
  }

  lemma FanOutAlike(a: Eager, b: Eager, batch: seq<Publish>, now: int, window: int)
    requires EagerWf(a) && EagerWf(b) && Alike(a, b)
    ensures FanOut(a, batch, now, window).1 == FanOut(b, batch, now, window).1
    ensures Alike(FanOut(a, batch, now, window).0, FanOut(b, batch, now, window).0)
  {
    hide PublishAll, SameGrowth, Copies, LedgerOk, ConsumersOk, DeliveriesOk, ArchivesOk, Referenced, SameMessage;
    var grown := PublishAlike(a.core, b.core.messages, batch, now, window);
    var after := PublishAll(a.core, batch, now, window).0;
    PublishAllAppends(a.core, batch, now, window);
    forall row ensures Copies(b.core, after.(messages := grown), row) == Copies(a.core, after, row) {
      CopiesAlike(a.core, b.core.messages, after, grown, row);
    }
    var a', b' := FanOut(a, batch, now, window).0, FanOut(b, batch, now, window).0;
    assert b'.pending == a'.pending;
    forall m | Held(a', m) ensures SameMessage(a'.core.messages, grown, m) {
      GrownHeld(a, after, b.core.messages, grown, m);
    }
  }

  /** What is held after a publish was held before or is new, and both logs agree on it. */
  lemma GrownHeld(a: Eager, after: Core, log: map<nat, Message>, grown: map<nat, Message>, m: nat)
    requires EagerWf(a) && MessagesOk(a.core.(messages := log)) && Appended(a.core, after) && SameGrowth(a.core, log, after, grown)
    requires forall k | Held(a, k) :: SameMessage(a.core.messages, log, k)
    requires Referenced(after, m) || exists c | c in a.pending && c in a.core.consumers :: m in a.pending[c] + Copies(a.core, after, a.core.consumers[c])
    ensures SameMessage(after.messages, grown, m)
  {
    if Held(a, m) {
      assert SameMessage(a.core.messages, log, m);
    } else {
      assert !Referenced(a.core, m);
      assert !Referenced(after, m);
      var c :| c in a.pending && c in a.core.consumers && m in a.pending[c] + Copies(a.core, after, a.core.consumers[c]);
      CopiesAlike(a.core, log, after, grown, a.core.consumers[c]);
    }
  }

  // ---- Claiming -------------------------------------------------------------------------

  lemma CollectAlike(core: Core, log: map<nat, Message>, cid: nat, ids: set<nat>)
    requires forall m | m in ids :: Slot(cid, m) in core.deliveries && SameMessage(core.messages, log, m)
    ensures Collect(core.(messages := log), cid, ids) == Collect(core, cid, ids)
  {
    hide Sorted;
    var x, y := Collect(core.(messages := log), cid, ids), Collect(core, cid, ids);
    assert forall m | m in ids :: m in core.messages && m in log;
    assert x.Ok? && y.Ok?;
    var order := Sorted(ids);
    forall i | 0 <= i < |order| ensures x.value[i] == y.value[i] {
      assert order[i] in order;
    }
    assert x.value == y.value;
  }

  lemma LeaseOutAlike(core: Core, log: map<nat, Message>, cid: nat, retries: set<nat>, taken: set<nat>, deadline: int)
    requires forall m | m in retries :: Slot(cid, m) in core.deliveries && SameMessage(core.messages, log, m)
    requires forall m | m in taken :: SameMessage(core.messages, log, m)
    ensures LeaseOut(core.(messages := log), cid, retries, taken, deadline) ==
      (LeaseOut(core, cid, retries, taken, deadline).0.(messages := log), LeaseOut(core, cid, retries, taken, deadline).1)
  {
    hide Collect, LeaseRows;
    CollectAlike(core.(deliveries := LeaseRows(core.deliveries, cid, retries, taken, deadline)), log, cid, retries + taken);
  }

  /** A claim on the eager side hands out held messages, and is never refused. */
  lemma DeliverHeld(e: Eager, cid: nat, max: nat, now: int, deadline: int)
    requires EagerWf(e) && cid in e.core.consumers
    ensures var retries := Retries(e.core, cid, max, now);
      var taken := Lowest(e.pending[cid], max - |retries|);
      && |retries| <= max
      && (forall m | m in retries :: Slot(cid, m) in e.core.deliveries && Held(e, m))
      && (forall m | m in taken :: Held(e, m))
      && LeaseOut(e.core, cid, retries, taken, deadline).1.Ok?
      && LeaseOut(e.core, cid, retries, taken, deadline).0 == e.core.(deliveries := LeaseRows(e.core.deliveries, cid, retries, taken, deadline))
  {
    hide Retries, Lowest, LeaseOut, LeaseRows, CoreOk;
    RetriesVisible(e.core, cid, max, now);
    var retries := Retries(e.core, cid, max, now);
    var taken := Lowest(e.pending[cid], max - |retries|);
    forall m | m in retries ensures Held(e, m) {
      assert Referenced(e.core, m);
    }
    assert Claimable(e.core, cid, retries, taken);
    LeaseOutKept(e.core, cid, retries, taken, deadline);
  }

  lemma DeliverAlike(a: Eager, b: Eager, cid: nat, max: nat, now: int, deadline: int)
    requires EagerWf(a) && EagerWf(b) && Alike(a, b) && cid in a.core.consumers
    ensures Deliver(a, cid, max, now, deadline).1 == Deliver(b, cid, max, now, deadline).1
    ensures Alike(Deliver(a, cid, max, now, deadline).0, Deliver(b, cid, max, now, deadline).0)
  {
    hide Retries, Lowest, LeaseOut, LeaseRows, CoreOk, Held, Deliver, SameMessage;
    DeliverHeld(a, cid, max, now, deadline);
    RetriesAlike(a.core, b.core.messages, cid, max, now);
    var retries := Retries(a.core, cid, max, now);
    var taken := Lowest(a.pending[cid], max - |retries|);
    LeaseOutAlike(a.core, b.core.messages, cid, retries, taken, deadline);
    DeliverIs(a, cid, max, now, deadline, taken);
    DeliverIs(b, cid, max, now, deadline, taken);
    DeliveredHeld(a, cid, retries, taken, deadline);
  }

  lemma RetriesAlike(core: Core, log: map<nat, Message>, cid: nat, max: nat, now: int)
    ensures Retries(core.(messages := log), cid, max, now) == Retries(core, cid, max, now)
  {
  }

  lemma DeliveredHeld(e: Eager, cid: nat, retries: set<nat>, taken: set<nat>, deadline: int)
    requires cid in e.pending && taken <= e.pending[cid]
    ensures var after := Eager(e.core.(deliveries := LeaseRows(e.core.deliveries, cid, retries, taken, deadline)), e.pending[cid := e.pending[cid] - taken]);
      forall m | Held(after, m) :: Held(e, m)
  {
    hide LeaseRows;
    var rows := LeaseRows(e.core.deliveries, cid, retries, taken, deadline);
    forall s | s in rows ensures Held(e, s.message) {
      if s in e.core.deliveries {
        assert Referenced(e.core, s.message);
      }
    }
    var after := Eager(e.core.(deliveries := rows), e.pending[cid := e.pending[cid] - taken]);
    forall m | Held(after, m) ensures Held(e, m) {
      if Referenced(after.core, m) {
        if s :| s in rows && s.message == m {
        } else {
          assert Referenced(e.core, m);
        }
      } else {
        var c :| c in after.pending && m in after.pending[c];
        assert m in e.pending[c];
      }
    }
  }

  // ---- The other steps ------------------------------------------------------------------

  lemma OutstandingHeld(a: Eager, b: Eager, cid: nat)
    requires Alike(a, b) && cid in a.pending
    ensures var ids := Inbox(a.core.deliveries, cid).Keys + a.pending[cid];
      PublishTimes(a.core.messages, ids) == PublishTimes(b.core.messages, ids)
  {
    hide PublishTimes, Inbox;
    var ids := Inbox(a.core.deliveries, cid).Keys + a.pending[cid];
    forall m | m in ids ensures SameMessage(a.core.messages, b.core.messages, m) {
      if Slot(cid, m) in a.core.deliveries {
        assert Referenced(a.core, m);
      }
      assert Held(a, m);
    }
    TimesAlike(a.core.messages, b.core.messages, ids);
  }

  lemma SnapshotAlike(a: Eager, b: Eager, cid: nat, now: int)
    requires Alike(a, b) && cid in a.core.consumers && cid in a.pending
    ensures SnapshotOf(a.core, cid, a.pending[cid], now) == SnapshotOf(b.core, cid, b.pending[cid], now)
  {
    hide Minimum, Visible, LaterVisible, Inbox, PublishTimes, Held, SameMessage;
    OutstandingHeld(a, b, cid);
    assert ArchivesOf(a.core, cid) == ArchivesOf(b.core, cid);
  }

  lemma TimesAlike(x: map<nat, Message>, y: map<nat, Message>, ids: set<nat>)
    requires forall m | m in ids :: SameMessage(x, y, m)
    ensures PublishTimes(x, ids) == PublishTimes(y, ids)
  {
  }

  lemma FindAlike(core: Core, log: map<nat, Message>, name: string)
    ensures FindConsumer(core.(messages := log), name) == FindConsumer(core, name)
  {
    assert Named(core.(messages := log), name) == Named(core, name);
  }

  lemma SubscribeAlike(a: Eager, b: Eager, name: string, filter: Option<string>, now: int)
    requires Alike(a, b)
    ensures Subscribe(a, name, filter, now).1 == Subscribe(b, name, filter, now).1
    ensures Alike(Subscribe(a, name, filter, now).0, Subscribe(b, name, filter, now).0)
  {
    hide FindConsumer;
    FindAlike(a.core, b.core.messages, name);
  }

  lemma DrainAlike(a: Eager, b: Eager, cid: nat, now: int)
    requires Alike(a, b)
    ensures MarkDraining(a.core, cid, now).1 == MarkDraining(b.core, cid, now).1
    ensures Alike(Eager(MarkDraining(a.core, cid, now).0, a.pending), Eager(MarkDraining(b.core, cid, now).0, b.pending))
  {
  }

  lemma UnsubscribeAlike(a: Eager, b: Eager, name: string, mode: DeleteMode)
    requires EagerWf(a) && Alike(a, b)
    ensures Unsubscribe(a, name, mode).1 == Unsubscribe(b, name, mode).1
    ensures Alike(Unsubscribe(a, name, mode).0, Unsubscribe(b, name, mode).0)
  {
    hide FindConsumer, CoreOk, Remove, Held;
    FindAlike(a.core, b.core.messages, name);
    if FindConsumer(a.core, name).Some? {
      var id := FindConsumer(a.core, name).value;
      RemoveAlike(a.core, b.core.messages, id, mode, |a.pending[id]|);
      RemovedHeld(a, id, mode, |a.pending[id]|);
    }
  }

  lemma RemoveAlike(core: Core, log: map<nat, Message>, cid: nat, mode: DeleteMode, unseen: nat)
    requires cid in core.consumers
    ensures Remove(core.(messages := log), cid, mode, unseen) == (Remove(core, cid, mode, unseen).0.(messages := log), Remove(core, cid, mode, unseen).1)
  {
    hide Inbox;
    assert ArchivesOf(core.(messages := log), cid) == ArchivesOf(core, cid);
  }

  lemma RemovedHeld(e: Eager, cid: nat, mode: DeleteMode, unseen: nat)
    requires CoreOk(e.core) && cid in e.core.consumers
    ensures Remove(e.core, cid, mode, unseen).0.messages == e.core.messages
    ensures forall m | Held(Eager(Remove(e.core, cid, mode, unseen).0, e.pending - {cid}), m) :: Held(e, m)
  {
    hide Inbox, CoreOk, Referenced, Owns, DeleteAnswer;
    var (core, removed) := Remove(e.core, cid, mode, unseen);
    WithoutKept(e.core, cid);
    StillHeld(e, core);
    forall m | Held(Eager(core, e.pending - {cid}), m) ensures Held(e, m) {
      FewerPending(core, e.pending, cid, m);
    }
  }

  lemma FewerPending(core: Core, pending: map<nat, set<nat>>, cid: nat, m: nat)
    ensures Held(Eager(core, pending - {cid}), m) ==> Held(Eager(core, pending), m)
  {
    hide Referenced;
  }

  // ---- Runs with and without pruning ----------------------------------------------------

  lemma LogAlike(a: Eager, b: Eager, op: Op)
    requires EagerWf(a) && EagerWf(b) && Alike(a, b) && !OnCore(op) && !op.PruneOp?
    ensures EagerStep(a, op).1 == EagerStep(b, op).1 && Alike(EagerStep(a, op).0, EagerStep(b, op).0)
  {
    hide EagerWf, Alike, Subscribe, MarkDraining, FanOut, Deliver, SnapshotOf, Unsubscribe;
    AlikeShares(a, b);
    if op.OpenOp? {
      SubscribeAlike(a, b, op.name, op.filter, op.now);
    } else if op.DrainOp? {
      DrainAlike(a, b, op.cid, op.now);
    } else if op.PublishOp? {
      FanOutAlike(a, b, op.batch, op.now, op.window);
    } else if op.ClaimOp? {
      ClaimAlike(a, b, op.cid, op.max, op.now, op.now + op.lease);
    } else if op.SnapshotOp? {
      if op.cid in a.core.consumers { SnapshotAlike(a, b, op.cid, op.now); }
    } else if op.DeleteOp? {
      UnsubscribeAlike(a, b, op.name, op.mode);
    }
  }

  lemma AlikeShares(a: Eager, b: Eager)
    requires EagerWf(a) && Alike(a, b)
    ensures EagerWf(a) && a.core.consumers == b.core.consumers && a.pending == b.pending && a.pending.Keys == a.core.consumers.Keys
  {
  }

  lemma ClaimAlike(a: Eager, b: Eager, cid: nat, max: nat, now: int, deadline: int)
    requires EagerWf(a) && EagerWf(b) && Alike(a, b)
    ensures Deliver(a, cid, max, now, deadline).1 == Deliver(b, cid, max, now, deadline).1
    ensures Alike(Deliver(a, cid, max, now, deadline).0, Deliver(b, cid, max, now, deadline).0)
  {
    hide EagerWf, Alike, Retries, LeaseOut, Lowest;
    AlikeShares(a, b);
    if cid in a.core.consumers { DeliverAlike(a, b, cid, max, now, deadline); }
  }

  /** Forgetting idle messages on one side leaves the sides alike. */
  lemma ForgetAlike(a: Eager, b: Eager, before: int, limit: nat)
    requires EagerWf(a) && Alike(a, b)
    ensures Alike(Forget(a, before, limit).0, b)
  {
    hide Lowest, CoreOk, DropMessages, Referenced;
    var idle := set m | m in a.core.messages && a.core.messages[m].publishedAt < before && !Held(a, m);
    var victims := Lowest(idle, limit);
    DropKept(a.core, victims);
    forall m ensures Held(Eager(a.core.(messages := a.core.messages - victims), a.pending), m) <==> Held(a, m) {
      HeldWithoutLog(a, a.core.messages - victims, m);
    }
  }

  /** What is held does not depend on the log. */
  lemma HeldWithoutLog(e: Eager, log: map<nat, Message>, m: nat)
    ensures Held(Eager(e.core.(messages := log), e.pending), m) <==> Held(e, m)
  {
  }

  predicate NotPrune(op: Op) { !op.PruneOp? }

  /** The run without its prune steps. */
  function Unpruned(ops: seq<Op>): seq<Op>
    decreases |ops|
  {
    if ops == [] then [] else (if NotPrune(ops[0]) then [ops[0]] else []) + Unpruned(ops[1..])
  }

  /** What the callers of the other steps are told. */
  function Told(ops: seq<Op>, outcomes: seq<Outcome>): seq<Outcome>
    requires |ops| == |outcomes|
    decreases |ops|
  {
    if ops == [] then [] else (if NotPrune(ops[0]) then [outcomes[0]] else []) + Told(ops[1..], outcomes[1..])
  }

  /** One step on both sides, or a prune on one. */
  lemma StepAlike(x: Db, y: Db, op: Op)
    requires Wf(x) && Wf(y) && Alike(Abstract(x), Abstract(y))
    ensures NotPrune(op) ==> Step(x, op).1 == Step(y, op).1 && Alike(Abstract(Step(x, op).0), Abstract(Step(y, op).0))
    ensures !NotPrune(op) ==> Alike(Abstract(Step(x, op).0), Abstract(y))
  {
    hide Wf, Step, EagerStep, Abstract, Alike, EagerWf, Forget;
    AbstractWf(x);
    AbstractWf(y);
    StepAgrees(x, op);
    StepAgrees(y, op);
    if OnCore(op) {
      OnCoreAlike(Abstract(x), Abstract(y), op);
    } else if NotPrune(op) {
      LogAlike(Abstract(x), Abstract(y), op);
    } else {
      ForgetAlike(Abstract(x), Abstract(y), op.before, op.limit);
      EagerPrune(Abstract(x), op);
    }
  }

  lemma EagerPrune(e: Eager, op: Op)
    requires op.PruneOp?
    ensures EagerStep(e, op).0 == Forget(e, op.before, op.limit).0
  {
    hide Forget;
  }

  lemma {:induction false} RunAlike(x: Db, y: Db, ops: seq<Op>)
    requires Wf(x) && Wf(y) && Alike(Abstract(x), Abstract(y))
    ensures Told(ops, Outcomes(x, ops)) == Outcomes(y, Unpruned(ops))
    ensures Alike(Abstract(Run(x, ops)), Abstract(Run(y, Unpruned(ops))))
    decreases |ops|
  {
    hide Wf, Step, Abstract, Alike, NotPrune;
    if ops != [] {
      StepAlike(x, y, ops[0]);
      StepKept(x, ops[0]);
      StepKept(y, ops[0]);
      var x' := Step(x, ops[0]).0;
      if NotPrune(ops[0]) {
        RunAlike(x', Step(y, ops[0]).0, ops[1..]);
        assert Unpruned(ops) == [ops[0]] + Unpruned(ops[1..]);
      } else {
        RunAlike(x', y, ops[1..]);
        assert Unpruned(ops) == Unpruned(ops[1..]);
      }
    }
  }

  /**
   Prune steps anywhere in a run change nothing any caller of the other steps is told: no
   claim, receipt or publish result and no consumer snapshot.
   */
  lemma PruningIsInvisible(db: Db, ops: seq<Op>)
    requires Wf(db)
    ensures Told(ops, Outcomes(db, ops)) == Outcomes(db, Unpruned(ops))
  {
    hide Wf, Step, Outcomes, Told, Run, Unpruned;
    AlikeItself(db);
    RunAlike(db, db, ops);
  }

  lemma AlikeItself(db: Db)
    requires Wf(db)
    ensures Alike(Abstract(db), Abstract(db))
  {
    AbstractWf(db);
  }
}
