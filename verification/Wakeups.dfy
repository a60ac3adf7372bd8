/**
 Long polling: which transactions can give a consumer something to claim, that each of them
 announces it, and why a poller that marks its receivers seen before it reads never sleeps
 through one.
 */
module Wakeups {
  import opened Prelude
  import opened Ranking
  import opened Schema
  import opened Transactions
  import opened Receipts
  import opened Runs
  import opened Invariants
  import opened Fanout
  import opened LazyIsEager
  import opened Leases
  import opened Backlogs
  import opened Claims
  import Idempotency

  // ---- Announcements --------------------------------------------------------------------

  datatype Notice = PublishNotice(topics: set<Option<string>>) | ConsumerNotice(id: nat)

  /** The notice goes to one of the two signals a handle subscribes to. */
  predicate Reaches(n: Notice, cid: nat, filter: Option<string>) {
    match n
    case PublishNotice(topics) => filter.None? || filter in topics
    case ConsumerNotice(id) => id == cid
  }

  /** The topics of the messages a batch actually published. */
  function PublishedTopics(batch: seq<Publish>, outcomes: seq<PublishOutcome>): set<Option<string>>
    requires |outcomes| == |batch|
  {
    set i | 0 <= i < |batch| && outcomes[i].Published? :: batch[i].topic
  }

  function Applied(moved: Result<BatchResult>): nat {
    if moved.Ok? then moved.value.applied else 0
  }

  /** What the caller notifies once its transaction has committed. */
  function Announces(db: Db, op: Op): Option<Notice> {
    match op
    case PublishOp(batch, now, window) =>
      var topics := PublishedTopics(batch, PublishAll(db.core, batch, now, window).1);
      if topics == {} then None else Some(PublishNotice(topics))
    case NackOp(cid, receipts, visibleAt) =>
      if Nack(db.core, cid, receipts, visibleAt).1.applied > 0 then Some(ConsumerNotice(cid)) else None
    case ArchiveOp(cid, receipts, archivedAt, detail) =>
      if Applied(Archive(db.core, cid, receipts, archivedAt, detail).1) > 0 then Some(ConsumerNotice(cid)) else None
    case RedriveOp(cid, archiveIds, visibleAt) =>
      if Applied(Redrive(db.core, cid, archiveIds, visibleAt).1) > 0 then Some(ConsumerNotice(cid)) else None
    case DrainOp(cid, now) =>
      if BeginDraining(db, cid, now).1 == Ok(true) then Some(ConsumerNotice(cid)) else None
    case DeleteOp(name, mode) =>
      var found := FindConsumer(db.core, name);
      if DeleteConsumer(db, name, mode).1.Ok? && found.Some? then Some(ConsumerNotice(found.value)) else None
    case _ => None
  }

  predicate Told(db: Db, op: Op, cid: nat, filter: Option<string>) {
    Announces(db, op).Some? && Reaches(Announces(db, op).value, cid, filter)
  }

  // ---- New work is announced ------------------------------------------------------------

  lemma {:induction false} NewMessageIsPublished(core: Core, batch: seq<Publish>, now: int, window: int, m: nat) returns (i: nat)
    requires m in PublishAll(core, batch, now, window).0.messages && m !in core.messages
    ensures i < |batch| && PublishAll(core, batch, now, window).1[i] == Published(m)
    ensures PublishAll(core, batch, now, window).0.messages[m].topic == batch[i].topic
    decreases |batch|
  {
    var n := |batch| - 1;
    var before := PublishAll(core, batch[..n], now, window).0;
    if m == before.messageSeq + 1 && PublishOne(before, batch[n], now, window).1.Published? {
      i := n;
    } else {
      i := NewMessageIsPublished(core, batch[..n], now, window, m);
    }
  }

  lemma PublishTold(db: Db, op: Op, cid: nat, m: nat)
    requires op.PublishOp? && cid in db.core.consumers
    requires var after := PublishAll(db.core, op.batch, op.now, op.window).0;
      m in after.messages && m !in db.core.messages && Matches(db.core.consumers[cid].filter, after.messages[m].topic)
    ensures Told(db, op, cid, db.core.consumers[cid].filter)
  {
    hide PublishAll;
    var i := NewMessageIsPublished(db.core, op.batch, op.now, op.window, m);
    assert op.batch[i].topic in PublishedTopics(op.batch, PublishAll(db.core, op.batch, op.now, op.window).1);
  }

  /** Only a publish adds to a surviving consumer's unscanned log. */
  lemma UnscannedGrows(db: Db, op: Op, cid: nat, m: nat)
    requires Wf(db) && cid in db.core.consumers && cid in db.cursors
    requires var after := Step(db, op).0;
      cid in after.core.consumers && cid in after.cursors && m in Backlog(after, cid) && m !in Backlog(db, cid)
    ensures op.PublishOp?
    ensures var after := PublishAll(db.core, op.batch, op.now, op.window).0;
      m in after.messages && m !in db.core.messages && Matches(db.core.consumers[cid].filter, after.messages[m].topic)
  {
    hide Wf, Step, EagerStep, Backlog;
    StepAgrees(db, op);
    StepKept(db, op);
    AbstractShares(db);
    AbstractShares(Step(db, op).0);
    AbstractWf(db);
    InboxGrows(Abstract(db), op, cid, m);
  }

  lemma InboxGrows(e: Eager, op: Op, cid: nat, m: nat)
    requires EagerWf(e) && cid in e.core.consumers && cid in e.pending
    requires var after := EagerStep(e, op).0; cid in after.pending && m in after.pending[cid] && m !in e.pending[cid]
    ensures op.PublishOp?
    ensures m in Copies(e.core, PublishAll(e.core, op.batch, op.now, op.window).0, e.core.consumers[cid])
  {
    hide CoreStep, PublishAll, Copies, EagerWf;
    if OnCore(op) {
      EagerOnCore(e, op);
    } else if !op.PublishOp? {
      NamesUnique(e);
      OtherInboxes(e, op, cid);
    }
  }

  lemma OtherInboxes(e: Eager, op: Op, cid: nat)
    requires !OnCore(op) && !op.PublishOp? && ConsumersOk(e.core) && cid in e.core.consumers && cid in e.pending
    ensures var after := EagerStep(e, op).0; cid in after.pending ==> after.pending[cid] <= e.pending[cid]
  {
    hide Retries, LeaseOut, Lowest, FindConsumer, SnapshotOf, Held, Remove, DropMessages, MarkDraining;
    if op.ClaimOp? {
      RetriesVisible(e.core, op.cid, op.max, op.now);
    }
  }

  /** A row that is there after a step and was not before was redriven, or scanned from the unscanned log. */
  lemma NewRow(db: Db, op: Op, s: Slot)
    requires Wf(db) && s !in db.core.deliveries && s in Step(db, op).0.core.deliveries
    ensures Redrives(db, op, s) || (s.consumer in db.core.consumers && s.consumer in db.cursors && s.message in Backlog(db, s.consumer))
  {
    hide Wf, CoreStep, OpenConsumer, BeginDraining, PublishAll, Claim, Snapshot, DeleteConsumer, PruneMessages, Redrives, Backlog;
    if OnCore(op) {
      WfCore(db);
      ReceiptAbsent(db, op, s);
      StepOnCore(db, op);
    } else if op.ClaimOp? {
      NewlyScanned(db, op.cid, op.max, op.now, op.now + op.lease, s);
    } else if op.DeleteOp? {
      DeleteAbsent(db, op.name, op.mode, s);
    } else {
      SameRows(db, op);
    }
  }

  lemma NewlyScanned(db: Db, cid: nat, max: nat, now: int, deadline: int, s: Slot)
    requires Wf(db) && s !in db.core.deliveries && s in Claim(db, cid, max, now, deadline).0.core.deliveries
    ensures s.consumer in db.core.consumers && s.consumer in db.cursors && s.message in Backlog(db, s.consumer)
  {
    hide Wf, Claim, Retries, Scan, Backlog, LeaseOut, Lowest, LeaseRows;
    if cid in db.core.consumers {
      ClaimBacklog(db, cid, max, now, deadline);
      var retries, taken, scan := ClaimIs(db, cid, max, now, deadline);
    } else {
      ClaimDeleted(db, cid, max, now, deadline);
    }
  }

  lemma RedriveTold(db: Db, op: Op, s: Slot, filter: Option<string>)
    requires Wf(db) && Redrives(db, op, s)
    ensures Told(db, op, s.consumer, filter)
  {
    hide CoreOk, SlotsOf, Redrive;
    RedriveKept(db.core, op.cid, op.archiveIds, op.visibleAt);
    var a :| a in Redriven(db.core, op.cid, op.archiveIds) && db.core.archives[a].slot == s;
  }

  lemma NackTold(db: Db, op: Op, s: Slot, filter: Option<string>)
    requires op.NackOp? && s in Hit(db.core.deliveries, op.cid, op.receipts)
    ensures Told(db, op, s.consumer, filter)
  {
    hide NackChunks, NackEffect;
    NackChunksEffect(db.core.deliveries, op.cid, op.receipts, op.visibleAt, RECEIPTS_PER_CHUNK);
  }

  /** A live row becomes visible sooner only through a nack. */
  lemma SoonerVisible(db: Db, op: Op, s: Slot, now: int)
    requires Wf(db) && s in db.core.deliveries && s in Step(db, op).0.core.deliveries && (op.ClaimOp? ==> op.lease >= 0)
    requires Step(db, op).0.core.deliveries[s].visibleAt <= now < db.core.deliveries[s].visibleAt
    ensures op.NackOp? && s in Hit(db.core.deliveries, op.cid, op.receipts)
  {
    hide Wf, Step, Retries, Hit, FindConsumer, DeleteConsumer;
    StepRow(db, op, s);
    if op.ClaimOp? && Touches(db, op, s) {
      TouchedInTime(db, op, s);
    }
  }

  /**
   Whatever a step makes claimable for a surviving consumer, at any clock reading, is
   announced to that consumer.
   */
  lemma WorkIsAnnounced(db: Db, op: Op, cid: nat, now: int, m: nat)
    requires Wf(db) && cid in db.core.consumers && cid in Step(db, op).0.core.consumers && (op.ClaimOp? ==> op.lease >= 0)
    requires cid in db.cursors && cid in Step(db, op).0.cursors
    requires m in Ready(Step(db, op).0, cid, now) && m !in Ready(db, cid, now)
    ensures Told(db, op, cid, db.core.consumers[cid].filter)
  {
    hide Wf, Step, Told, Backlog, Redrives, Hit, PublishAll, Visible;
    var after := Step(db, op).0;
    if m in Backlog(after, cid) {
      UnscannedGrows(db, op, cid, m);
      PublishTold(db, op, cid, m);
    } else {
      var s := Slot(cid, m);
      VisibleRow(after.core.deliveries, cid, now, m);
      VisibleRow(db.core.deliveries, cid, now, m);
      if s in db.core.deliveries {
        SoonerVisible(db, op, s, now);
        HitIsOwn(db.core.deliveries, op.cid, op.receipts, s);
        NackTold(db, op, s, db.core.consumers[cid].filter);
      } else {
        NewRow(db, op, s);
        RedriveTold(db, op, s, db.core.consumers[cid].filter);
      }
    }
  }

  lemma HitIsOwn(deliveries: map<Slot, Lease>, cid: nat, receipts: seq<Receipt>, s: Slot)
    requires s in Hit(deliveries, cid, receipts)
    ensures s.consumer == cid
  {
  }

  lemma VisibleRow(deliveries: map<Slot, Lease>, cid: nat, now: int, m: nat)
    ensures m in Visible(deliveries, cid, now) <==> Slot(cid, m) in deliveries && deliveries[Slot(cid, m)].visibleAt <= now
  {
  }

  // ---- Nothing else is announced --------------------------------------------------------

  /** The notice is of the topics of what was published, and there is one exactly when something was. */
  ghost predicate AnnouncesPublished(batch: seq<Publish>, outcomes: seq<PublishOutcome>, announced: Option<Notice>)
    requires |outcomes| == |batch|
  {
    && (announced.Some? <==> exists i :: 0 <= i < |outcomes| && outcomes[i].Published?)
    && (announced.Some? ==> announced.value.PublishNotice?)
    && (announced.Some? ==> forall t :: t in announced.value.topics <==> (exists i :: 0 <= i < |outcomes| && outcomes[i].Published? && batch[i].topic == t))
  }

  /** An operation announces something exactly when it did something its listeners are to hear of. */
  lemma AnnouncedExactly(db: Db, op: Op)
    requires Wf(db)
    ensures op.PublishOp? ==> AnnouncesPublished(op.batch, PublishAll(db.core, op.batch, op.now, op.window).1, Announces(db, op))
    ensures op.NackOp? || op.ArchiveOp? ==>
      Announces(db, op) == if exists s :: s in db.core.deliveries && s.consumer == op.cid && ReceiptFor(db.core.deliveries, s) in op.receipts then Some(ConsumerNotice(op.cid)) else None
    ensures op.RedriveOp? ==>
      Announces(db, op) == if exists a :: a in db.core.archives && db.core.archives[a].slot.consumer == op.cid && a in op.archiveIds then Some(ConsumerNotice(op.cid)) else None
    ensures op.DrainOp? ==>
      Announces(db, op) == if op.cid in db.core.consumers && db.core.consumers[op.cid].drainingAt.None? then Some(ConsumerNotice(op.cid)) else None
    ensures op.DeleteOp? ==>
      Announces(db, op) == if DeleteConsumer(db, op.name, op.mode).1.Ok? then Some(ConsumerNotice(FindConsumer(db.core, op.name).value)) else None
    ensures op.OpenOp? || op.ClaimOp? || op.AckOp? || op.ExtendOp? || op.PurgeOp? || op.ListOp? || op.SnapshotOp? || op.PruneOp? ==> Announces(db, op) == None
  {
    hide Wf, CoreOk, PublishAll, Nack, Archive, Redrive, BeginDraining, DeleteConsumer, FindConsumer, AnnouncesPublished, PublishedTopics;
    match op
    case PublishOp(batch, now, window) => PublishAnnounced(batch, PublishAll(db.core, batch, now, window).1);
    case NackOp(cid, receipts, visibleAt) => NackAnnounced(db.core, cid, receipts, visibleAt);
    case ArchiveOp(cid, receipts, archivedAt, detail) =>
      WfCore(db);
      ArchiveAnnounced(db.core, cid, receipts, archivedAt, detail);
    case RedriveOp(cid, archiveIds, visibleAt) =>
      WfCore(db);
      RedriveAnnounced(db.core, cid, archiveIds, visibleAt);
    case DrainOp(cid, now) => DrainAnnounced(db, cid, now);
    case DeleteOp(name, mode) => DeleteAnnounced(db, name, mode);
    case _ =>
  }

  lemma PublishAnnounced(batch: seq<Publish>, outcomes: seq<PublishOutcome>)
    requires |outcomes| == |batch|
    ensures var topics := PublishedTopics(batch, outcomes);
      AnnouncesPublished(batch, outcomes, if topics == {} then None else Some(PublishNotice(topics)))
  {
    var topics := PublishedTopics(batch, outcomes);
    forall i | 0 <= i < |outcomes| && outcomes[i].Published? ensures batch[i].topic in topics {}
    if topics != {} {
      var t :| t in topics;
      var i :| 0 <= i < |outcomes| && outcomes[i].Published? && batch[i].topic == t;
    }
  }

  lemma NackAnnounced(core: Core, cid: nat, receipts: seq<Receipt>, visibleAt: int)
    ensures Nack(core, cid, receipts, visibleAt).1.applied > 0 <==> exists s :: s in core.deliveries && s.consumer == cid && ReceiptFor(core.deliveries, s) in receipts
  {
    hide NackChunks, NackEffect;
    NackChunksEffect(core.deliveries, cid, receipts, visibleAt, RECEIPTS_PER_CHUNK);
    SomeHit(core.deliveries, cid, receipts);
  }

  lemma SomeHit(rows: map<Slot, Lease>, cid: nat, receipts: seq<Receipt>)
    ensures Hit(rows, cid, receipts) != {} <==> exists s :: s in rows && s.consumer == cid && ReceiptFor(rows, s) in receipts
  {
    if s :| s in rows && s.consumer == cid && ReceiptFor(rows, s) in receipts {
      assert s in Hit(rows, cid, receipts);
    }
  }

  lemma ArchiveAnnounced(core: Core, cid: nat, receipts: seq<Receipt>, archivedAt: int, detail: Option<string>)
    requires CoreOk(core)
    ensures Applied(Archive(core, cid, receipts, archivedAt, detail).1) > 0 <==> exists s :: s in core.deliveries && s.consumer == cid && ReceiptFor(core.deliveries, s) in receipts
  {
    hide CoreOk, Archive, Hit;
    ArchiveKept(core, cid, receipts, archivedAt, detail);
    SomeHit(core.deliveries, cid, receipts);
  }

  lemma RedriveAnnounced(core: Core, cid: nat, archiveIds: seq<nat>, visibleAt: int)
    requires CoreOk(core)
    ensures Applied(Redrive(core, cid, archiveIds, visibleAt).1) > 0 <==> exists a :: a in core.archives && core.archives[a].slot.consumer == cid && a in archiveIds
  {
    hide CoreOk, Redrive;
    RedriveKept(core, cid, archiveIds, visibleAt);
    if a :| a in core.archives && core.archives[a].slot.consumer == cid && a in archiveIds {
      assert a in Redriven(core, cid, archiveIds);
    }
  }

  lemma DrainAnnounced(db: Db, cid: nat, now: int)
    ensures BeginDraining(db, cid, now).1 == Ok(true) <==> cid in db.core.consumers && db.core.consumers[cid].drainingAt.None?
  {
    hide HighWater;
  }

  lemma DeleteAnnounced(db: Db, name: string, mode: DeleteMode)
    ensures DeleteConsumer(db, name, mode).1.Ok? ==> FindConsumer(db.core, name).Some?
  {
    hide FindConsumer, Inbox, ArchivesOf, Unseen, Without, DeleteAnswer;
  }

  // ---- The protocol of a poller ---------------------------------------------------------

  datatype Phase = Marking | Reading | Sleeping

  /**
   One poller among any writers. `publishes` and `changes` are the versions of its two
   signals, `seenPublishes` and `seenChanges` those of its receivers, `pending` the notices of
   writers of its process that have committed and not notified yet. `since` are the states the
   tables have been in since the receivers were last marked, or since a writer of another
   process, which cannot notify this one, has committed.
   */
  datatype Poller = Poller(
    db: Db, since: set<Db>, phase: Phase,
    publishes: nat, seenPublishes: nat, changes: nat, seenChanges: nat,
    pending: multiset<Notice>)

  datatype Event =
    | Mark                 // borrow_and_update on both receivers
    | Read                 // the last read of an empty claim
    | Wake                 // a change, or the timer
    | Commit(op: Op)       // a transaction of this process
    | Foreign(op: Op)      // a transaction of another process
    | Notify(n: Notice)    // a committed writer gets round to its notice

  predicate Enabled(p: Poller, e: Event) {
    match e
    case Mark => p.phase.Marking?
    case Read => p.phase.Reading?
    case Wake => p.phase.Sleeping?
    case Commit(op) => op.ClaimOp? ==> op.lease >= 0
    case Foreign(op) => true
    case Notify(n) => n in p.pending
  }

  function Next(p: Poller, cid: nat, filter: Option<string>, e: Event): Poller {
    match e
    case Mark => p.(phase := Reading, since := {p.db}, seenPublishes := p.publishes, seenChanges := p.changes)
    case Read => p.(phase := Sleeping)
    case Wake => p.(phase := Marking)
    case Commit(op) =>
      var announced, after := Announces(p.db, op), Step(p.db, op).0;
      p.(db := after, since := p.since + {after}, pending := p.pending + (if announced.Some? then multiset{announced.value} else multiset{}))
    case Foreign(op) =>
      var after := Step(p.db, op).0;
      p.(db := after, since := {after})
    case Notify(n) =>
      var sent := p.(pending := p.pending - multiset{n});
      if !Reaches(n, cid, filter) then sent
      else if n.PublishNotice? then sent.(publishes := p.publishes + 1)
      else sent.(changes := p.changes + 1)
  }

  predicate Changed(p: Poller) {
    p.seenPublishes != p.publishes || p.seenChanges != p.changes
  }

  predicate NoticeComing(p: Poller, cid: nat, filter: Option<string>) {
    exists n | n in p.pending :: Reaches(n, cid, filter)
  }

  /** Ready copies of a consumer, none once it is deleted. */
  function ReadyNow(db: Db, cid: nat, now: int): set<nat> {
    if cid in db.core.consumers && cid in db.cursors then Ready(db, cid, now) else {}
  }

  /** At every clock reading, whatever is ready in `db` was ready in `past`. */
  ghost predicate NoNewWork(past: Db, db: Db, cid: nat) {
    forall now :: ReadyNow(db, cid, now) <= ReadyNow(past, cid, now)
  }

  predicate IsDraining(db: Db, cid: nat) {
    cid in db.core.consumers && db.core.consumers[cid].drainingAt.Some?
  }

  /** Since `past` nothing has become ready, no draining has begun, and the consumer has not been deleted. */
  ghost predicate NoNews(past: Db, db: Db, cid: nat) {
    && NoNewWork(past, db, cid)
    && (IsDraining(db, cid) ==> IsDraining(past, cid))
    && (cid in past.core.consumers ==> cid in db.core.consumers)
  }

  /** There is no news since any of those states. */
  ghost predicate NoNewsSince(since: set<Db>, db: Db, cid: nat) {
    forall past | past in since :: NoNews(past, db, cid)
  }

  ghost predicate PollerOk(p: Poller, cid: nat, filter: Option<string>) {
    && Wf(p.db) && cid <= p.db.core.consumerSeq
    && (cid in p.db.core.consumers ==> p.db.core.consumers[cid].filter == filter)
    && p.seenPublishes <= p.publishes && p.seenChanges <= p.changes
    && (!p.phase.Marking? ==> NoNewsSince(p.since, p.db, cid) || NoticeComing(p, cid, filter) || Changed(p))
  }

  // ---- Consumer rows --------------------------------------------------------------------

  /** The step is the one that begins to drain the consumer. */
  predicate BeginsDraining(db: Db, op: Op, c: nat) {
    op.DrainOp? && op.cid == c && BeginDraining(db, c, op.now).1 == Ok(true)
  }

  /** The step is the one that deletes the consumer. */
  predicate Deletes(db: Db, op: Op, c: nat) {
    op.DeleteOp? && FindConsumer(db.core, op.name) == Some(c) && DeleteConsumer(db, op.name, op.mode).1.Ok?
  }

  /** What one step may do to the row of a consumer there has been: nothing, drain it, or delete it. */
  ghost predicate RowFollows(db: Db, op: Op, after: map<nat, ConsumerRow>, c: nat) {
    var before := db.core.consumers;
    && (c in after ==> c in before && after[c] == if BeginsDraining(db, op, c) then before[c].(drainingAt := Some(op.now)) else before[c])
    && (c in before && c !in after ==> Deletes(db, op, c))
  }

  lemma ConsumerRowStep(db: Db, op: Op, c: nat)
    requires Wf(db) && c <= db.core.consumerSeq
    ensures RowFollows(db, op, Step(db, op).0.core.consumers, c)
  {
    hide Wf, CoreStep, OpenConsumer, BeginDraining, PublishAll, Claim, Snapshot, DeleteConsumer, PruneMessages, Appended, SameLog, RowFollows;
    if OnCore(op) {
      Idempotency.CoreUntouched(db, op);
      SameConsumers(db.core, Step(db, op).0.core);
      RowStays(db, op, c);
    } else if op.PublishOp? {
      PublishedRows(db, op.batch, op.now, op.window);
      SameConsumersAppended(db.core, PublishAll(db.core, op.batch, op.now, op.window).0);
      RowStays(db, op, c);
    } else if op.ClaimOp? {
      ClaimKeepsRows(db, op.cid, op.max, op.now, op.now + op.lease);
      RowStays(db, op, c);
    } else if op.DeleteOp? {
      DeleteRowFollows(db, op, c);
    } else {
      OtherRowFollows(db, op, c);
    }
  }

  lemma RowStays(db: Db, op: Op, c: nat)
    requires !op.DrainOp?
    ensures RowFollows(db, op, db.core.consumers, c)
  {
  }

  lemma ClaimKeepsRows(db: Db, cid: nat, max: nat, now: int, deadline: int)
    requires Wf(db)
    ensures Claim(db, cid, max, now, deadline).0.core.consumers == db.core.consumers
  {
    hide Wf, Claim, Retries, Scan, LeaseRows;
    if cid in db.core.consumers {
      var retries, taken, scan := ClaimIs(db, cid, max, now, deadline);
    } else {
      ClaimDeleted(db, cid, max, now, deadline);
    }
  }

  lemma DeleteRowFollows(db: Db, op: Op, c: nat)
    requires op.DeleteOp?
    ensures RowFollows(db, op, DeleteConsumer(db, op.name, op.mode).0.core.consumers, c)
  {
    hide DeleteConsumer, FindConsumer, Without;
    if DeleteConsumer(db, op.name, op.mode).1.Ok? {
      DeletedIs(db, op.name, op.mode);
      WithoutRow(db.core, FindConsumer(db.core, op.name).value);
    } else {
      DeleteRefused(db, op.name, op.mode);
    }
  }

  lemma WithoutRow(core: Core, c: nat)
    ensures Without(core, c).consumers == core.consumers - {c}
  {
  }

  lemma OtherRowFollows(db: Db, op: Op, c: nat)
    requires c <= db.core.consumerSeq && (op.OpenOp? || op.DrainOp? || op.SnapshotOp? || op.PruneOp?)
    ensures RowFollows(db, op, Step(db, op).0.core.consumers, c)
  {
    hide OpenConsumer, BeginDraining, Snapshot, PruneMessages, RowFollows;
    if op.OpenOp? {
      OpenRowFollows(db, op, c);
    } else if op.DrainOp? {
      DrainRowFollows(db, op, c);
    } else if op.PruneOp? {
      PruneKeepsRows(db, op.before, op.limit);
      RowStays(db, op, c);
    } else {
      RowStays(db, op, c);
    }
  }

  lemma OpenRowFollows(db: Db, op: Op, c: nat)
    requires c <= db.core.consumerSeq && op.OpenOp?
    ensures RowFollows(db, op, OpenConsumer(db, op.name, op.filter, op.now).0.core.consumers, c)
  {
    hide FindConsumer, HighWater, DeleteConsumer;
  }

  lemma DrainRowFollows(db: Db, op: Op, c: nat)
    requires op.DrainOp?
    ensures RowFollows(db, op, BeginDraining(db, op.cid, op.now).0.core.consumers, c)
  {
    hide HighWater, DeleteConsumer;
  }

  lemma PruneKeepsRows(db: Db, before: int, limit: nat)
    ensures PruneMessages(db, before, limit).0.core.consumers == db.core.consumers
  {
    hide Prunable, Lowest;
  }

  /** A surviving consumer keeps its filter, and a deleted one its absence. */
  lemma FilterFixed(db: Db, op: Op, cid: nat)
    requires Wf(db) && cid <= db.core.consumerSeq && cid in Step(db, op).0.core.consumers
    ensures cid in db.core.consumers && Step(db, op).0.core.consumers[cid].filter == db.core.consumers[cid].filter
  {
    hide Wf, Step;
    ConsumerRowStep(db, op, cid);
  }

  /** The beginning of draining and deletion are announced to the consumer they are about. */
  lemma StateChangesAreAnnounced(db: Db, op: Op, cid: nat, filter: Option<string>)
    requires Wf(db) && cid <= db.core.consumerSeq && !Told(db, op, cid, filter)
    ensures IsDraining(Step(db, op).0, cid) ==> IsDraining(db, cid)
    ensures cid in db.core.consumers ==> cid in Step(db, op).0.core.consumers
  {
    hide Wf, Step, FindConsumer, BeginDraining, DeleteConsumer;
    ConsumerRowStep(db, op, cid);
  }

  lemma CommitOk(p: Poller, cid: nat, filter: Option<string>, op: Op)
    requires PollerOk(p, cid, filter) && Enabled(p, Commit(op))
    ensures PollerOk(Next(p, cid, filter, Commit(op)), cid, filter)
  {
    hide Wf, Step, Announces, Reaches, NoNewsSince;
    var q := Next(p, cid, filter, Commit(op));
    RowKept(p.db, op, cid, filter);
    if !p.phase.Marking? {
      if NoticeComing(p, cid, filter) {
        var n :| n in p.pending && Reaches(n, cid, filter);
        assert n in q.pending;
      } else if NoNewsSince(p.since, p.db, cid) {
        if Told(p.db, op, cid, filter) {
          assert Announces(p.db, op).value in q.pending;
        } else {
          QuietStep(p.db, op, cid, filter);
          OneMoreState(p.since, p.db, q.db, cid);
        }
      }
    }
  }

  /** Whoever commits, the consumer keeps its filter as long as it is there. */
  lemma RowKept(db: Db, op: Op, cid: nat, filter: Option<string>)
    requires Wf(db) && cid <= db.core.consumerSeq && (cid in db.core.consumers ==> db.core.consumers[cid].filter == filter)
    ensures var after := Step(db, op).0;
      && Wf(after) && cid <= after.core.consumerSeq
      && (cid in after.core.consumers ==> after.core.consumers[cid].filter == filter)
  {
    hide Wf, Step, Onward;
    StepKept(db, op);
    StepOnward(db, op);
    SequenceOnward(db, Step(db, op).0);
    if cid in Step(db, op).0.core.consumers {
      FilterFixed(db, op, cid);
    }
  }

  lemma OneMoreState(since: set<Db>, db: Db, after: Db, cid: nat)
    requires NoNewsSince(since, db, cid) && NoNews(db, after, cid)
    ensures NoNewsSince(since + {after}, after, cid)
  {
    hide NoNews;
    NoNewsYet(after, cid);
    forall past | past in since ensures NoNews(past, after, cid) {
      NoNewsTwice(past, db, after, cid);
    }
  }

  lemma NoNewsYet(db: Db, cid: nat)
    ensures NoNews(db, db, cid)
  {
  }

  lemma NoNewsTwice(past: Db, db: Db, after: Db, cid: nat)
    requires NoNews(past, db, cid) && NoNews(db, after, cid)
    ensures NoNews(past, after, cid)
  {
    hide ReadyNow, IsDraining;
  }

  /** Nothing announces a commit of another process: only news after it is told. */
  lemma ForeignOk(p: Poller, cid: nat, filter: Option<string>, op: Op)
    requires PollerOk(p, cid, filter)
    ensures PollerOk(Next(p, cid, filter, Foreign(op)), cid, filter)
  {
    hide Wf, Step, NoNews, Reaches;
    RowKept(p.db, op, cid, filter);
    NoNewsYet(Step(p.db, op).0, cid);
  }

  lemma MarkOk(p: Poller, cid: nat, filter: Option<string>)
    requires PollerOk(p, cid, filter)
    ensures PollerOk(Next(p, cid, filter, Mark), cid, filter)
  {
    hide Wf, NoNews;
    NoNewsYet(p.db, cid);
  }

  lemma SequenceOnward(before: Db, after: Db)
    requires Onward(before, after)
    ensures before.core.consumerSeq <= after.core.consumerSeq
  {
  }

  /** A step that does not tell the poller is no news for it. */
  lemma QuietStep(db: Db, op: Op, cid: nat, filter: Option<string>)
    requires Wf(db) && cid <= db.core.consumerSeq && (op.ClaimOp? ==> op.lease >= 0)
    requires cid in db.core.consumers ==> db.core.consumers[cid].filter == filter
    requires !Told(db, op, cid, filter)
    ensures NoNews(db, Step(db, op).0, cid)
  {
    hide Wf, Step, Told, Ready, IsDraining;
    var after := Step(db, op).0;
    StepKept(db, op);
    CursorKeys(db);
    CursorKeys(after);
    StateChangesAreAnnounced(db, op, cid, filter);
    if cid in after.core.consumers {
      FilterFixed(db, op, cid);
      forall now ensures ReadyNow(after, cid, now) <= ReadyNow(db, cid, now) {
        forall m | m in Ready(after, cid, now) ensures m in Ready(db, cid, now) {
          if m !in Ready(db, cid, now) {
            WorkIsAnnounced(db, op, cid, now, m);
          }
        }
      }
    }
  }

  lemma NotifyOk(p: Poller, cid: nat, filter: Option<string>, n: Notice)
    requires PollerOk(p, cid, filter) && Enabled(p, Notify(n))
    ensures PollerOk(Next(p, cid, filter, Notify(n)), cid, filter)
  {
    hide Wf, NoNewsSince, Reaches;
    var q := Next(p, cid, filter, Notify(n));
    if NoticeComing(p, cid, filter) && !Changed(q) {
      var k :| k in p.pending && Reaches(k, cid, filter);
      assert k in q.pending;
    }
  }

  lemma PollerStepOk(p: Poller, cid: nat, filter: Option<string>, e: Event)
    requires PollerOk(p, cid, filter) && Enabled(p, e)
    ensures PollerOk(Next(p, cid, filter, e), cid, filter)
  {
    hide Wf, NoNewsSince, Reaches, Step, Announces;
    match e
    case Mark => MarkOk(p, cid, filter);
    case Commit(op) => CommitOk(p, cid, filter, op);
    case Foreign(op) => ForeignOk(p, cid, filter, op);
    case Notify(n) => NotifyOk(p, cid, filter, n);
    case _ =>
  }

  /** Every event of the trace is possible when its turn comes. */
  predicate Possible(p: Poller, cid: nat, filter: Option<string>, events: seq<Event>)
    decreases |events|
  {
    events == [] || (Enabled(p, events[0]) && Possible(Next(p, cid, filter, events[0]), cid, filter, events[1..]))
  }

  function After(p: Poller, cid: nat, filter: Option<string>, events: seq<Event>): Poller
    decreases |events|
  {
    if events == [] then p else After(Next(p, cid, filter, events[0]), cid, filter, events[1..])
  }

  lemma {:induction false} TraceOk(p: Poller, cid: nat, filter: Option<string>, events: seq<Event>)
    requires PollerOk(p, cid, filter) && Possible(p, cid, filter, events)
    ensures PollerOk(After(p, cid, filter, events), cid, filter)
    decreases |events|
  {
    hide PollerOk, Next, Enabled;
    if events != [] {
      PollerStepOk(p, cid, filter, events[0]);
      TraceOk(Next(p, cid, filter, events[0]), cid, filter, events[1..]);
    }
  }

  /**
   No lost wakeup. However commits, notices and the poller's own steps interleave: if, once its
   receivers are marked, something is ready that was not ready in some state the tables have
   been in since, or draining has begun or the consumer has been deleted since, then a notice
   that reaches it is still to come, or one of its receivers is marked changed and it does not
   sleep on.
   */
  lemma NoLostWakeup(p: Poller, cid: nat, filter: Option<string>, events: seq<Event>, past: Db)
    requires PollerOk(p, cid, filter) && Possible(p, cid, filter, events)
    requires var q := After(p, cid, filter, events); !q.phase.Marking? && past in q.since && !NoNews(past, q.db, cid)
    ensures var q := After(p, cid, filter, events); NoticeComing(q, cid, filter) || Changed(q)
  {
    hide Wf, After, NoNews, NoticeComing, Changed;
    TraceOk(p, cid, filter, events);
  }

  // ---- What is not announced ------------------------------------------------------------

  /**
   Reaching the drained state, on which a poll gives up early, is announced exactly unless an
   acknowledgement reaches it.
   */
  lemma ExhaustionIsAnnounced(db: Db, op: Op, cid: nat)
    requires Wf(db) && cid in db.core.consumers
    requires !FullyDrained(db, cid) && FullyDrained(Step(db, op).0, cid)
    ensures Told(db, op, cid, db.core.consumers[cid].filter) <==> !(op.AckOp? && op.cid == cid)
  {
    hide Wf, Step, FullyDrained, Told;
    ExhaustionIsToldOrAcked(db, op, cid);
    if op.AckOp? {
      AcksAreSilent(db, op, cid, db.core.consumers[cid].filter);
    }
  }

  lemma AcksAreSilent(db: Db, op: Op, cid: nat, filter: Option<string>)
    requires op.AckOp?
    ensures Announces(db, op) == None && !Told(db, op, cid, filter)
  {
  }

  /** A poller that an acknowledgement leaves with nothing to wait for is no nearer to waking than before. */
  lemma AckWakesNobody(p: Poller, cid: nat, filter: Option<string>, op: Op)
    requires op.AckOp?
    ensures var q := Next(p, cid, filter, Commit(op));
      q.phase == p.phase && (NoticeComing(q, cid, filter) <==> NoticeComing(p, cid, filter)) && (Changed(q) <==> Changed(p))
  {
    hide Step, Announces, Reaches;
    AcksAreSilent(p.db, op, cid, filter);
  }

  lemma ExhaustionIsToldOrAcked(db: Db, op: Op, cid: nat)
    requires Wf(db) && cid in db.core.consumers
    requires !FullyDrained(db, cid) && FullyDrained(Step(db, op).0, cid)
    ensures Told(db, op, cid, db.core.consumers[cid].filter) || (op.AckOp? && op.cid == cid)
  {
    hide Wf, Step, FullyDrained, Told, IsDraining, Touches, Backlog;
    CursorKeys(db);
    ConsumersBounded(db);
    DrainedHas(Step(db, op).0, cid);
    if !Told(db, op, cid, db.core.consumers[cid].filter) {
      StateChangesAreAnnounced(db, op, cid, db.core.consumers[cid].filter);
      DrainedMeans(Step(db, op).0, cid);
      if s :| s in db.core.deliveries && s.consumer == cid {
        LastSettled(db, op, s);
      } else {
        NotDrainedYet(db, cid);
        StillUnscanned(db, op, cid);
      }
    }
  }

  lemma DrainedMeans(db: Db, cid: nat)
    requires FullyDrained(db, cid)
    ensures IsDraining(db, cid)
  {
  }

  /** A live row that goes is acknowledged, or the step tells its consumer. */
  lemma LastSettled(db: Db, op: Op, s: Slot)
    requires Wf(db) && s in db.core.deliveries && s !in Step(db, op).0.core.deliveries && s.consumer in db.core.consumers
    ensures Told(db, op, s.consumer, db.core.consumers[s.consumer].filter) || (op.AckOp? && op.cid == s.consumer)
  {
    hide Wf, Step, Hit, Retries, FindConsumer, DeleteConsumer, Archive;
    StepRow(db, op, s);
    if op.AckOp? || op.ArchiveOp? {
      HitIsOwn(db.core.deliveries, op.cid, op.receipts, s);
    }
    if op.ArchiveOp? {
      ArchiveTold(db, op, s, db.core.consumers[s.consumer].filter);
    }
  }

  lemma ArchiveTold(db: Db, op: Op, s: Slot, filter: Option<string>)
    requires Wf(db) && op.ArchiveOp? && s in Hit(db.core.deliveries, op.cid, op.receipts)
    ensures Told(db, op, s.consumer, filter)
  {
    hide CoreOk, Hit, Archive;
    ArchiveKept(db.core, op.cid, op.receipts, op.archivedAt, op.detail);
    HitIsOwn(db.core.deliveries, op.cid, op.receipts, s);
  }

  /** With no rows, unscanned messages stay unscanned or become rows. */
  lemma StillUnscanned(db: Db, op: Op, cid: nat)
    requires Wf(db) && cid in db.core.consumers && cid in db.cursors && Backlog(db, cid) != {}
    ensures var after := Step(db, op).0;
      cid in after.core.consumers && cid in after.cursors ==> Backlog(after, cid) != {} || exists s :: s in after.core.deliveries && s.consumer == cid
  {
    hide Wf, Step, EagerStep, Backlog;
    var after := Step(db, op).0;
    var m :| m in Backlog(db, cid);
    if cid in after.core.consumers && cid in after.cursors {
      if op.ClaimOp? && op.cid == cid {
        TakenIsLive(db, op, m);
      } else {
        ConsumersBounded(db);
        StepAgrees(db, op);
        AbstractShares(db);
        StepKept(db, op);
        AbstractShares(after);
        InboxOf(db, cid);
        InboxOf(after, cid);
        OthersLeaveInbox(Abstract(db), op, cid);
      }
    }
  }

  lemma NotDrainedYet(db: Db, cid: nat)
    requires IsDraining(db, cid) && cid in db.cursors && !FullyDrained(db, cid) && forall s | s in db.core.deliveries :: s.consumer != cid
    ensures Backlog(db, cid) != {}
  {
    if Backlog(db, cid) == {} {
      StillDrained(db, cid);
    }
  }

  /** What a claim removes from the inbox is live afterwards. */
  lemma TakenIsLive(db: Db, op: Op, m: nat)
    requires Wf(db) && op.ClaimOp? && op.cid in db.core.consumers && op.cid in db.cursors && m in Backlog(db, op.cid)
    ensures var after := Step(db, op).0;
      op.cid in after.core.consumers && op.cid in after.cursors && (m in Backlog(after, op.cid) || Slot(op.cid, m) in after.core.deliveries)
  {
    hide Wf, Claim, Retries, Scan, Backlog, LeaseOut, Lowest, LeaseRows;
    ClaimBacklog(db, op.cid, op.max, op.now, op.now + op.lease);
    var retries, taken, scan := ClaimIs(db, op.cid, op.max, op.now, op.now + op.lease);
  }

  lemma OthersLeaveInbox(e: Eager, op: Op, cid: nat)
    requires cid in e.core.consumers && cid <= e.core.consumerSeq && cid in e.pending && !(op.ClaimOp? && op.cid == cid)
    ensures var after := EagerStep(e, op).0; cid in after.core.consumers && cid in after.pending ==> e.pending[cid] <= after.pending[cid]
  {
    hide CoreStep, PublishAll, Copies, Retries, LeaseOut, Lowest, FindConsumer, SnapshotOf, Held, Remove, DropMessages, MarkDraining;
    if OnCore(op) {
      EagerOnCore(e, op);
    } else if op.ClaimOp? {
      RetriesVisible(e.core, op.cid, op.max, op.now);
    }
  }

  // ---- Where a poll starts --------------------------------------------------------------

  /** A poll starts marking, with receivers as new as their signals. */
  lemma PollStarts(db: Db, cid: nat, publishes: nat, changes: nat, pending: multiset<Notice>)
    requires Wf(db) && cid in db.core.consumers
    ensures PollerOk(Poller(db, {}, Marking, publishes, publishes, changes, changes, pending), cid, db.core.consumers[cid].filter)
  {
    ConsumersBounded(db);
  }

  /**
   Why the order matters: a poller that read before it marked could sleep over a publish that
   was committed and notified in between.
   */
  lemma ReadingFirstLosesWakeups(p: Poller, cid: nat, op: Op, now: int, m: nat)
    requires cid in p.db.core.consumers && PollerOk(p, cid, p.db.core.consumers[cid].filter) && p.phase.Reading? && p.pending == multiset{}
    requires op.PublishOp? && Told(p.db, op, cid, p.db.core.consumers[cid].filter)
    requires m !in ReadyNow(p.db, cid, now) && m in ReadyNow(Step(p.db, op).0, cid, now)
    ensures var filter := p.db.core.consumers[cid].filter;
      var read := Next(p, cid, filter, Read);
      var published := Next(Next(read, cid, filter, Commit(op)), cid, filter, Notify(Announces(p.db, op).value));
      var marked := published.(seenPublishes := published.publishes, seenChanges := published.changes);
      && read.db == p.db && Changed(published)
      && marked.phase.Sleeping? && m in ReadyNow(marked.db, cid, now) && m !in ReadyNow(read.db, cid, now)
      && !NoticeComing(marked, cid, filter) && !Changed(marked)
  {
    hide Wf, Step, ReadyNow, Announces, Reaches, NoNewsSince;
    var notice := Announces(p.db, op).value;
    assert multiset{} + multiset{notice} - multiset{notice} == multiset{};
  }
}
