/**
 What each SQLite transaction of litefan does to the tables, as a function of the committed
 state. A failing transaction rolls back, so it returns the state it was given.
 */
module Transactions {
  import opened Prelude
  import opened Ranking
  import opened Schema

  const MAX_SQL_VARIABLES: nat := 999
  const RECEIPTS_PER_CHUNK: nat := (MAX_SQL_VARIABLES - 1) / 3
  const PUBLISHES_PER_CHUNK: nat := MAX_SQL_VARIABLES / 3

  // ---- Values exchanged with callers ----------------------------------------------------

  datatype Publish = Publish(topic: Option<string>, body: Bytes, key: Option<Bytes>)

  datatype PublishOutcome = Published(id: nat) | Duplicate(id: nat)

  datatype Receipt = Receipt(consumer: nat, message: nat, generation: nat)

  datatype Delivery = Delivery(id: nat, message: Message, deliveryCount: nat, receipt: Receipt)

  datatype BatchResult = BatchResult(applied: nat, stale: nat)

  datatype ArchivedDelivery = ArchivedDelivery(
    id: nat, messageId: nat, message: Message, deliveryCount: nat, archivedAt: int, detail: Option<string>)

  datatype ConsumerSnapshot = ConsumerSnapshot(
    name: string, filter: Option<string>, createdAt: int, drainingAt: Option<int>,
    outstanding: nat, ready: nat, nextReadyAt: Option<int>, oldestOutstandingAt: Option<int>, archived: nat)

  datatype DeleteMode = DrainedOnly | DiscardOutstanding | DiscardAll

  datatype DeleteOutcome = DeleteOutcome(discardedDeliveries: nat, discardedArchives: nat)

  function Tally(receipts: nat, applied: nat): BatchResult {
    BatchResult(applied, SaturatingSub(receipts, applied))
  }

  // ---- Publishing -----------------------------------------------------------------------

  /** INSERT INTO litefan_messages: the next AUTOINCREMENT id. */
  function InsertMessage(core: Core, p: Publish, now: int): Core {
    core.(messages := core.messages[core.messageSeq + 1 := Message(p.topic, p.body, now)],
          messageSeq := core.messageSeq + 1)
  }

  /** Deletes every entry whose window has closed. */
  function PurgeExpired(ledger: map<Bytes, LedgerEntry>, now: int): map<Bytes, LedgerEntry> {
    map k | k in ledger && now < ledger[k].expiresAt :: ledger[k]
  }

  /** One message on its own; an entry that already exists keeps its expiry. */
  function PublishOne(core: Core, p: Publish, now: int, window: int): (Core, PublishOutcome) {
    var id := core.messageSeq + 1;
    match p.key
    case None => (InsertMessage(core, p, now), Published(id))
    case Some(k) =>
      var live := PurgeExpired(core.ledger, now);
      if k in live && live[k].messageId.Some? then
        (core.(ledger := live), Duplicate(live[k].messageId.value))
      else
        var expiresAt := if k in live then live[k].expiresAt else now + window;
        (InsertMessage(core, p, now).(ledger := live[k := LedgerEntry(Some(id), expiresAt)]), Published(id))
  }

  /** Left fold of single publishes at one clock reading. */
  function PublishAll(core: Core, batch: seq<Publish>, now: int, window: int): (r: (Core, seq<PublishOutcome>))
    ensures |r.1| == |batch|
  {
    if batch == [] then (core, [])
    else
      var n := |batch| - 1;
      var (before, outcomes) := PublishAll(core, batch[..n], now, window);
      var (after, outcome) := PublishOne(before, batch[n], now, window);
      (after, outcomes + [outcome])
  }

  // ---- Consumers ------------------------------------------------------------------------

  function Named(core: Core, name: string): set<nat> {
    set c | c in core.consumers && core.consumers[c].name == name
  }

  /** SELECT id FROM litefan_consumers WHERE name = ? */
  function FindConsumer(core: Core, name: string): (id: Option<nat>)
    ensures id.Some? ==> id.value in core.consumers && core.consumers[id.value].name == name
    ensures id.None? <==> Named(core, name) == {}
  {
    var named := Named(core, name);
    if named == {} then None else Some(Least(named))
  }

  function OpenConsumer(db: Db, name: string, filter: Option<string>, now: int): (Db, Result<nat>) {
    if name == "" then (db, Err(EmptyConsumerName))
    else
      match FindConsumer(db.core, name)
      case Some(id) =>
        if db.core.consumers[id].filter != filter then (db, Err(ConsumerConfigurationMismatch)) else (db, Ok(id))
      case None =>
        var id := db.core.consumerSeq + 1;
        var core := db.core.(consumers := db.core.consumers[id := ConsumerRow(name, filter, now, None)], consumerSeq := id);
        (Db(core, db.cursors[id := Cursor(HighWater(db.core.messages), None)]), Ok(id))
  }

  /** Records the draining time; false when it was already recorded. */
  function MarkDraining(core: Core, cid: nat, now: int): (Core, Result<bool>) {
    if cid !in core.consumers then (core, Err(ConsumerDeleted))
    else if core.consumers[cid].drainingAt.Some? then (core, Ok(false))
    else (core.(consumers := core.consumers[cid := core.consumers[cid].(drainingAt := Some(now))]), Ok(true))
  }

  function BeginDraining(db: Db, cid: nat, now: int): (Db, Result<bool>) {
    var (core, changed) := MarkDraining(db.core, cid, now);
    if changed == Ok(true) && cid in db.cursors then
      var scan := db.cursors[cid].scan;
      var boundary := if scan < HighWater(db.core.messages) then HighWater(db.core.messages) else scan;
      (Db(core, db.cursors[cid := Cursor(scan, Some(boundary))]), changed)
    else (Db(core, db.cursors), changed)
  }

  // ---- Claiming -------------------------------------------------------------------------

  /** visible_at of this consumer's rows whose visibility time has come. */
  function Visible(deliveries: map<Slot, Lease>, cid: nat, now: int): map<nat, int> {
    var inbox := Inbox(deliveries, cid);
    map m | m in inbox && inbox[m].visibleAt <= now :: inbox[m].visibleAt
  }

  /** Last id the scan may take: the drain boundary, or MAX(id) while active. */
  function ScanLimit(messages: map<nat, Message>, cursor: Cursor): nat {
    match cursor.drain
    case Some(limit) => limit
    case None => HighWater(messages)
  }

  function Bump(lease: Lease, deadline: int): Lease {
    Lease(deadline, lease.generation + 1, lease.deliveryCount + 1)
  }

  /** The rows after one claim: retries leased again, newly scanned ids materialized. */
  function LeaseRows(deliveries: map<Slot, Lease>, cid: nat, retries: set<nat>, taken: set<nat>, deadline: int): (rows: map<Slot, Lease>)
    ensures forall s :: s in rows <==> s in deliveries || (s.consumer == cid && s.message in taken)
  {
    (map s | s in deliveries ::
      if s.consumer == cid && s.message in retries then Bump(deliveries[s], deadline) else deliveries[s])
    + (map m | m in taken :: Slot(cid, m) := Lease(deadline, 1, 1))
  }

  function DeliveryOf(core: Core, cid: nat, m: nat): Delivery
    requires m in core.messages && Slot(cid, m) in core.deliveries
  {
    var lease := core.deliveries[Slot(cid, m)];
    Delivery(m, core.messages[m], lease.deliveryCount, Receipt(cid, m, lease.generation))
  }

  /** The claimed deliveries in id order, or the storage error when a body is missing. */
  function Collect(core: Core, cid: nat, ids: set<nat>): Result<seq<Delivery>>
    requires forall m | m in ids :: Slot(cid, m) in core.deliveries
  {
    if ids <= core.messages.Keys then
      var order := Sorted(ids);
      assert forall i | 0 <= i < |order| :: order[i] in order;
      Ok(seq(|order|, i requires 0 <= i < |order| => DeliveryOf(core, cid, order[i])))
    else Err(StorageInvariant)
  }

  /** Writes one claim: the primary key and both foreign keys guard the insert. */
  function LeaseOut(core: Core, cid: nat, retries: set<nat>, taken: set<nat>, deadline: int): (Core, Result<seq<Delivery>>)
    requires forall m | m in retries :: Slot(cid, m) in core.deliveries
  {
    if cid !in core.consumers || !(taken <= core.messages.Keys) || (exists m | m in taken :: Slot(cid, m) in core.deliveries) then
      (core, Err(ConstraintViolation))
    else
      var after := core.(deliveries := LeaseRows(core.deliveries, cid, retries, taken, deadline));
      (after, Collect(after, cid, retries + taken))
  }

  /** Up to `n` matching messages after the cursor, and where the cursor goes: to the last one taken, or to the limit. */
  function Scan(messages: map<nat, Message>, filter: Option<string>, cursor: Cursor, n: nat): (set<nat>, nat) {
    var limit := ScanLimit(messages, cursor);
    if n > 0 && cursor.scan < limit then
      var taken := Lowest(Window(messages, filter, cursor.scan, limit), n);
      (taken, if |taken| < n then limit else Greatest(taken))
    else ({}, cursor.scan)
  }

  function Retries(core: Core, cid: nat, max: nat, now: int): set<nat> {
    FirstBy(Visible(core.deliveries, cid, now), max)
  }

  /** The locked half of a claim: visible retries first, then the scan, then the cursor. */
  function Claim(db: Db, cid: nat, max: nat, now: int, deadline: int): (Db, Result<seq<Delivery>>) {
    if cid !in db.core.consumers || cid !in db.cursors then (db, Err(ConsumerDeleted))
    else
      var cursor := db.cursors[cid];
      var retries := Retries(db.core, cid, max, now);
      var (taken, scan) := Scan(db.core.messages, db.core.consumers[cid].filter, cursor, max - |retries|);
      var (after, claimed) := LeaseOut(db.core, cid, retries, taken, deadline);
      if claimed == Err(ConstraintViolation) || (cursor.drain.Some? && cursor.drain.value < scan) then
        (db, Err(ConstraintViolation))
      else
        (Db(after, db.cursors[cid := cursor.(scan := scan)]), claimed)
  }

  // ---- Receipts -------------------------------------------------------------------------

  /** Rows selected by: consumer_id = self AND (consumer_id, message_id, generation) IN (...). */
  function Hit(deliveries: map<Slot, Lease>, cid: nat, receipts: seq<Receipt>): set<Slot> {
    set s | s in deliveries && s.consumer == cid && Receipt(s.consumer, s.message, deliveries[s].generation) in receipts
  }

  function Ack(core: Core, cid: nat, receipts: seq<Receipt>): (Core, BatchResult) {
    var hits := Hit(core.deliveries, cid, receipts);
    (core.(deliveries := core.deliveries - hits), Tally(|receipts|, |hits|))
  }

  /** One nack statement: new visibility time, next generation. */
  function NackRows(deliveries: map<Slot, Lease>, cid: nat, receipts: seq<Receipt>, visibleAt: int): map<Slot, Lease> {
    var hits := Hit(deliveries, cid, receipts);
    map s | s in deliveries ::
      if s in hits then Lease(visibleAt, deliveries[s].generation + 1, deliveries[s].deliveryCount) else deliveries[s]
  }

  /** The statements of one nack batch, one per chunk, and the rows they report. */
  function NackChunks(deliveries: map<Slot, Lease>, cid: nat, receipts: seq<Receipt>, visibleAt: int, size: nat): (map<Slot, Lease>, nat)
    requires size > 0
    decreases |receipts|
  {
    if receipts == [] then (deliveries, 0)
    else
      var n := if size < |receipts| then size else |receipts|;
      var (rows, applied) := NackChunks(NackRows(deliveries, cid, receipts[..n], visibleAt), cid, receipts[n..], visibleAt, size);
      (rows, |Hit(deliveries, cid, receipts[..n])| + applied)
  }

  function Nack(core: Core, cid: nat, receipts: seq<Receipt>, visibleAt: int): (Core, BatchResult) {
    var (rows, applied) := NackChunks(core.deliveries, cid, receipts, visibleAt, RECEIPTS_PER_CHUNK);
    (core.(deliveries := rows), Tally(|receipts|, applied))
  }

  /** One extend statement: MAX(visible_at, ?), generation untouched. */
  function ExtendRows(deliveries: map<Slot, Lease>, cid: nat, receipts: seq<Receipt>, visibleAt: int): map<Slot, Lease> {
    var hits := Hit(deliveries, cid, receipts);
    map s | s in deliveries ::
      if s in hits then deliveries[s].(visibleAt := Max(deliveries[s].visibleAt, visibleAt)) else deliveries[s]
  }

  function ExtendChunks(deliveries: map<Slot, Lease>, cid: nat, receipts: seq<Receipt>, visibleAt: int, size: nat): (map<Slot, Lease>, nat)
    requires size > 0
    decreases |receipts|
  {
    if receipts == [] then (deliveries, 0)
    else
      var n := if size < |receipts| then size else |receipts|;
      var (rows, applied) := ExtendChunks(ExtendRows(deliveries, cid, receipts[..n], visibleAt), cid, receipts[n..], visibleAt, size);
      (rows, |Hit(deliveries, cid, receipts[..n])| + applied)
  }

  function Extend(core: Core, cid: nat, receipts: seq<Receipt>, visibleAt: int): (Core, BatchResult) {
    var (rows, applied) := ExtendChunks(core.deliveries, cid, receipts, visibleAt, RECEIPTS_PER_CHUNK);
    (core.(deliveries := rows), Tally(|receipts|, applied))
  }

  // ---- Archives -------------------------------------------------------------------------

  function MessagesOf(slots: set<Slot>): (ids: set<nat>)
    ensures forall s | s in slots :: s.message in ids
    ensures forall m | m in ids :: exists s :: s in slots && s.message == m
  {
    set s | s in slots :: s.message
  }

  /** The next `count` AUTOINCREMENT ids. */
  function NextIds(last: nat, count: nat): (ids: set<nat>)
    ensures forall a :: a in ids <==> last < a <= last + count
  {
    if count == 0 then {} else NextIds(last, count - 1) + {last + count}
  }

  function ArchiveRowFor(deliveries: map<Slot, Lease>, s: Slot, archivedAt: int, detail: Option<string>): ArchiveRow
    requires s in deliveries
  {
    ArchiveRow(s, archivedAt, deliveries[s].deliveryCount, deliveries[s].generation, detail)
  }

  /** Archive rows for `moved`, in that order, with the AUTOINCREMENT ids after `last`. */
  function NewArchives(deliveries: map<Slot, Lease>, last: nat, cid: nat, moved: seq<nat>, archivedAt: int, detail: Option<string>): map<nat, ArchiveRow>
    requires forall i | 0 <= i < |moved| :: Slot(cid, moved[i]) in deliveries
  {
    map a | a in NextIds(last, |moved|) :: ArchiveRowFor(deliveries, Slot(cid, moved[a - last - 1]), archivedAt, detail)
  }

  function Archive(core: Core, cid: nat, receipts: seq<Receipt>, archivedAt: int, detail: Option<string>): (Core, Result<BatchResult>) {
    var hits := Hit(core.deliveries, cid, receipts);
    var moved := Sorted(MessagesOf(hits));
    assert forall i | 0 <= i < |moved| :: moved[i] in moved;
    if hits != {} && (cid !in core.consumers || !(MessagesOf(hits) <= core.messages.Keys) || exists a | a in core.archives :: core.archives[a].slot in hits) then
      (core, Err(ConstraintViolation))
    else
      (core.(deliveries := core.deliveries - hits,
             archives := core.archives + NewArchives(core.deliveries, core.archiveSeq, cid, moved, archivedAt, detail),
             archiveSeq := core.archiveSeq + |moved|),
       Ok(Tally(|receipts|, |moved|)))
  }

  function Redriven(core: Core, cid: nat, archiveIds: seq<nat>): set<nat> {
    set a | a in core.archives && core.archives[a].slot.consumer == cid && a in archiveIds
  }

  function SlotsOf(core: Core, ids: set<nat>): (slots: set<Slot>)
    requires ids <= core.archives.Keys
    ensures forall a | a in ids :: core.archives[a].slot in slots
    ensures forall s | s in slots :: exists a :: a in ids && core.archives[a].slot == s
  {
    set a | a in ids :: core.archives[a].slot
  }

  /** Archived slots go back to the deliveries with generation and delivery count at zero. */
  function Redrive(core: Core, cid: nat, archiveIds: seq<nat>, visibleAt: int): (Core, Result<BatchResult>) {
    var hits := Redriven(core, cid, archiveIds);
    var slots := SlotsOf(core, hits);
    if exists s | s in slots :: s in core.deliveries || s.consumer !in core.consumers || s.message !in core.messages then
      (core, Err(ConstraintViolation))
    else
      (core.(deliveries := core.deliveries + (map s | s in slots :: Lease(visibleAt, 0, 0)),
             archives := core.archives - hits),
       Ok(Tally(|archiveIds|, |hits|)))
  }

  function PurgeVictims(core: Core, cid: nat, before: int, limit: nat): set<nat> {
    Lowest((set a | a in core.archives && core.archives[a].slot.consumer == cid && core.archives[a].archivedAt < before), limit)
  }

  function PurgeArchives(core: Core, cid: nat, before: int, limit: nat): (Core, nat) {
    var victims := PurgeVictims(core, cid, before, limit);
    (core.(archives := core.archives - victims), |victims|)
  }

  /** One consumer's archives after an archive id, joined with their messages. */
  function ArchivesAfter(core: Core, cid: nat, after: nat): set<nat> {
    set a | a in core.archives && core.archives[a].slot.consumer == cid && core.archives[a].slot.message in core.messages && after < a
  }

  function ArchivePage(core: Core, cid: nat, after: nat, limit: nat): (page: set<nat>)
    ensures forall a | a in page :: a in core.archives && core.archives[a].slot.message in core.messages
  {
    Lowest(ArchivesAfter(core, cid, after), limit)
  }

  function ArchivedOf(core: Core, a: nat): ArchivedDelivery
    requires a in core.archives && core.archives[a].slot.message in core.messages
  {
    var row := core.archives[a];
    ArchivedDelivery(a, row.slot.message, core.messages[row.slot.message], row.deliveryCount, row.archivedAt, row.detail)
  }

  function ListArchives(core: Core, cid: nat, after: nat, limit: nat): seq<ArchivedDelivery> {
    var order := Sorted(ArchivePage(core, cid, after, limit));
    assert forall i | 0 <= i < |order| :: order[i] in order;
    seq(|order|, i requires 0 <= i < |order| => ArchivedOf(core, order[i]))
  }

  // ---- Inspection, deletion, retention --------------------------------------------------

  /** visible_at of this consumer's rows still hidden. */
  function LaterVisible(deliveries: map<Slot, Lease>, cid: nat, now: int): map<nat, int> {
    var inbox := Inbox(deliveries, cid);
    map m | m in inbox && now < inbox[m].visibleAt :: inbox[m].visibleAt
  }

  function PublishTimes(messages: map<nat, Message>, ids: set<nat>): map<nat, int> {
    map m | m in messages && m in ids :: messages[m].publishedAt
  }

  /** A consumer's backlog, given the messages its log scan has still to take. */
  function SnapshotOf(core: Core, cid: nat, unseen: set<nat>, now: int): ConsumerSnapshot
    requires cid in core.consumers
  {
    var row := core.consumers[cid];
    var inbox := Inbox(core.deliveries, cid);
    ConsumerSnapshot(
      row.name, row.filter, row.createdAt, row.drainingAt,
      |inbox.Keys| + |unseen|,
      |Visible(core.deliveries, cid, now).Keys| + |unseen|,
      Minimum(LaterVisible(core.deliveries, cid, now)),
      Minimum(PublishTimes(core.messages, inbox.Keys + unseen)),
      |ArchivesOf(core, cid)|)
  }

  /** The snapshot query bounds the scan by COALESCE(drain_cursor, MAX(id)). */
  function Snapshot(db: Db, cid: nat, now: int): Result<ConsumerSnapshot> {
    if cid !in db.core.consumers || cid !in db.cursors then Err(ConsumerDeleted)
    else
      var cursor := db.cursors[cid];
      var unseen := Window(db.core.messages, db.core.consumers[cid].filter, cursor.scan, ScanLimit(db.core.messages, cursor));
      Ok(SnapshotOf(db.core, cid, unseen, now))
  }

  /** The tables without one consumer and its copies. */
  function Without(core: Core, cid: nat): Core {
    core.(consumers := core.consumers - {cid},
          deliveries := map s | s in core.deliveries && s.consumer != cid :: core.deliveries[s],
          archives := core.archives - ArchivesOf(core, cid))
  }

  /** What each deletion mode answers, given the two counts of its guards. */
  function DeleteAnswer(mode: DeleteMode, draining: bool, outstanding: nat, archived: nat): Result<DeleteOutcome> {
    if mode.DrainedOnly? && !draining then Err(ConsumerNotDraining)
    else if mode.DrainedOnly? && outstanding > 0 then Err(ConsumerNotEmpty(outstanding))
    else if !mode.DiscardAll? && archived > 0 then Err(ConsumerHasArchives(archived))
    else Ok(DeleteOutcome(outstanding, archived))
  }

  /** Deletion under its guards, given the number of messages not yet scanned. */
  function Remove(core: Core, cid: nat, mode: DeleteMode, unseen: nat): (Core, Result<DeleteOutcome>)
    requires cid in core.consumers
  {
    var answer := DeleteAnswer(mode, core.consumers[cid].drainingAt.Some?, |Inbox(core.deliveries, cid).Keys| + unseen, |ArchivesOf(core, cid)|);
    (if answer.Ok? then Without(core, cid) else core, answer)
  }

  function DeleteConsumer(db: Db, name: string, mode: DeleteMode): (Db, Result<DeleteOutcome>) {
    match FindConsumer(db.core, name)
    case None => (db, Err(ConsumerNotFound))
    case Some(id) =>
      if id !in db.cursors then (db, Err(ConsumerNotFound))
      else
        var (core, deleted) := Remove(db.core, id, mode, |Unseen(db.core.messages, db.core.consumers[id].filter, db.cursors[id])|);
        if deleted.Ok? then (Db(core, db.cursors - {id}), deleted) else (db, deleted)
  }

  /** Some delivery or archive row refers to the message. */
  predicate Referenced(core: Core, m: nat) {
    (exists s | s in core.deliveries :: s.message == m) || (exists a | a in core.archives :: core.archives[a].slot.message == m)
  }

  /** Some consumer has still to scan the message. */
  predicate Awaited(db: Db, m: nat) {
    exists c | c in db.cursors && c in db.core.consumers :: m in Unseen(db.core.messages, db.core.consumers[c].filter, db.cursors[c])
  }

  function Prunable(db: Db, before: int): set<nat> {
    set m | m in db.core.messages && db.core.messages[m].publishedAt < before && !Referenced(db.core, m) && !Awaited(db, m)
  }

  /** Deleting messages cascades to deliveries and is refused by archives. */
  function DropMessages(core: Core, victims: set<nat>): (Core, Result<nat>) {
    if exists a | a in core.archives :: core.archives[a].slot.message in victims then (core, Err(ConstraintViolation))
    else
      (core.(messages := core.messages - victims,
             deliveries := map s | s in core.deliveries && s.message !in victims :: core.deliveries[s]),
       Ok(|victims|))
  }

  function PruneMessages(db: Db, before: int, limit: nat): (Db, Result<nat>) {
    var (core, pruned) := DropMessages(db.core, Lowest(Prunable(db, before), limit));
    (Db(core, db.cursors), pruned)
  }
}
