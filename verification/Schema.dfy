/**
 The durable state: the five tables of the SQLite file, the AUTOINCREMENT sequences behind
 three of them, and the constraints no committed state may break.

 The two cursor columns of the consumers table live in a map of their own, so that the
 rest of the tables (the core) can be shared with the eager fan-out the cursors stand for.
 */
module Schema {
  import opened Prelude
  import opened Ranking

  datatype Message = Message(topic: Option<string>, body: Bytes, publishedAt: int)

  datatype LedgerEntry = LedgerEntry(messageId: Option<nat>, expiresAt: int)

  datatype ConsumerRow = ConsumerRow(name: string, filter: Option<string>, createdAt: int, drainingAt: Option<int>)

  datatype Cursor = Cursor(scan: nat, drain: Option<nat>)

  /** The primary key of a delivery row. */
  datatype Slot = Slot(consumer: nat, message: nat)

  /** A materialized delivery; `nat` carries the CHECKs on generation and delivery_count. */
  datatype Lease = Lease(visibleAt: int, generation: nat, deliveryCount: nat)

  datatype ArchiveRow = ArchiveRow(slot: Slot, archivedAt: int, deliveryCount: nat, lastGeneration: nat, detail: Option<string>)

  datatype Core = Core(
    messages: map<nat, Message>,
    messageSeq: nat,
    ledger: map<Bytes, LedgerEntry>,
    consumers: map<nat, ConsumerRow>,
    consumerSeq: nat,
    deliveries: map<Slot, Lease>,
    archives: map<nat, ArchiveRow>,
    archiveSeq: nat)

  datatype Db = Db(core: Core, cursors: map<nat, Cursor>)

  const EMPTY_CORE := Core(map[], 0, map[], map[], 0, map[], map[], 0)
  const EMPTY_DB := Db(EMPTY_CORE, map[])

  /** A null topic equals no filter value; a null filter takes every message. */
  predicate Matches(filter: Option<string>, topic: Option<string>) {
    filter.None? || (topic.Some? && topic.value == filter.value)
  }

  /** COALESCE(MAX(id), 0) over the messages still retained; it falls when the newest are pruned. */
  function HighWater(messages: map<nat, Message>): (h: nat)
    ensures forall m | m in messages :: m <= h
    ensures messages.Keys == {} ==> h == 0
    ensures messages.Keys != {} ==> h in messages
  {
    if messages.Keys == {} then 0 else Greatest(messages.Keys)
  }

  /** Matching retained messages in (after, upTo]. */
  function Window(messages: map<nat, Message>, filter: Option<string>, after: nat, upTo: nat): set<nat> {
    set m | m in messages && after < m <= upTo && Matches(filter, messages[m].topic)
  }

  /** What deletion and pruning count as not yet scanned: a null drain cursor is no upper bound. */
  function Unseen(messages: map<nat, Message>, filter: Option<string>, cursor: Cursor): set<nat> {
    set m | m in messages && cursor.scan < m && (cursor.drain.None? || m <= cursor.drain.value)
            && Matches(filter, messages[m].topic)
  }

  /** The delivery rows of one consumer, by message. */
  function Inbox(deliveries: map<Slot, Lease>, cid: nat): (inbox: map<nat, Lease>)
    ensures forall m :: m in inbox <==> Slot(cid, m) in deliveries
    ensures forall m | m in inbox :: inbox[m] == deliveries[Slot(cid, m)]
  {
    map s | s in deliveries && s.consumer == cid :: s.message := deliveries[s]
  }

  function ArchivesOf(core: Core, cid: nat): set<nat> {
    set a | a in core.archives && core.archives[a].slot.consumer == cid
  }

  // ---- Constraints and invariants -------------------------------------------------------

  ghost predicate MessagesOk(core: Core) {
    forall m | m in core.messages :: 1 <= m <= core.messageSeq
  }

  /** No committed ledger entry is incomplete. */
  ghost predicate LedgerOk(core: Core) {
    forall k | k in core.ledger ::
      core.ledger[k].messageId.Some? && 1 <= core.ledger[k].messageId.value <= core.messageSeq
  }

  ghost predicate ConsumersOk(core: Core) {
    && (forall c | c in core.consumers :: 1 <= c <= core.consumerSeq)
    && (forall c, d | c in core.consumers && d in core.consumers && core.consumers[c].name == core.consumers[d].name :: c == d)
  }

  /** Both parents exist and the consumer's filter admits the message. */
  ghost predicate SlotOk(core: Core, s: Slot) {
    && s.consumer in core.consumers
    && s.message in core.messages
    && Matches(core.consumers[s.consumer].filter, core.messages[s.message].topic)
  }

  ghost predicate DeliveriesOk(core: Core) {
    forall s | s in core.deliveries ::
      SlotOk(core, s) && core.deliveries[s].deliveryCount <= core.deliveries[s].generation
  }

  /** UNIQUE (consumer_id, message_id). */
  ghost predicate UniqueSlots(archives: map<nat, ArchiveRow>) {
    forall a, b | a in archives && b in archives && archives[a].slot == archives[b].slot :: a == b
  }

  ghost predicate ArchivesOk(core: Core) {
    && (forall a | a in core.archives ::
          1 <= a <= core.archiveSeq && SlotOk(core, core.archives[a].slot) && core.archives[a].slot !in core.deliveries)
    && UniqueSlots(core.archives)
  }

  ghost predicate CoreOk(core: Core) {
    MessagesOk(core) && LedgerOk(core) && ConsumersOk(core) && DeliveriesOk(core) && ArchivesOk(core)
  }

  /** scan_cursor <= drain_cursor <= the message sequence, and a drain boundary exactly while draining. */
  ghost predicate CursorOk(core: Core, c: nat, cursor: Cursor)
    requires c in core.consumers
  {
    && cursor.scan <= core.messageSeq
    && (cursor.drain.Some? ==> cursor.scan <= cursor.drain.value <= core.messageSeq)
    && (cursor.drain.Some? <==> core.consumers[c].drainingAt.Some?)
  }

  ghost predicate CursorsOk(db: Db) {
    && db.cursors.Keys == db.core.consumers.Keys
    && (forall c | c in db.cursors :: CursorOk(db.core, c, db.cursors[c]))
  }

  /** Nothing has been materialized or archived above its consumer's scan cursor. */
  ghost predicate BelowCursor(db: Db)
    requires CoreOk(db.core) && CursorsOk(db)
  {
    && (forall s | s in db.core.deliveries :: s.message <= db.cursors[s.consumer].scan)
    && (forall a | a in db.core.archives :: db.core.archives[a].slot.message <= db.cursors[db.core.archives[a].slot.consumer].scan)
  }

  ghost predicate Wf(db: Db) {
    CoreOk(db.core) && CursorsOk(db) && BelowCursor(db)
  }
}
