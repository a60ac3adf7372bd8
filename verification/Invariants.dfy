/**
 Every committed transaction keeps the schema's constraints and the cursor order, and no
 transaction is ever refused by a constraint.
 */
module Invariants {
  import opened Prelude
  import opened Ranking
  import opened Schema
  import opened Transactions
  import opened Receipts
  import opened Runs

  ghost predicate SameLog(a: Core, b: Core) {
    a.messages == b.messages && a.messageSeq == b.messageSeq && a.ledger == b.ledger
    && a.consumers == b.consumers && a.consumerSeq == b.consumerSeq
  }

  /** The consumer's copy is materialized or archived. */
  predicate Owns(core: Core, s: Slot) {
    s in core.deliveries || exists a | a in core.archives :: core.archives[a].slot == s
  }

  /** Receipt and archive operations move copies about but never create one. */
  ghost predicate NoNewCopies(before: Core, after: Core) {
    forall s | Owns(after, s) :: Owns(before, s)
  }

  ghost predicate CoreKept(before: Core, after: Core) {
    SameLog(before, after) && DeliveriesOk(after) && ArchivesOk(after) && NoNewCopies(before, after)
  }

  ghost predicate Follows(before: Core, after: Core) {
    CoreOk(after) && after.consumers == before.consumers && before.messageSeq <= after.messageSeq && NoNewCopies(before, after)
  }

  /** A constraint would have refused the transaction. */
  predicate Refused(outcome: Outcome) {
    match outcome
    case Claimed(r) => r == Err(ConstraintViolation) || r == Err(StorageInvariant)
    case Moved(r) => r == Err(ConstraintViolation)
    case Pruned(r) => r == Err(ConstraintViolation)
    case _ => false
  }

  lemma AckKept(core: Core, cid: nat, receipts: seq<Receipt>)
    requires CoreOk(core)
    ensures CoreKept(core, Ack(core, cid, receipts).0)
  {
    hide Hit;
  }

  lemma NackKept(core: Core, cid: nat, receipts: seq<Receipt>, visibleAt: int)
    requires CoreOk(core)
    ensures CoreKept(core, Nack(core, cid, receipts, visibleAt).0)
  {
    NackChunksEffect(core.deliveries, cid, receipts, visibleAt, RECEIPTS_PER_CHUNK);
    hide Hit, NackChunks;
  }

  lemma ExtendKept(core: Core, cid: nat, receipts: seq<Receipt>, visibleAt: int)
    requires CoreOk(core)
    ensures CoreKept(core, Extend(core, cid, receipts, visibleAt).0)
  {
    ExtendRowsIgnoreChunks(core.deliveries, cid, receipts, visibleAt, RECEIPTS_PER_CHUNK);
    hide Hit, ExtendChunks;
  }

  lemma UniqueSlotsExtended(archives: map<nat, ArchiveRow>, rows: map<nat, ArchiveRow>, hits: set<Slot>)
    requires UniqueSlots(archives) && UniqueSlots(rows)
    requires forall a | a in rows :: rows[a].slot in hits
    requires forall a | a in archives :: archives[a].slot !in hits
    ensures UniqueSlots(archives + rows)
  {
    var all := archives + rows;
    forall a, b | a in all && b in all && all[a].slot == all[b].slot ensures a == b {
      assert a in rows <==> all[a].slot in hits;
      assert b in rows <==> all[b].slot in hits;
    }
  }

  /** Rows that stay still fit, in tables with the same parents. */
  lemma RowsLeft(core: Core, hits: set<Slot>, after: Core)
    requires DeliveriesOk(core) && SameLog(core, after) && after.deliveries == core.deliveries - hits
    ensures DeliveriesOk(after)
  {
    forall s | s in after.deliveries ensures SlotOk(after, s) {
      assert SlotOk(core, s);
    }
  }

  lemma ArchivesJoined(core: Core, hits: set<Slot>, rows: map<nat, ArchiveRow>, count: nat, after: Core)
    requires DeliveriesOk(core) && ArchivesOk(core) && UniqueSlots(rows) && hits <= core.deliveries.Keys && SameLog(core, after)
    requires forall a | a in rows :: core.archiveSeq < a <= core.archiveSeq + count && rows[a].slot in hits
    requires after.deliveries == core.deliveries - hits && after.archives == core.archives + rows && after.archiveSeq == core.archiveSeq + count
    ensures ArchivesOk(after)
  {
    UniqueSlotsExtended(core.archives, rows, hits);
    hide UniqueSlots;
    forall a | a in after.archives
      ensures 1 <= a <= after.archiveSeq && SlotOk(after, after.archives[a].slot) && after.archives[a].slot !in after.deliveries
    {
      assert a in rows ==> SlotOk(core, rows[a].slot);
      assert a !in rows ==> SlotOk(core, core.archives[a].slot);
    }
  }

  lemma CopiesJoined(core: Core, hits: set<Slot>, rows: map<nat, ArchiveRow>, after: Core)
    requires hits <= core.deliveries.Keys && forall a | a in rows :: rows[a].slot in hits
    requires after.deliveries == core.deliveries - hits && after.archives == core.archives + rows
    ensures NoNewCopies(core, after)
  {
    forall s | Owns(after, s) ensures Owns(core, s) {
      if s !in core.deliveries {
        var a :| a in after.archives && after.archives[a].slot == s;
        assert a in core.archives;
      }
    }
  }

  /** Rows archived from distinct live deliveries keep the archive constraints. */
  lemma ArchivesExtended(core: Core, hits: set<Slot>, rows: map<nat, ArchiveRow>, count: nat)
    requires CoreOk(core) && hits <= core.deliveries.Keys && UniqueSlots(rows)
    requires forall a | a in rows :: core.archiveSeq < a <= core.archiveSeq + count && rows[a].slot in hits
    ensures CoreKept(core, core.(deliveries := core.deliveries - hits, archives := core.archives + rows, archiveSeq := core.archiveSeq + count))
  {
    hide MessagesOk, LedgerOk, ConsumersOk, DeliveriesOk, ArchivesOk, UniqueSlots, NoNewCopies;
    var after := core.(deliveries := core.deliveries - hits, archives := core.archives + rows, archiveSeq := core.archiveSeq + count);
    RowsLeft(core, hits, after);
    ArchivesJoined(core, hits, rows, count, after);
    CopiesJoined(core, hits, rows, after);
  }

  lemma MovedInOrder(cid: nat, hits: set<Slot>)
    requires forall s | s in hits :: s.consumer == cid
    ensures var moved := Sorted(MessagesOf(hits));
      Ascending(moved) && |moved| == |hits| && forall i | 0 <= i < |moved| :: Slot(cid, moved[i]) in hits
  {
    hide Sorted, MessagesOf;
    var moved := Sorted(MessagesOf(hits));
    SortedHolds(MessagesOf(hits));
    MessagesOfSize(cid, hits);
    forall i | 0 <= i < |moved| ensures Slot(cid, moved[i]) in hits {
      assert moved[i] in moved;
      SlotOfMessage(cid, hits, moved[i]);
    }
  }

  lemma SlotOfMessage(cid: nat, slots: set<Slot>, m: nat)
    requires (forall s | s in slots :: s.consumer == cid) && m in MessagesOf(slots)
    ensures Slot(cid, m) in slots
  {
    var s :| s in slots && s.message == m;
    assert s == Slot(cid, m);
  }

  lemma MovedRows(core: Core, cid: nat, hits: set<Slot>, archivedAt: int, detail: Option<string>)
    requires hits <= core.deliveries.Keys && forall s | s in hits :: s.consumer == cid
    ensures var moved := Sorted(MessagesOf(hits));
      && (forall i | 0 <= i < |moved| :: Slot(cid, moved[i]) in hits)
      && |moved| == |hits|
      && var rows := NewArchives(core.deliveries, core.archiveSeq, cid, moved, archivedAt, detail);
      && (forall a | a in rows :: core.archiveSeq < a <= core.archiveSeq + |moved| && rows[a].slot in hits)
      && UniqueSlots(rows)
  {
    hide Sorted, MessagesOf, NextIds, UniqueSlots;
    MovedInOrder(cid, hits);
    NewArchivesUnique(core.deliveries, core.archiveSeq, cid, Sorted(MessagesOf(hits)), archivedAt, detail);
  }

  /** Distinct messages are archived in distinct slots. */
  lemma NewArchivesUnique(rows: map<Slot, Lease>, last: nat, cid: nat, moved: seq<nat>, archivedAt: int, detail: Option<string>)
    requires Ascending(moved) && forall i | 0 <= i < |moved| :: Slot(cid, moved[i]) in rows
    ensures UniqueSlots(NewArchives(rows, last, cid, moved, archivedAt, detail))
  {
    hide NextIds;
    var archived := NewArchives(rows, last, cid, moved, archivedAt, detail);
    forall a, b | a in archived && b in archived && archived[a].slot == archived[b].slot ensures a == b {
      AscendingDistinct(moved, a - last - 1, b - last - 1);
    }
  }

  /** Within one consumer a slot is its message. */
  lemma {:induction false} MessagesOfSize(cid: nat, slots: set<Slot>)
    requires forall s | s in slots :: s.consumer == cid
    ensures |MessagesOf(slots)| == |slots|
    decreases |slots|
  {
    if slots != {} {
      var s :| s in slots;
      MessagesOfSize(cid, slots - {s});
      assert MessagesOf(slots) == MessagesOf(slots - {s}) + {s.message};
      assert s.message !in MessagesOf(slots - {s});
    }
  }

  /** An archive is never refused: its slots come from live deliveries. */
  lemma ArchiveAllowed(core: Core, cid: nat, receipts: seq<Receipt>)
    requires CoreOk(core)
    ensures var hits := Hit(core.deliveries, cid, receipts);
      && MessagesOf(hits) <= core.messages.Keys
      && (forall a | a in core.archives :: core.archives[a].slot !in hits)
      && (hits != {} ==> cid in core.consumers)
      && hits <= core.deliveries.Keys && forall s | s in hits :: s.consumer == cid
  {
    var hits := Hit(core.deliveries, cid, receipts);
    assert forall s | s in hits :: s in core.deliveries && SlotOk(core, s);
    if s :| s in hits {
      assert cid in core.consumers;
    }
  }

  lemma ArchiveKept(core: Core, cid: nat, receipts: seq<Receipt>, archivedAt: int, detail: Option<string>)
    requires CoreOk(core)
    ensures CoreKept(core, Archive(core, cid, receipts, archivedAt, detail).0)
    ensures Archive(core, cid, receipts, archivedAt, detail).1 == Ok(Tally(|receipts|, |Hit(core.deliveries, cid, receipts)|))
  {
    hide Hit, MessagesOf, Sorted, CoreOk, CoreKept, NewArchives;
    ArchiveAllowed(core, cid, receipts);
    var hits := Hit(core.deliveries, cid, receipts);
    MovedRows(core, cid, hits, archivedAt, detail);
    var moved := Sorted(MessagesOf(hits));
    ArchivesExtended(core, hits, NewArchives(core.deliveries, core.archiveSeq, cid, moved, archivedAt, detail), |moved|);
  }

  /** Copies going back from the archive keep both tables' constraints. */
  lemma ArchivesReturned(core: Core, hits: set<nat>, slots: set<Slot>, visibleAt: int)
    requires CoreOk(core) && hits <= core.archives.Keys
    requires forall a | a in core.archives :: a in hits <==> core.archives[a].slot in slots
    requires forall s | s in slots :: SlotOk(core, s) && Owns(core, s)
    ensures CoreKept(core, core.(deliveries := core.deliveries + (map s | s in slots :: Lease(visibleAt, 0, 0)), archives := core.archives - hits))
  {
  }

  lemma RedriveKept(core: Core, cid: nat, archiveIds: seq<nat>, visibleAt: int)
    requires CoreOk(core)
    ensures CoreKept(core, Redrive(core, cid, archiveIds, visibleAt).0)
    ensures Redrive(core, cid, archiveIds, visibleAt).1 == Ok(Tally(|archiveIds|, |Redriven(core, cid, archiveIds)|))
  {
    var hits := Redriven(core, cid, archiveIds);
    var slots := SlotsOf(core, hits);
    forall s | s in slots ensures SlotOk(core, s) && s !in core.deliveries && Owns(core, s) {
      var a :| a in hits && core.archives[a].slot == s;
    }
    assert forall a | a in core.archives :: a in hits <==> core.archives[a].slot in slots;
    hide CoreKept, Redriven, SlotsOf;
    ArchivesReturned(core, hits, slots, visibleAt);
  }

  lemma PurgeKept(core: Core, cid: nat, before: int, limit: nat)
    requires CoreOk(core)
    ensures CoreKept(core, PurgeArchives(core, cid, before, limit).0)
  {
    hide PurgeVictims;
  }

  lemma CoreStepKept(core: Core, op: Op)
    requires CoreOk(core) && OnCore(op)
    ensures CoreKept(core, CoreStep(core, op).0)
    ensures !Refused(CoreStep(core, op).1)
  {
    hide CoreOk, CoreKept, Ack, Nack, Extend, Archive, Redrive, PurgeArchives, ListArchives;
    match op
    case AckOp(cid, receipts) => AckKept(core, cid, receipts);
    case NackOp(cid, receipts, visibleAt) => NackKept(core, cid, receipts, visibleAt);
    case ExtendOp(cid, receipts, visibleAt) => ExtendKept(core, cid, receipts, visibleAt);
    case ArchiveOp(cid, receipts, archivedAt, detail) => ArchiveKept(core, cid, receipts, archivedAt, detail);
    case RedriveOp(cid, archiveIds, visibleAt) => RedriveKept(core, cid, archiveIds, visibleAt);
    case PurgeOp(cid, before, limit) => PurgeKept(core, cid, before, limit);
    case ListOp(cid, after, limit) => NothingKept(core);
  }

  lemma NothingKept(core: Core)
    requires CoreOk(core)
    ensures CoreKept(core, core)
  {
  }

  lemma KeptFollows(before: Core, after: Core)
    requires CoreOk(before) && CoreKept(before, after)
    ensures Follows(before, after)
  {
  }

  // ---- Publishing -----------------------------------------------------------------------

  /** The log only grows at its end; nothing else but the ledger changes. */
  ghost predicate Appended(before: Core, after: Core) {
    && after.consumers == before.consumers && after.consumerSeq == before.consumerSeq
    && after.deliveries == before.deliveries
    && after.archives == before.archives && after.archiveSeq == before.archiveSeq
    && before.messageSeq <= after.messageSeq
    && (forall m | m in before.messages :: m in after.messages && after.messages[m] == before.messages[m])
    && (forall m | m in after.messages && m !in before.messages :: before.messageSeq < m)
  }

  lemma PublishOneAppended(core: Core, p: Publish, now: int, window: int)
    requires MessagesOk(core)
    ensures Appended(core, PublishOne(core, p, now, window).0)
  {
  }

  /** Rows still fit when the log has grown. */
  lemma GrownLog(before: Core, after: Core)
    requires CoreOk(before) && Appended(before, after) && MessagesOk(after) && LedgerOk(after)
    ensures CoreOk(after)
  {
    hide UniqueSlots;
    forall s | SlotOk(before, s) ensures SlotOk(after, s) {}
  }

  lemma PublishOneLogs(core: Core, p: Publish, now: int, window: int)
    requires MessagesOk(core) && LedgerOk(core)
    ensures var after := PublishOne(core, p, now, window).0; MessagesOk(after) && LedgerOk(after)
  {
  }

  lemma PublishOneAppends(core: Core, p: Publish, now: int, window: int)
    requires CoreOk(core)
    ensures Appended(core, PublishOne(core, p, now, window).0)
    ensures CoreOk(PublishOne(core, p, now, window).0)
  {
    hide PublishOne, Appended, MessagesOk, LedgerOk, ConsumersOk, DeliveriesOk, ArchivesOk;
    PublishOneAppended(core, p, now, window);
    PublishOneLogs(core, p, now, window);
    GrownLog(core, PublishOne(core, p, now, window).0);
  }

  lemma {:induction false} PublishAllAppends(core: Core, batch: seq<Publish>, now: int, window: int)
    requires CoreOk(core)
    ensures Appended(core, PublishAll(core, batch, now, window).0)
    ensures CoreOk(PublishAll(core, batch, now, window).0)
    decreases |batch|
  {
    if batch != [] {
      var n := |batch| - 1;
      PublishAllAppends(core, batch[..n], now, window);
      PublishOneAppends(PublishAll(core, batch[..n], now, window).0, batch[n], now, window);
      hide CoreOk, PublishOne;
    }
  }

  // ---- Claiming -------------------------------------------------------------------------

  /** What a claim hands out: live rows of this consumer, and matching messages it has no copy of. */
  ghost predicate Claimable(core: Core, cid: nat, retries: set<nat>, taken: set<nat>) {
    && cid in core.consumers
    && (forall m | m in retries :: Slot(cid, m) in core.deliveries)
    && (forall m | m in taken :: SlotOk(core, Slot(cid, m)) && !Owns(core, Slot(cid, m)))
  }

  lemma ClaimableApart(core: Core, cid: nat, retries: set<nat>, taken: set<nat>)
    requires Claimable(core, cid, retries, taken)
    ensures taken <= core.messages.Keys && forall m | m in taken :: Slot(cid, m) !in core.deliveries
  {
    forall m | m in taken ensures m in core.messages && Slot(cid, m) !in core.deliveries {
      assert SlotOk(core, Slot(cid, m)) && !Owns(core, Slot(cid, m));
    }
  }

  lemma LeaseRowsKept(core: Core, cid: nat, retries: set<nat>, taken: set<nat>, deadline: int)
    requires CoreOk(core) && Claimable(core, cid, retries, taken)
    ensures CoreOk(core.(deliveries := LeaseRows(core.deliveries, cid, retries, taken, deadline)))
    ensures retries + taken <= core.messages.Keys
  {
    hide UniqueSlots;
    var after := core.(deliveries := LeaseRows(core.deliveries, cid, retries, taken, deadline));
    ClaimableApart(core, cid, retries, taken);
    forall s | s in after.deliveries
      ensures SlotOk(after, s) && after.deliveries[s].deliveryCount <= after.deliveries[s].generation
    {
      assert s in core.deliveries || s == Slot(cid, s.message);
    }
    forall a | a in core.archives ensures SlotOk(after, core.archives[a].slot) && core.archives[a].slot !in after.deliveries {
      assert Owns(core, core.archives[a].slot);
      assert core.archives[a].slot == Slot(cid, core.archives[a].slot.message) || core.archives[a].slot.consumer != cid;
    }
    forall m | m in retries + taken ensures m in core.messages {
      assert SlotOk(after, Slot(cid, m));
    }
  }

  lemma LeaseOutKept(core: Core, cid: nat, retries: set<nat>, taken: set<nat>, deadline: int)
    requires CoreOk(core) && Claimable(core, cid, retries, taken)
    ensures var (after, claimed) := LeaseOut(core, cid, retries, taken, deadline);
      && claimed.Ok?
      && after == core.(deliveries := LeaseRows(core.deliveries, cid, retries, taken, deadline))
      && CoreOk(after)
  {
    hide CoreOk, Owns, SlotOk, LeaseRows;
    LeaseRowsKept(core, cid, retries, taken, deadline);
    ClaimableApart(core, cid, retries, taken);
  }

  /** COALESCE(drain_cursor, MAX(id)) bounds the scan exactly as testing drain_cursor for null does. */
  lemma WindowIsUnseen(messages: map<nat, Message>, filter: Option<string>, cursor: Cursor)
    ensures Window(messages, filter, cursor.scan, ScanLimit(messages, cursor)) == Unseen(messages, filter, cursor)
  {
  }

  /** Where the cursor goes after taking the lowest `n` of a window that is not empty by its bounds. */
  lemma WindowShrinks(messages: map<nat, Message>, filter: Option<string>, from: nat, limit: nat, n: nat)
    requires n > 0 && from < limit
    ensures var window := Window(messages, filter, from, limit); var taken := Lowest(window, n);
      var scan := if |taken| < n then limit else Greatest(taken);
      && from <= scan <= limit && (forall m | m in taken :: from < m <= scan)
      && Window(messages, filter, scan, limit) == window - taken
  {
    hide Lowest, Greatest;
    var window := Window(messages, filter, from, limit);
    var taken := Lowest(window, n);
    if |taken| < n {
      assert taken == window;
    } else {
      GreatestHolds(taken);
    }
  }

  /** A scan takes the lowest unseen ids, and its cursor leaves exactly the others unseen. */
  lemma ScanTakesLowest(messages: map<nat, Message>, filter: Option<string>, cursor: Cursor, n: nat)
    requires cursor.drain.Some? ==> cursor.scan <= cursor.drain.value
    ensures var (taken, scan) := Scan(messages, filter, cursor, n);
      && taken == Lowest(Unseen(messages, filter, cursor), n)
      && Unseen(messages, filter, cursor.(scan := scan)) == Unseen(messages, filter, cursor) - taken
      && cursor.scan <= scan && (scan == cursor.scan || scan <= ScanLimit(messages, cursor))
      && (forall m | m in taken :: cursor.scan < m <= scan)
  {
    hide Unseen, Window, Lowest, Greatest;
    var (taken, scan) := Scan(messages, filter, cursor, n);
    WindowIsUnseen(messages, filter, cursor);
    WindowIsUnseen(messages, filter, cursor.(scan := scan));
    var limit := ScanLimit(messages, cursor);
    if n > 0 && cursor.scan < limit {
      WindowShrinks(messages, filter, cursor.scan, limit, n);
    } else {
      NothingTaken(messages, filter, cursor.scan, limit, n);
    }
  }

  lemma NothingTaken(messages: map<nat, Message>, filter: Option<string>, from: nat, limit: nat, n: nat)
    requires n == 0 || limit <= from
    ensures Lowest(Window(messages, filter, from, limit), n) == {}
  {
  }

  /** Materializing below an advanced cursor keeps every cursor above its consumer's copies. */
  lemma CursorAdvanced(db: Db, cid: nat, rows: map<Slot, Lease>, scan: nat)
    requires Wf(db) && cid in db.core.consumers && CoreOk(db.core.(deliveries := rows))
    requires db.cursors[cid].scan <= scan <= db.core.messageSeq
    requires db.cursors[cid].drain.Some? ==> scan <= db.cursors[cid].drain.value
    requires forall s | s in rows :: s in db.core.deliveries || (s.consumer == cid && s.message <= scan)
    ensures Wf(Db(db.core.(deliveries := rows), db.cursors[cid := db.cursors[cid].(scan := scan)]))
  {
    var after := Db(db.core.(deliveries := rows), db.cursors[cid := db.cursors[cid].(scan := scan)]);
    hide CoreOk;
    forall c | c in after.cursors ensures CursorOk(after.core, c, after.cursors[c]) {
      assert CursorOk(db.core, c, db.cursors[c]);
    }
  }

  /** A scan takes matching messages its consumer has no copy of, and stays within the cursor's bounds. */
  lemma ScanBounds(db: Db, cid: nat, n: nat)
    requires Wf(db) && cid in db.core.consumers
    ensures var (taken, scan) := Scan(db.core.messages, db.core.consumers[cid].filter, db.cursors[cid], n);
      && (forall m | m in taken :: SlotOk(db.core, Slot(cid, m)) && !Owns(db.core, Slot(cid, m)) && db.cursors[cid].scan < m <= scan)
      && db.cursors[cid].scan <= scan <= db.core.messageSeq
      && (db.cursors[cid].drain.Some? ==> scan <= db.cursors[cid].drain.value)
  {
    var core, cursor, filter := db.core, db.cursors[cid], db.core.consumers[cid].filter;
    var (taken, scan) := Scan(core.messages, filter, cursor, n);
    assert CursorOk(core, cid, cursor);
    ScanTakesLowest(core.messages, filter, cursor, n);
    forall m | m in taken ensures SlotOk(core, Slot(cid, m)) && !Owns(core, Slot(cid, m)) {
      assert m in Unseen(core.messages, filter, cursor);
    }
  }

  lemma ClaimKept(db: Db, cid: nat, max: nat, now: int, deadline: int)
    requires Wf(db) && cid in db.core.consumers
    ensures var cursor, retries := db.cursors[cid], Retries(db.core, cid, max, now);
      var (taken, scan) := Scan(db.core.messages, db.core.consumers[cid].filter, cursor, max - |retries|);
      var (after, claimed) := Claim(db, cid, max, now, deadline);
      && claimed.Ok?
      && Claimable(db.core, cid, retries, taken)
      && (after.core, claimed) == LeaseOut(db.core, cid, retries, taken, deadline)
      && after == Db(db.core.(deliveries := LeaseRows(db.core.deliveries, cid, retries, taken, deadline)), db.cursors[cid := cursor.(scan := scan)])
      && Wf(after)
  {
    hide Scan, Retries, LeaseOut, CoreOk, CursorsOk, BelowCursor, SlotOk, Owns, LeaseRows;
    var retries := Retries(db.core, cid, max, now);
    RetriesVisible(db.core, cid, max, now);
    assert cid in db.cursors by { CursorKeys(db); }
    ScanBounds(db, cid, max - |retries|);
    var (taken, scan) := Scan(db.core.messages, db.core.consumers[cid].filter, db.cursors[cid], max - |retries|);
    LeaseOutKept(db.core, cid, retries, taken, deadline);
    CursorAdvanced(db, cid, LeaseRows(db.core.deliveries, cid, retries, taken, deadline), scan);
  }

  lemma CursorKeys(db: Db)
    requires Wf(db)
    ensures db.cursors.Keys == db.core.consumers.Keys
  {
  }

  /** Retries are rows of this consumer whose time has come, as many as fit. */
  lemma RetriesVisible(core: Core, cid: nat, max: nat, now: int)
    ensures |Retries(core, cid, max, now)| <= max
    ensures forall m | m in Retries(core, cid, max, now) ::
      Slot(cid, m) in core.deliveries && core.deliveries[Slot(cid, m)].visibleAt <= now
  {
  }

  /** A claim by a live consumer, with everything known of what it hands out. */
  lemma ClaimIs(db: Db, cid: nat, max: nat, now: int, deadline: int) returns (retries: set<nat>, taken: set<nat>, scan: nat)
    requires Wf(db) && cid in db.core.consumers
    ensures cid in db.cursors && retries == Retries(db.core, cid, max, now) && |retries| <= max
    ensures (taken, scan) == Scan(db.core.messages, db.core.consumers[cid].filter, db.cursors[cid], max - |retries|)
    ensures Claim(db, cid, max, now, deadline).0 ==
      Db(db.core.(deliveries := LeaseRows(db.core.deliveries, cid, retries, taken, deadline)), db.cursors[cid := db.cursors[cid].(scan := scan)])
    ensures forall m | m in retries :: Slot(cid, m) in db.core.deliveries && db.core.deliveries[Slot(cid, m)].visibleAt <= now
    ensures forall m | m in taken :: Slot(cid, m) !in db.core.deliveries && db.cursors[cid].scan < m <= scan
    ensures db.cursors[cid].scan <= scan <= db.core.messageSeq
  {
    hide Wf, Claim, Scan, Retries, LeaseOut, LeaseRows, Claimable;
    CursorKeys(db);
    retries := Retries(db.core, cid, max, now);
    RetriesVisible(db.core, cid, max, now);
    var r := Scan(db.core.messages, db.core.consumers[cid].filter, db.cursors[cid], max - |retries|);
    taken, scan := r.0, r.1;
    ClaimKept(db, cid, max, now, deadline);
    ScanBounds(db, cid, max - |retries|);
    forall m | m in taken ensures Slot(cid, m) !in db.core.deliveries {
      assert !Owns(db.core, Slot(cid, m));
    }
  }

  // ---- The other transactions -----------------------------------------------------------

  /** One more row under a new id and a new name breaks no constraint of the core. */
  lemma CoreWithConsumer(core: Core, row: ConsumerRow)
    requires CoreOk(core) && forall c | c in core.consumers :: core.consumers[c].name != row.name
    ensures var id := core.consumerSeq + 1; CoreOk(core.(consumers := core.consumers[id := row], consumerSeq := id))
  {
    hide UniqueSlots;
    var id := core.consumerSeq + 1;
    var after := core.(consumers := core.consumers[id := row], consumerSeq := id);
    forall s | SlotOk(core, s) ensures SlotOk(after, s) {
      assert s.consumer != id;
    }
  }

  /** A new consumer starts with no copies, at or below the end of the log. */
  lemma ConsumerAdded(db: Db, row: ConsumerRow, scan: nat)
    requires Wf(db) && scan <= db.core.messageSeq && row.drainingAt.None?
    requires forall c | c in db.core.consumers :: db.core.consumers[c].name != row.name
    ensures var id := db.core.consumerSeq + 1;
      Wf(Db(db.core.(consumers := db.core.consumers[id := row], consumerSeq := id), db.cursors[id := Cursor(scan, None)]))
  {
    hide CoreOk;
    var id := db.core.consumerSeq + 1;
    var after := Db(db.core.(consumers := db.core.consumers[id := row], consumerSeq := id), db.cursors[id := Cursor(scan, None)]);
    CoreWithConsumer(db.core, row);
    NewId(db.core);
    forall c | c in after.cursors ensures CursorOk(after.core, c, after.cursors[c]) {
      assert c != id ==> CursorOk(db.core, c, db.cursors[c]);
    }
    CopiesOwned(db.core);
  }

  lemma NewId(core: Core)
    requires CoreOk(core)
    ensures core.consumerSeq + 1 !in core.consumers
  {
  }

  /** Every copy belongs to a consumer there is. */
  lemma CopiesOwned(core: Core)
    requires CoreOk(core)
    ensures forall s | s in core.deliveries :: s.consumer in core.consumers
    ensures forall a | a in core.archives :: core.archives[a].slot.consumer in core.consumers
  {
    forall s | s in core.deliveries ensures s.consumer in core.consumers {
      assert SlotOk(core, s);
    }
    forall a | a in core.archives ensures core.archives[a].slot.consumer in core.consumers {
      assert SlotOk(core, core.archives[a].slot);
    }
  }

  lemma OpenKept(db: Db, name: string, filter: Option<string>, now: int)
    requires Wf(db)
    ensures Wf(OpenConsumer(db, name, filter, now).0)
  {
    if name != "" && FindConsumer(db.core, name).None? {
      assert forall c | c in db.core.consumers :: c !in Named(db.core, name);
      assert HighWater(db.core.messages) <= db.core.messageSeq;
      hide FindConsumer, Named, HighWater, Wf;
      ConsumerAdded(db, ConsumerRow(name, filter, now, None), HighWater(db.core.messages));
    }
  }

  /** A consumer row that keeps its name and filter keeps every constraint of the core. */
  lemma RowReplaced(core: Core, cid: nat, row: ConsumerRow)
    requires CoreOk(core) && cid in core.consumers
    requires row.name == core.consumers[cid].name && row.filter == core.consumers[cid].filter
    ensures CoreOk(core.(consumers := core.consumers[cid := row]))
  {
    hide UniqueSlots;
    var after := core.(consumers := core.consumers[cid := row]);
    forall s | SlotOk(core, s) ensures SlotOk(after, s) {}
  }

  lemma DrainKept(db: Db, cid: nat, now: int)
    requires Wf(db)
    ensures Wf(BeginDraining(db, cid, now).0)
  {
    hide CoreOk;
    if cid in db.core.consumers && db.core.consumers[cid].drainingAt.None? {
      var after := BeginDraining(db, cid, now).0;
      RowReplaced(db.core, cid, after.core.consumers[cid]);
      HighWaterBounded(db.core);
      forall c | c in after.cursors ensures CursorOk(after.core, c, after.cursors[c]) {
        assert CursorOk(db.core, c, db.cursors[c]);
      }
    }
  }

  lemma HighWaterBounded(core: Core)
    requires CoreOk(core)
    ensures HighWater(core.messages) <= core.messageSeq
  {
  }

  lemma WithoutKept(core: Core, cid: nat)
    requires CoreOk(core)
    ensures CoreOk(Without(core, cid))
    ensures forall s :: Owns(Without(core, cid), s) <==> Owns(core, s) && s.consumer != cid
  {
    var after := Without(core, cid);
    forall s | SlotOk(core, s) && s.consumer != cid ensures SlotOk(after, s) {}
    forall a | a in core.archives ensures a in after.archives <==> core.archives[a].slot.consumer != cid {
      assert a in ArchivesOf(core, cid) <==> core.archives[a].slot.consumer == cid;
    }
  }

  lemma ConsumerDropped(db: Db, cid: nat)
    requires Wf(db)
    ensures Wf(Db(Without(db.core, cid), db.cursors - {cid}))
  {
    hide CoreOk, ArchivesOf, Owns;
    WithoutKept(db.core, cid);
    var after := Db(Without(db.core, cid), db.cursors - {cid});
    forall c | c in after.cursors ensures CursorOk(after.core, c, after.cursors[c]) {
      assert CursorOk(db.core, c, db.cursors[c]);
    }
    CopiesOwned(after.core);
  }

  /** A deletion that succeeds leaves the tables without the consumer and without its copies. */
  lemma DeletedIs(db: Db, name: string, mode: DeleteMode)
    requires DeleteConsumer(db, name, mode).1.Ok?
    ensures FindConsumer(db.core, name).Some? && FindConsumer(db.core, name).value in db.cursors
    ensures var id := FindConsumer(db.core, name).value;
      DeleteConsumer(db, name, mode).0 == Db(Without(db.core, id), db.cursors - {id})
  {
    hide Inbox, FindConsumer, Unseen, ArchivesOf;
  }

  lemma DeleteRefused(db: Db, name: string, mode: DeleteMode)
    requires DeleteConsumer(db, name, mode).1.Err?
    ensures DeleteConsumer(db, name, mode).0 == db
  {
    hide Inbox, FindConsumer, Unseen, ArchivesOf, Remove;
  }

  lemma DeleteKept(db: Db, name: string, mode: DeleteMode)
    requires Wf(db)
    ensures Wf(DeleteConsumer(db, name, mode).0)
  {
    hide Wf, Without, DeleteConsumer, FindConsumer;
    if DeleteConsumer(db, name, mode).1.Ok? {
      DeletedIs(db, name, mode);
      ConsumerDropped(db, FindConsumer(db.core, name).value);
    } else {
      DeleteRefused(db, name, mode);
    }
  }

  /** Dropping messages nothing refers to cascades to no delivery and is refused by no archive. */
  lemma DropKept(core: Core, victims: set<nat>)
    requires CoreOk(core) && forall m | m in victims :: !Referenced(core, m)
    ensures DropMessages(core, victims) == (core.(messages := core.messages - victims), Ok(|victims|))
    ensures CoreOk(DropMessages(core, victims).0)
  {
    forall s | s in core.deliveries ensures s.message !in victims {
      assert Referenced(core, s.message);
    }
    forall a | a in core.archives ensures core.archives[a].slot.message !in victims {
      assert Referenced(core, core.archives[a].slot.message);
    }
    assert (map s | s in core.deliveries && s.message !in victims :: core.deliveries[s]) == core.deliveries;
  }

  lemma PruneKept(db: Db, before: int, limit: nat)
    requires Wf(db)
    ensures Wf(PruneMessages(db, before, limit).0)
    ensures PruneMessages(db, before, limit).1.Ok?
  {
    var victims := Lowest(Prunable(db, before), limit);
    DropKept(db.core, victims);
    hide CoreOk, Prunable, Lowest, Referenced;
    var after := PruneMessages(db, before, limit).0;
    forall c | c in after.cursors ensures CursorOk(after.core, c, after.cursors[c]) {
      assert CursorOk(db.core, c, db.cursors[c]);
    }
  }

  lemma CursorsFollowCore(db: Db, core: Core)
    requires Wf(db)
    requires Follows(db.core, core)
    ensures Wf(Db(core, db.cursors))
  {
    forall c | c in db.cursors ensures CursorOk(core, c, db.cursors[c]) {
      assert CursorOk(db.core, c, db.cursors[c]);
    }
    forall s | s in core.deliveries ensures s.message <= db.cursors[s.consumer].scan {
      assert Owns(core, s);
    }
    forall a | a in core.archives ensures core.archives[a].slot.message <= db.cursors[core.archives[a].slot.consumer].scan {
      assert Owns(core, core.archives[a].slot);
    }
  }

  lemma PublishFollows(core: Core, batch: seq<Publish>, now: int, window: int)
    requires CoreOk(core)
    ensures Follows(core, PublishAll(core, batch, now, window).0)
  {
    PublishAllAppends(core, batch, now, window);
  }

  lemma PublishStepKept(db: Db, batch: seq<Publish>, now: int, window: int)
    requires Wf(db)
    ensures Wf(Db(PublishAll(db.core, batch, now, window).0, db.cursors))
  {
    PublishFollows(db.core, batch, now, window);
    hide PublishAll, Follows;
    CursorsFollowCore(db, PublishAll(db.core, batch, now, window).0);
  }

  lemma ClaimStepKept(db: Db, cid: nat, max: nat, now: int, deadline: int)
    requires Wf(db)
    ensures Wf(Claim(db, cid, max, now, deadline).0)
    ensures !Refused(Claimed(Claim(db, cid, max, now, deadline).1))
  {
    if cid in db.core.consumers {
      hide Wf, Claim;
      ClaimKept(db, cid, max, now, deadline);
    }
  }

  lemma LogStepKept(db: Db, op: Op)
    requires Wf(db) && !OnCore(op)
    ensures Wf(Step(db, op).0)
    ensures !Refused(Step(db, op).1)
  {
    hide Wf, OpenConsumer, BeginDraining, PublishAll, Claim, Snapshot, DeleteConsumer, PruneMessages;
    if op.OpenOp? {
      OpenKept(db, op.name, op.filter, op.now);
    } else if op.DrainOp? {
      DrainKept(db, op.cid, op.now);
    } else if op.PublishOp? {
      PublishStepKept(db, op.batch, op.now, op.window);
    } else if op.ClaimOp? {
      ClaimStepKept(db, op.cid, op.max, op.now, op.now + op.lease);
    } else if op.DeleteOp? {
      DeleteKept(db, op.name, op.mode);
    } else if op.PruneOp? {
      PruneKept(db, op.before, op.limit);
    }
  }

  /** One transaction keeps every invariant and breaks no constraint. */
  lemma StepKept(db: Db, op: Op)
    requires Wf(db)
    ensures Wf(Step(db, op).0)
    ensures !Refused(Step(db, op).1)
  {
    assert CoreOk(db.core);
    hide Wf, CoreOk, Step, CoreStep, CoreKept, Follows;
    if OnCore(op) {
      CoreStepKept(db.core, op);
      KeptFollows(db.core, CoreStep(db.core, op).0);
      CursorsFollowCore(db, CoreStep(db.core, op).0);
      StepOnCore(db, op);
    } else {
      LogStepKept(db, op);
    }
  }

  lemma {:induction false} RunKept(db: Db, ops: seq<Op>)
    requires Wf(db)
    ensures Wf(Run(db, ops))
    ensures forall i | 0 <= i < |ops| :: !Refused(Outcomes(db, ops)[i])
    decreases |ops|
  {
    hide Step, Wf, Refused;
    if ops != [] {
      StepKept(db, ops[0]);
      RunKept(Step(db, ops[0]).0, ops[1..]);
    }
  }

  /** Every state a run reaches satisfies the constraints, and no run ever meets one. */
  lemma ReachableWf(ops: seq<Op>)
    ensures Wf(Run(EMPTY_DB, ops))
    ensures forall i | 0 <= i < |ops| :: !Refused(Outcomes(EMPTY_DB, ops)[i])
  {
    assert Wf(EMPTY_DB);
    hide Wf, Run, Outcomes;
    RunKept(EMPTY_DB, ops);
  }
}
