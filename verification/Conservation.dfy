/**
 Nothing is lost and nothing is doubled: over every run, each message owed to a consumer is
 in exactly one place, and no other message is in any.
 */
module Conservation {
  import opened Prelude
  import opened Ranking
  import opened Schema
  import opened Transactions
  import opened Receipts
  import opened Runs
  import opened Invariants
  import opened Fanout
  import opened LazyIsEager

  /**
   What a run has done, kept beside the tables: every message ever published, the length of
   the log when each consumer was created and when it began draining, and the copies that
   were acknowledged or purged. It uses the true sequence, never MAX(id).
   */
  datatype History = History(
    topics: map<nat, Option<string>>, born: map<nat, nat>, closed: map<nat, nat>, acked: set<Slot>, purged: set<Slot>)

  const NO_HISTORY := History(map[], map[], map[], {}, {})

  function Archived(archives: map<nat, ArchiveRow>, s: Slot): bool {
    exists a | a in archives :: archives[a].slot == s
  }

  function NewTopics(before: map<nat, Message>, after: map<nat, Message>): map<nat, Option<string>> {
    map m | m in after && m !in before :: after[m].topic
  }

  function Newcomers(before: Core, after: map<nat, ConsumerRow>): map<nat, nat> {
    map c | c in after && c !in before.consumers :: before.messageSeq
  }

  function NewlyDraining(before: Core, after: map<nat, ConsumerRow>): map<nat, nat> {
    map c | c in after && c in before.consumers && after[c].drainingAt.Some? && before.consumers[c].drainingAt.None? :: before.messageSeq
  }

  function Record(h: History, before: Core, op: Op, after: Core): History {
    History(
      h.topics + NewTopics(before.messages, after.messages),
      h.born + Newcomers(before, after.consumers),
      h.closed + NewlyDraining(before, after.consumers),
      if op.AckOp? then h.acked + Hit(before.deliveries, op.cid, op.receipts) else h.acked,
      if op.PurgeOp? then h.purged + SlotsOf(before, PurgeVictims(before, op.cid, op.before, op.limit)) else h.purged)
  }

  function Chronicle(h: History, db: Db, ops: seq<Op>): History
    decreases |ops|
  {
    if ops == [] then h
    else Chronicle(Record(h, db.core, ops[0], Step(db, ops[0]).0.core), Step(db, ops[0]).0, ops[1..])
  }

  /** Published since the consumer was created, up to its drain boundary, and matching its filter. */
  predicate Due(h: History, c: nat, row: ConsumerRow, m: nat) {
    m in h.topics && c in h.born && h.born[c] < m && (c in h.closed ==> m <= h.closed[c]) && Matches(row.filter, h.topics[m])
  }

  function One(b: bool): nat {
    if b then 1 else 0
  }

  /** In how many of the five places a consumer's copy of a message is. */
  function Places(e: Eager, h: History, s: Slot): nat {
    One(s.consumer in e.pending && s.message in e.pending[s.consumer])
    + One(s in e.core.deliveries)
    + One(Archived(e.core.archives, s))
    + One(s in h.acked)
    + One(s in h.purged)
  }

  /** History and tables speak of the same log and the same consumers. */
  ghost predicate HistoryOk(core: Core, h: History) {
    && (forall m | m in h.topics :: m <= core.messageSeq)
    && (forall m | m in core.messages :: m in h.topics && h.topics[m] == core.messages[m].topic)
    && (forall c | c in core.consumers :: c in h.born && h.born[c] <= core.messageSeq)
    && (forall c | c in core.consumers :: c in h.closed <==> core.consumers[c].drainingAt.Some?)
    && (forall c | c in h.closed :: h.closed[c] <= core.messageSeq && c <= core.consumerSeq)
    && (forall s | s in h.acked || s in h.purged :: s.consumer <= core.consumerSeq)
  }

  ghost predicate Conserved(e: Eager, h: History) {
    forall s: Slot | s.consumer in e.core.consumers ::
      Places(e, h, s) == One(Due(h, s.consumer, e.core.consumers[s.consumer], s.message))
  }

  ghost predicate Balanced(e: Eager, h: History) {
    HistoryOk(e.core, h) && Conserved(e, h)
  }

  // ---- Receipt and archive operations ---------------------------------------------------

  /** How one operation moves copies between places: none of them changes what is due. */
  ghost predicate Moves(before: Core, h: History, after: Core, h': History) {
    && SameLog(before, after)
    && h'.topics == h.topics && h'.born == h.born && h'.closed == h.closed
    && (forall s | s in h'.acked :: s in h.acked || s in before.deliveries)
    && (forall s | s in h'.purged :: s in h.purged || Archived(before.archives, s))
    && (forall s: Slot ::
          One(s in after.deliveries) + One(Archived(after.archives, s)) + One(s in h'.acked) + One(s in h'.purged)
          == One(s in before.deliveries) + One(Archived(before.archives, s)) + One(s in h.acked) + One(s in h.purged))
  }

  lemma MovesBalance(e: Eager, h: History, core: Core, h': History)
    requires CoreOk(e.core) && Balanced(e, h) && Moves(e.core, h, core, h')
    ensures Balanced(Eager(core, e.pending), h')
  {
    forall s: Slot | s.consumer in core.consumers
      ensures Places(Eager(core, e.pending), h', s) == One(Due(h', s.consumer, core.consumers[s.consumer], s.message))
    {
      assert Places(e, h, s) == One(Due(h, s.consumer, e.core.consumers[s.consumer], s.message));
    }
    forall s | s in h'.acked || s in h'.purged ensures s.consumer <= core.consumerSeq {
      if s !in h.acked && s !in h.purged {
        assert SlotOk(e.core, s);
      }
    }
  }

  /** A materialized copy is nowhere else. */
  lemma MaterializedOnly(e: Eager, h: History, s: Slot)
    requires CoreOk(e.core) && Conserved(e, h) && s in e.core.deliveries
    ensures s !in h.acked && s !in h.purged && !Archived(e.core.archives, s)
  {
    assert SlotOk(e.core, s);
    assert Places(e, h, s) <= 1;
  }

  lemma ArchivedOnly(e: Eager, h: History, s: Slot)
    requires CoreOk(e.core) && Conserved(e, h) && Archived(e.core.archives, s)
    ensures s !in h.acked && s !in h.purged && s !in e.core.deliveries
  {
    assert SlotOk(e.core, s);
    assert Places(e, h, s) <= 1;
  }

  lemma SameHistory(h: History, before: Core, op: Op, after: Core)
    requires SameLog(before, after)
    ensures var h' := Record(h, before, op, after);
      h'.topics == h.topics && h'.born == h.born && h'.closed == h.closed
  {
    hide Hit, SlotsOf, PurgeVictims;
    NoNewTopics(before.messages, after.messages);
    NoNewConsumers(before, after.consumers);
  }

  lemma NoNewTopics(before: map<nat, Message>, after: map<nat, Message>)
    requires after.Keys <= before.Keys
    ensures forall t: map<nat, Option<string>> :: t + NewTopics(before, after) == t
  {
    assert NewTopics(before, after) == map[];
  }

  lemma NoNewConsumers(before: Core, after: map<nat, ConsumerRow>)
    requires after.Keys <= before.consumers.Keys && forall c | c in after :: after[c].drainingAt == before.consumers[c].drainingAt
    ensures forall t: map<nat, nat> :: t + Newcomers(before, after) == t && t + NewlyDraining(before, after) == t
  {
    assert Newcomers(before, after) == map[];
    assert NewlyDraining(before, after) == map[];
  }

  /** Steps that add neither messages nor consumers, drain, acknowledge or purge leave no trace. */
  lemma NoTrace(h: History, before: Core, op: Op, after: Core)
    requires !op.AckOp? && !op.PurgeOp?
    requires after.messages.Keys <= before.messages.Keys
    requires after.consumers.Keys <= before.consumers.Keys && forall c | c in after.consumers :: after.consumers[c].drainingAt == before.consumers[c].drainingAt
    ensures Record(h, before, op, after) == h
  {
    hide Hit, SlotsOf, PurgeVictims, NewTopics, Newcomers, NewlyDraining;
    NoNewTopics(before.messages, after.messages);
    NoNewConsumers(before, after.consumers);
  }

  lemma AckMoves(e: Eager, h: History, op: Op)
    requires CoreOk(e.core) && Balanced(e, h) && op.AckOp?
    ensures var after := Ack(e.core, op.cid, op.receipts).0;
      Moves(e.core, h, after, Record(h, e.core, op, after))
  {
    hide Hit, CoreOk, HistoryOk, Conserved, Archived;
    var after := Ack(e.core, op.cid, op.receipts).0;
    SameHistory(h, e.core, op, after);
    forall s | s in Hit(e.core.deliveries, op.cid, op.receipts) ensures s in e.core.deliveries && s !in h.acked {
      HitsAreRows(e.core.deliveries, op.cid, op.receipts);
      MaterializedOnly(e, h, s);
    }
  }

  lemma HitsAreRows(deliveries: map<Slot, Lease>, cid: nat, receipts: seq<Receipt>)
    ensures Hit(deliveries, cid, receipts) <= deliveries.Keys
  {
  }

  /** Nacking and extending keep the rows. */
  lemma RowsKept(core: Core, op: Op)
    requires op.NackOp? || op.ExtendOp?
    ensures CoreStep(core, op).0 == core.(deliveries := CoreStep(core, op).0.deliveries)
    ensures CoreStep(core, op).0.deliveries.Keys == core.deliveries.Keys
  {
    hide Hit, NackChunks, ExtendChunks;
    if op.NackOp? {
      NackChunksEffect(core.deliveries, op.cid, op.receipts, op.visibleAt, RECEIPTS_PER_CHUNK);
    } else {
      ExtendRowsIgnoreChunks(core.deliveries, op.cid, op.receipts, op.visibleAt, RECEIPTS_PER_CHUNK);
    }
  }

  lemma KeptMoves(before: Core, h: History, op: Op, after: Core)
    requires !op.AckOp? && !op.PurgeOp?
    requires after == before.(deliveries := after.deliveries) && after.deliveries.Keys == before.deliveries.Keys
    ensures Moves(before, h, after, Record(h, before, op, after))
  {
    hide Archived;
    SameHistory(h, before, op, after);
  }

  /** Archiving turns live rows into archives. */
  lemma ArchiveSwaps(core: Core, cid: nat, receipts: seq<Receipt>, archivedAt: int, detail: Option<string>)
    requires CoreOk(core)
    ensures var after, hits := Archive(core, cid, receipts, archivedAt, detail).0, Hit(core.deliveries, cid, receipts);
      && SameLog(core, after) && hits <= core.deliveries.Keys
      && after.deliveries.Keys == core.deliveries.Keys - hits
      && (forall s :: Archived(after.archives, s) <==> Archived(core.archives, s) || s in hits)
  {
    hide Hit, MessagesOf, Sorted, NextIds;
    ArchiveAllowed(core, cid, receipts);
    ArchiveAdds(core, cid, Hit(core.deliveries, cid, receipts), archivedAt, detail);
  }

  /** Archives with new rows of their own hold the slots of both. */
  lemma ArchivedByEither(archives: map<nat, ArchiveRow>, rows: map<nat, ArchiveRow>, s: Slot)
    requires archives.Keys !! rows.Keys
    ensures Archived(archives + rows, s) <==> Archived(archives, s) || Archived(rows, s)
  {
    var all := archives + rows;
    if a :| a in archives && archives[a].slot == s { assert all[a].slot == s; }
    if a :| a in rows && rows[a].slot == s { assert all[a].slot == s; }
  }

  /** The new rows of an archive statement hold exactly the slots it moves. */
  lemma NewlyArchived(deliveries: map<Slot, Lease>, last: nat, cid: nat, hits: set<Slot>, moved: seq<nat>, archivedAt: int, detail: Option<string>, s: Slot)
    requires forall t | t in hits :: t.consumer == cid && t.message in moved
    requires forall i | 0 <= i < |moved| :: Slot(cid, moved[i]) in deliveries && Slot(cid, moved[i]) in hits
    ensures Archived(NewArchives(deliveries, last, cid, moved, archivedAt, detail), s) <==> s in hits
  {
    hide NextIds;
    var rows := NewArchives(deliveries, last, cid, moved, archivedAt, detail);
    if s in hits {
      var i :| 0 <= i < |moved| && moved[i] == s.message;
      assert last + 1 + i in rows && rows[last + 1 + i].slot == s;
    }
  }

  lemma ArchiveAdds(core: Core, cid: nat, hits: set<Slot>, archivedAt: int, detail: Option<string>)
    requires ArchivesOk(core) && hits <= core.deliveries.Keys && forall s | s in hits :: s.consumer == cid
    ensures var moved := Sorted(MessagesOf(hits));
      && (forall i | 0 <= i < |moved| :: Slot(cid, moved[i]) in core.deliveries)
      && var archives := core.archives + NewArchives(core.deliveries, core.archiveSeq, cid, moved, archivedAt, detail);
      (forall s :: Archived(archives, s) <==> Archived(core.archives, s) || s in hits)
  {
    hide Sorted, MessagesOf, UniqueSlots, NewArchives, Archived, SlotOk;
    MovedRows(core, cid, hits, archivedAt, detail);
    var moved := Sorted(MessagesOf(hits));
    var rows := NewArchives(core.deliveries, core.archiveSeq, cid, moved, archivedAt, detail);
    assert core.archives.Keys !! rows.Keys;
    forall s ensures Archived(core.archives + rows, s) <==> Archived(core.archives, s) || s in hits {
      ArchivedByEither(core.archives, rows, s);
      NewlyArchived(core.deliveries, core.archiveSeq, cid, hits, moved, archivedAt, detail, s);
    }
  }

  lemma ArchiveMoves(e: Eager, h: History, op: Op)
    requires CoreOk(e.core) && Balanced(e, h) && op.ArchiveOp?
    ensures var after := Archive(e.core, op.cid, op.receipts, op.archivedAt, op.detail).0;
      Moves(e.core, h, after, Record(h, e.core, op, after))
  {
    hide Hit, CoreOk, HistoryOk, Conserved, Archived, Archive;
    var after := Archive(e.core, op.cid, op.receipts, op.archivedAt, op.detail).0;
    ArchiveSwaps(e.core, op.cid, op.receipts, op.archivedAt, op.detail);
    SameHistory(h, e.core, op, after);
    forall s | s in Hit(e.core.deliveries, op.cid, op.receipts) ensures !Archived(e.core.archives, s) {
      MaterializedOnly(e, h, s);
    }
  }

  /** Removing archives un-archives exactly their slots. */
  lemma ArchivesRemoved(core: Core, ids: set<nat>)
    requires ArchivesOk(core) && ids <= core.archives.Keys
    ensures forall s :: Archived(core.archives - ids, s) <==> Archived(core.archives, s) && s !in SlotsOf(core, ids)
    ensures forall s | s in SlotsOf(core, ids) :: Archived(core.archives, s) && s !in core.deliveries
  {
    hide SlotsOf;
    var rest := core.archives - ids;
    forall s ensures Archived(rest, s) <==> Archived(core.archives, s) && s !in SlotsOf(core, ids) {
      if a :| a in core.archives && core.archives[a].slot == s {
        if s in SlotsOf(core, ids) {
          assert a in ids;
        } else {
          assert a in rest && rest[a].slot == s;
        }
      }
    }
  }

  lemma RedriveMoves(e: Eager, h: History, op: Op)
    requires CoreOk(e.core) && Balanced(e, h) && op.RedriveOp?
    ensures var after := Redrive(e.core, op.cid, op.archiveIds, op.visibleAt).0;
      Moves(e.core, h, after, Record(h, e.core, op, after))
  {
    hide HistoryOk, Conserved, Archived, SlotsOf, CoreOk;
    var after := Redrive(e.core, op.cid, op.archiveIds, op.visibleAt).0;
    RedriveKept(e.core, op.cid, op.archiveIds, op.visibleAt);
    CoreArchivesOk(e.core);
    ArchivesRemoved(e.core, Redriven(e.core, op.cid, op.archiveIds));
    SameHistory(h, e.core, op, after);
  }

  lemma CoreArchivesOk(core: Core)
    requires CoreOk(core)
    ensures ArchivesOk(core)
  {
  }

  lemma PurgeMoves(e: Eager, h: History, op: Op)
    requires CoreOk(e.core) && Balanced(e, h) && op.PurgeOp?
    ensures var after := PurgeArchives(e.core, op.cid, op.before, op.limit).0;
      Moves(e.core, h, after, Record(h, e.core, op, after))
  {
    hide HistoryOk, Conserved, Archived, SlotsOf, CoreOk, Lowest;
    var after := PurgeArchives(e.core, op.cid, op.before, op.limit).0;
    CoreArchivesOk(e.core);
    var victims := PurgeVictims(e.core, op.cid, op.before, op.limit);
    ArchivesRemoved(e.core, victims);
    SameHistory(h, e.core, op, after);
    forall s | s in SlotsOf(e.core, victims) ensures s !in h.purged {
      ArchivedOnly(e, h, s);
    }
  }

  lemma OnCoreBalanced(e: Eager, h: History, op: Op)
    requires CoreOk(e.core) && Balanced(e, h) && OnCore(op)
    ensures var core := CoreStep(e.core, op).0;
      Balanced(Eager(core, e.pending), Record(h, e.core, op, core))
  {
    hide CoreOk, Balanced, Moves, Record, Ack, Nack, Extend, Archive, Redrive, PurgeArchives, ListArchives;
    var core := CoreStep(e.core, op).0;
    if op.AckOp? {
      AckMoves(e, h, op);
    } else if op.ArchiveOp? {
      ArchiveMoves(e, h, op);
    } else if op.RedriveOp? {
      RedriveMoves(e, h, op);
    } else if op.PurgeOp? {
      PurgeMoves(e, h, op);
    } else {
      if !op.ListOp? { RowsKept(e.core, op); }
      KeptMoves(e.core, h, op, core);
    }
    MovesBalance(e, h, core, Record(h, e.core, op, core));
  }

  // ---- Publishing, claiming, opening, draining, deleting, pruning ------------------------

  lemma PublishBalanced(e: Eager, h: History, op: Op)
    requires EagerWf(e) && Balanced(e, h) && op.PublishOp?
    ensures var after := FanOut(e, op.batch, op.now, op.window).0;
      Balanced(after, Record(h, e.core, op, after.core))
  {
    hide PublishAll, Archived, LedgerOk, ConsumersOk, DeliveriesOk, ArchivesOk;
    PublishAllAppends(e.core, op.batch, op.now, op.window);
    var after := FanOut(e, op.batch, op.now, op.window).0;
    AppendBalanced(e, h, op, after);
  }

  lemma AppendBalanced(e: Eager, h: History, op: Op, after: Eager)
    requires EagerWf(e) && Balanced(e, h) && !op.AckOp? && !op.PurgeOp?
    requires Appended(e.core, after.core) && MessagesOk(after.core)
    requires after.pending == map c | c in e.pending :: e.pending[c] + Copies(e.core, after.core, e.core.consumers[c])
    ensures Balanced(after, Record(h, e.core, op, after.core))
  {
    hide Archived, LedgerOk, ConsumersOk, DeliveriesOk, ArchivesOk, SlotsOf, PurgeVictims, Hit, Conserved, HistoryOk, NewTopics, Newcomers, NewlyDraining, Places, Due;
    var h' := Record(h, e.core, op, after.core);
    NoNewConsumers(e.core, after.core.consumers);
    assert h' == h.(topics := h.topics + NewTopics(e.core.messages, after.core.messages));
    forall s: Slot | s.consumer in after.core.consumers
      ensures Places(after, h', s) == One(Due(h', s.consumer, after.core.consumers[s.consumer], s.message))
    {
      AppendPlaces(e, h, after, s);
    }
    ConservedIs(after, h');
    AppendHistory(e.core, after.core, h);
  }

  lemma AppendHistory(before: Core, after: Core, h: History)
    requires HistoryOk(before, h) && Appended(before, after) && MessagesOk(after)
    ensures HistoryOk(after, h.(topics := h.topics + NewTopics(before.messages, after.messages)))
  {
  }

  lemma ConservedIs(e: Eager, h: History)
    requires forall s: Slot | s.consumer in e.core.consumers ::
      Places(e, h, s) == One(Due(h, s.consumer, e.core.consumers[s.consumer], s.message))
    ensures Conserved(e, h)
  {
    hide Places, Due;
  }

  lemma AppendPlaces(e: Eager, h: History, after: Eager, s: Slot)
    requires MessagesOk(e.core) && HistoryOk(e.core, h) && Conserved(e, h) && s.consumer in e.core.consumers && s.consumer in e.pending
    requires Appended(e.core, after.core) && MessagesOk(after.core)
    requires s.consumer in after.pending && after.pending[s.consumer] == e.pending[s.consumer] + Copies(e.core, after.core, e.core.consumers[s.consumer])
    ensures var h' := h.(topics := h.topics + NewTopics(e.core.messages, after.core.messages));
      Places(after, h', s) == One(Due(h', s.consumer, e.core.consumers[s.consumer], s.message))
  {
    hide Archived;
    var row := e.core.consumers[s.consumer];
    assert Places(e, h, s) == One(Due(h, s.consumer, row, s.message));
  }

  lemma ClaimBalanced(e: Eager, h: History, op: Op)
    requires EagerWf(e) && Balanced(e, h) && op.ClaimOp? && op.cid in e.core.consumers
    ensures var after := Deliver(e, op.cid, op.max, op.now, op.now + op.lease).0;
      Balanced(after, Record(h, e.core, op, after.core))
  {
    hide Retries, Lowest, LeaseOut, LeaseRows, EagerWf, Balanced, Deliver, Record;
    EagerHasInbox(e, op.cid);
    DeliverTakes(e, op.cid, op.max, op.now, op.now + op.lease);
    var retries := Retries(e.core, op.cid, op.max, op.now);
    var taken := Lowest(e.pending[op.cid], op.max - |retries|);
    TakeBalanced(e, h, op, op.cid, retries, taken, op.now + op.lease);
  }

  lemma EagerHasInbox(e: Eager, cid: nat)
    requires EagerWf(e) && cid in e.core.consumers
    ensures cid in e.pending
  {
  }

  lemma DeliverTakes(e: Eager, cid: nat, max: nat, now: int, deadline: int)
    requires EagerWf(e) && cid in e.core.consumers
    ensures var retries := Retries(e.core, cid, max, now);
      |retries| <= max && var taken := Lowest(e.pending[cid], max - |retries|);
      && (forall m | m in retries :: Slot(cid, m) in e.core.deliveries)
      && Deliver(e, cid, max, now, deadline).0 ==
           Eager(e.core.(deliveries := LeaseRows(e.core.deliveries, cid, retries, taken, deadline)), e.pending[cid := e.pending[cid] - taken])
  {
    hide Retries, Lowest, LeaseOut, LeaseRows, CoreOk, Deliver, PendingOk;
    EagerHasInbox(e, cid);
    RetriesVisible(e.core, cid, max, now);
    var retries := Retries(e.core, cid, max, now);
    var taken := Lowest(e.pending[cid], max - |retries|);
    PendingClaimable(e, cid, retries, taken);
    LeaseOutKept(e.core, cid, retries, taken, deadline);
    DeliverIs(e, cid, max, now, deadline, taken);
  }

  lemma PendingClaimable(e: Eager, cid: nat, retries: set<nat>, taken: set<nat>)
    requires EagerWf(e) && cid in e.pending && taken <= e.pending[cid]
    requires forall m | m in retries :: Slot(cid, m) in e.core.deliveries
    ensures Claimable(e.core, cid, retries, taken)
  {
    hide CoreOk;
  }

  lemma TakeBalanced(e: Eager, h: History, op: Op, cid: nat, retries: set<nat>, taken: set<nat>, deadline: int)
    requires EagerWf(e) && Balanced(e, h) && op.ClaimOp? && cid in e.pending && taken <= e.pending[cid]
    ensures var after := Eager(e.core.(deliveries := LeaseRows(e.core.deliveries, cid, retries, taken, deadline)), e.pending[cid := e.pending[cid] - taken]);
      Balanced(after, Record(h, e.core, op, after.core))
  {
    hide Archived, CoreOk, PendingOk, SlotsOf, PurgeVictims, Hit, LeaseRows, Due, Record, Places;
    var after := Eager(e.core.(deliveries := LeaseRows(e.core.deliveries, cid, retries, taken, deadline)), e.pending[cid := e.pending[cid] - taken]);
    NoTrace(h, e.core, op, after.core);
    forall s: Slot | s.consumer in after.core.consumers
      ensures Places(after, h, s) == One(Due(h, s.consumer, after.core.consumers[s.consumer], s.message))
    {
      TakePlaces(e, h, cid, retries, taken, deadline, s);
    }
  }

  /** A copy taken moves from the inbox to the deliveries; the others stay where they are. */
  lemma TakePlaces(e: Eager, h: History, cid: nat, retries: set<nat>, taken: set<nat>, deadline: int, s: Slot)
    requires EagerWf(e) && cid in e.pending && taken <= e.pending[cid]
    ensures var after := Eager(e.core.(deliveries := LeaseRows(e.core.deliveries, cid, retries, taken, deadline)), e.pending[cid := e.pending[cid] - taken]);
      Places(after, h, s) == Places(e, h, s)
  {
    hide Archived, CoreOk, LeaseRows;
    if s.consumer == cid && s.message in taken {
      assert Slot(cid, s.message) !in e.core.deliveries;
    }
  }

  lemma OpenBalanced(e: Eager, h: History, op: Op)
    requires EagerWf(e) && Balanced(e, h) && op.OpenOp?
    ensures var after := Subscribe(e, op.name, op.filter, op.now).0;
      Balanced(after, Record(h, e.core, op, after.core))
  {
    hide FindConsumer, EagerWf, Balanced, Record;
    var after := Subscribe(e, op.name, op.filter, op.now).0;
    if after == e {
      NoTrace(h, e.core, op, e.core);
    } else {
      RecordNewcomer(e, h, op, ConsumerRow(op.name, op.filter, op.now, None));
      NewcomerBalanced(e, h, after, Record(h, e.core, op, after.core), ConsumerRow(op.name, op.filter, op.now, None));
    }
  }

  lemma RecordNewcomer(e: Eager, h: History, op: Op, row: ConsumerRow)
    requires EagerWf(e) && op.OpenOp? && row.drainingAt.None?
    ensures var id := e.core.consumerSeq + 1;
      Record(h, e.core, op, e.core.(consumers := e.core.consumers[id := row], consumerSeq := id)) == h.(born := h.born[id := e.core.messageSeq])
  {
    hide SlotsOf, PurgeVictims, Hit, NewTopics, Newcomers, NewlyDraining, EagerWf;
    NoNewTopics(e.core.messages, e.core.messages);
    EagerNewId(e);
    OneNewcomer(e.core, h, row);
  }

  lemma OneNewcomer(core: Core, h: History, row: ConsumerRow)
    requires core.consumerSeq + 1 !in core.consumers && row.drainingAt.None?
    ensures var id := core.consumerSeq + 1;
      && h.born + Newcomers(core, core.consumers[id := row]) == h.born[id := core.messageSeq]
      && h.closed + NewlyDraining(core, core.consumers[id := row]) == h.closed
  {
    var id := core.consumerSeq + 1;
    assert Newcomers(core, core.consumers[id := row]) == map[id := core.messageSeq];
    assert NewlyDraining(core, core.consumers[id := row]) == map[];
  }

  /** A consumer that has just come is owed nothing and has nothing. */
  lemma NewcomerPlaces(e: Eager, h: History, after: Eager, h': History, row: ConsumerRow, s: Slot)
    requires EagerWf(e) && Balanced(e, h) && s.consumer in after.core.consumers
    requires var id := e.core.consumerSeq + 1;
      && after == Eager(e.core.(consumers := e.core.consumers[id := row], consumerSeq := id), e.pending[id := {}])
      && h' == h.(born := h.born[id := e.core.messageSeq])
    ensures Places(after, h', s) == One(Due(h', s.consumer, after.core.consumers[s.consumer], s.message))
  {
    hide CoreOk, PendingOk, Archived;
    if s.consumer == e.core.consumerSeq + 1 {
      NewcomerOwnsNothing(e.core, s);
    } else {
      assert Places(e, h, s) == One(Due(h, s.consumer, e.core.consumers[s.consumer], s.message));
    }
  }

  lemma NewcomerOwnsNothing(core: Core, s: Slot)
    requires CoreOk(core) && s.consumer == core.consumerSeq + 1
    ensures s !in core.deliveries && !Archived(core.archives, s)
  {
    CopiesOwned(core);
    NewId(core);
  }

  lemma NewcomerBalanced(e: Eager, h: History, after: Eager, h': History, row: ConsumerRow)
    requires EagerWf(e) && Balanced(e, h) && row.drainingAt.None?
    requires var id := e.core.consumerSeq + 1;
      && after == Eager(e.core.(consumers := e.core.consumers[id := row], consumerSeq := id), e.pending[id := {}])
      && h' == h.(born := h.born[id := e.core.messageSeq])
    ensures Balanced(after, h')
  {
    hide CoreOk, PendingOk, Places, Due;
    EagerNewId(e);
    forall s: Slot | s.consumer in after.core.consumers
      ensures Places(after, h', s) == One(Due(h', s.consumer, after.core.consumers[s.consumer], s.message))
    {
      NewcomerPlaces(e, h, after, h', row, s);
    }
  }

  lemma EagerNewId(e: Eager)
    requires EagerWf(e)
    ensures e.core.consumerSeq + 1 !in e.core.consumers
  {
    NewId(e.core);
  }

  lemma DrainBalanced(e: Eager, h: History, op: Op)
    requires EagerWf(e) && Balanced(e, h) && op.DrainOp?
    ensures var core := MarkDraining(e.core, op.cid, op.now).0;
      Balanced(Eager(core, e.pending), Record(h, e.core, op, core))
  {
    hide EagerWf, Balanced, Record;
    var core := MarkDraining(e.core, op.cid, op.now).0;
    if core == e.core {
      NoTrace(h, e.core, op, core);
    } else {
      EagerHasConsumers(e);
      RecordDraining(e.core, h, op, core.consumers);
      ClosedBalanced(e, h, op.cid, core);
    }
  }

  lemma RecordDraining(core: Core, h: History, op: Op, consumers: map<nat, ConsumerRow>)
    requires op.DrainOp? && op.cid in core.consumers && core.consumers[op.cid].drainingAt.None?
    requires consumers == core.consumers[op.cid := core.consumers[op.cid].(drainingAt := Some(op.now))]
    ensures Record(h, core, op, core.(consumers := consumers)) == h.(closed := h.closed[op.cid := core.messageSeq])
  {
    hide SlotsOf, PurgeVictims, Hit, NewTopics, Newcomers, NewlyDraining;
    NoNewTopics(core.messages, core.messages);
    OneDraining(core, h, op.cid, op.now, consumers);
  }

  lemma OneDraining(core: Core, h: History, cid: nat, now: int, consumers: map<nat, ConsumerRow>)
    requires cid in core.consumers && core.consumers[cid].drainingAt.None?
    requires consumers == core.consumers[cid := core.consumers[cid].(drainingAt := Some(now))]
    ensures h.born + Newcomers(core, consumers) == h.born
    ensures h.closed + NewlyDraining(core, consumers) == h.closed[cid := core.messageSeq]
  {
    assert Newcomers(core, consumers) == map[];
    assert NewlyDraining(core, consumers) == map[cid := core.messageSeq];
  }

  lemma ClosedBalanced(e: Eager, h: History, cid: nat, core: Core)
    requires Balanced(e, h) && cid in e.core.consumers && cid <= e.core.consumerSeq && e.core.consumers[cid].drainingAt.None?
    requires core.consumers.Keys == e.core.consumers.Keys && core.consumers[cid].drainingAt.Some? && core.consumers[cid].filter == e.core.consumers[cid].filter
    requires forall c | c in core.consumers && c != cid :: core.consumers[c] == e.core.consumers[c]
    requires core == e.core.(consumers := core.consumers)
    ensures Balanced(Eager(core, e.pending), h.(closed := h.closed[cid := core.messageSeq]))
  {
    hide Archived;
    var h' := h.(closed := h.closed[cid := core.messageSeq]);
    forall s: Slot | s.consumer in core.consumers
      ensures Places(Eager(core, e.pending), h', s) == One(Due(h', s.consumer, core.consumers[s.consumer], s.message))
    {
      assert Places(e, h, s) == One(Due(h, s.consumer, e.core.consumers[s.consumer], s.message));
    }
  }

  lemma EagerHasConsumers(e: Eager)
    requires EagerWf(e)
    ensures forall c | c in e.core.consumers :: c <= e.core.consumerSeq
  {
  }

  lemma DeleteBalanced(e: Eager, h: History, op: Op)
    requires EagerWf(e) && Balanced(e, h) && op.DeleteOp?
    ensures var after := Unsubscribe(e, op.name, op.mode).0;
      Balanced(after, Record(h, e.core, op, after.core))
  {
    hide FindConsumer, SlotsOf, PurgeVictims, Hit, CoreOk, PendingOk, Without, DeleteAnswer, Balanced, Record;
    var after := Unsubscribe(e, op.name, op.mode).0;
    if after == e {
      NothingBalanced(e, h, op);
    } else {
      var id := FindConsumer(e.core, op.name).value;
      DroppedBalanced(e, h, op, id);
    }
  }

  lemma NothingBalanced(e: Eager, h: History, op: Op)
    requires Balanced(e, h) && !op.AckOp? && !op.PurgeOp?
    ensures Balanced(e, Record(h, e.core, op, e.core))
  {
    hide Balanced, Record;
    NoTrace(h, e.core, op, e.core);
  }

  lemma DroppedBalanced(e: Eager, h: History, op: Op, id: nat)
    requires EagerWf(e) && Balanced(e, h) && !op.AckOp? && !op.PurgeOp?
    ensures var after := Eager(Without(e.core, id), e.pending - {id});
      Balanced(after, Record(h, e.core, op, after.core))
  {
    hide Record, Archived, CoreOk, PendingOk;
    var after := Eager(Without(e.core, id), e.pending - {id});
    NoTrace(h, e.core, op, after.core);
    forall s: Slot | s.consumer in after.core.consumers
      ensures Places(after, h, s) == One(Due(h, s.consumer, after.core.consumers[s.consumer], s.message))
    {
      assert Places(e, h, s) == One(Due(h, s.consumer, e.core.consumers[s.consumer], s.message));
      OthersArchived(e.core, id, s);
    }
  }

  lemma OthersArchived(core: Core, id: nat, s: Slot)
    requires s.consumer != id
    ensures Archived(Without(core, id).archives, s) <==> Archived(core.archives, s)
  {
    if a :| a in core.archives && core.archives[a].slot == s {
      assert a in Without(core, id).archives;
    }
  }

  lemma PruneBalanced(e: Eager, h: History, op: Op)
    requires EagerWf(e) && Balanced(e, h) && op.PruneOp?
    ensures var after := Forget(e, op.before, op.limit).0;
      Balanced(after, Record(h, e.core, op, after.core))
  {
    hide Record, CoreOk, PendingOk, Archived, Lowest, DropMessages, Due;
    var idle := set m | m in e.core.messages && e.core.messages[m].publishedAt < op.before && !Held(e, m);
    DropKept(e.core, Lowest(idle, op.limit));
    var after := Forget(e, op.before, op.limit).0;
    NoTrace(h, e.core, op, after.core);
    forall s: Slot | s.consumer in after.core.consumers
      ensures Places(after, h, s) == One(Due(h, s.consumer, after.core.consumers[s.consumer], s.message))
    {
      assert Places(e, h, s) == One(Due(h, s.consumer, e.core.consumers[s.consumer], s.message));
    }
  }

  lemma LogBalanced(e: Eager, h: History, op: Op)
    requires EagerWf(e) && Balanced(e, h) && !OnCore(op)
    ensures var after := EagerStep(e, op).0;
      Balanced(after, Record(h, e.core, op, after.core))
  {
    hide EagerWf, Balanced, Record, Subscribe, MarkDraining, FanOut, Deliver, SnapshotOf, Unsubscribe, Forget;
    if op.OpenOp? {
      OpenBalanced(e, h, op);
    } else if op.DrainOp? {
      DrainBalanced(e, h, op);
    } else if op.PublishOp? {
      PublishBalanced(e, h, op);
    } else if op.ClaimOp? {
      ClaimOrNothingBalanced(e, h, op);
    } else if op.DeleteOp? {
      DeleteBalanced(e, h, op);
    } else if op.PruneOp? {
      PruneBalanced(e, h, op);
    } else {
      NothingBalanced(e, h, op);
    }
  }

  lemma ClaimOrNothingBalanced(e: Eager, h: History, op: Op)
    requires EagerWf(e) && Balanced(e, h) && op.ClaimOp?
    ensures var after := Deliver(e, op.cid, op.max, op.now, op.now + op.lease).0;
      Balanced(after, Record(h, e.core, op, after.core))
  {
    hide EagerWf, Balanced, Record, Retries, LeaseOut, Lowest;
    if op.cid in e.core.consumers {
      ClaimBalanced(e, h, op);
    } else {
      NothingBalanced(e, h, op);
    }
  }

  // ---- Runs -----------------------------------------------------------------------------

  lemma StepBalanced(db: Db, h: History, op: Op)
    requires Wf(db) && Balanced(Abstract(db), h)
    ensures Balanced(Abstract(Step(db, op).0), Record(h, db.core, op, Step(db, op).0.core))
  {
    hide Wf, Step, EagerStep, CoreStep, Abstract, Balanced, Record, CoreOk, PendingOk;
    AbstractWf(db);
    AbstractShares(db);
    StepAgrees(db, op);
    StepKept(db, op);
    AbstractShares(Step(db, op).0);
    if OnCore(op) {
      OnCoreBalanced(Abstract(db), h, op);
      EagerOnCore(Abstract(db), op);
    } else {
      LogBalanced(Abstract(db), h, op);
    }
  }

  lemma {:induction false} RunBalanced(db: Db, h: History, ops: seq<Op>)
    requires Wf(db) && Balanced(Abstract(db), h)
    ensures Balanced(Abstract(Run(db, ops)), Chronicle(h, db, ops))
    decreases |ops|
  {
    hide Wf, Step, Abstract, Balanced, Record;
    if ops != [] {
      StepBalanced(db, h, ops[0]);
      StepKept(db, ops[0]);
      RunBalanced(Step(db, ops[0]).0, Record(h, db.core, ops[0], Step(db, ops[0]).0.core), ops[1..]);
    }
  }

  /**
   After any run, a message owed to a consumer is in exactly one of: not yet scanned,
   materialized, archived, acknowledged, purged; and a message not owed is in none.
   */
  lemma NothingLostNothingDoubled(ops: seq<Op>)
    ensures var db, h := Run(EMPTY_DB, ops), Chronicle(NO_HISTORY, EMPTY_DB, ops);
      forall s: Slot | s.consumer in db.core.consumers && s.consumer in db.cursors ::
        One(s.message in Backlog(db, s.consumer)) + One(s in db.core.deliveries) + One(Archived(db.core.archives, s))
        + One(s in h.acked) + One(s in h.purged)
        == One(Due(h, s.consumer, db.core.consumers[s.consumer], s.message))
  {
    hide Run, Chronicle, Balanced, Wf, Abstract, Places, Due, Backlog, Archived;
    StartsBalanced();
    RunBalanced(EMPTY_DB, NO_HISTORY, ops);
    PlacesOf(Run(EMPTY_DB, ops), Chronicle(NO_HISTORY, EMPTY_DB, ops));
  }

  lemma PlacesOf(db: Db, h: History)
    requires Balanced(Abstract(db), h)
    ensures forall s: Slot | s.consumer in db.core.consumers && s.consumer in db.cursors ::
      One(s.message in Backlog(db, s.consumer)) + One(s in db.core.deliveries) + One(Archived(db.core.archives, s))
      + One(s in h.acked) + One(s in h.purged)
      == One(Due(h, s.consumer, db.core.consumers[s.consumer], s.message))
  {
    hide Backlog, Archived, Due, HistoryOk;
    forall s: Slot | s.consumer in db.core.consumers && s.consumer in db.cursors
      ensures Places(Abstract(db), h, s) == One(Due(h, s.consumer, db.core.consumers[s.consumer], s.message))
    {}
  }

  lemma StartsBalanced()
    ensures Wf(EMPTY_DB) && Balanced(Abstract(EMPTY_DB), NO_HISTORY)
  {
  }
}
