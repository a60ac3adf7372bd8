/**
 Receipt and archive statements, one chunk each, and the loops that send a whole batch
 through them inside one transaction.
 */
module Settling {
  import opened Prelude
  import opened Ranking
  import opened Schema
  import opened Transactions
  import opened Receipts
  import opened Invariants
  import opened Storage
  import opened Conservation

  // ---- Acknowledge, nack, extend --------------------------------------------------------

  lemma HitWithout(rows: map<Slot, Lease>, cid: nat, first: seq<Receipt>, second: seq<Receipt>)
    ensures Hit(rows, cid, first + second) == Hit(rows, cid, first) + Hit(rows - Hit(rows, cid, first), cid, second)
    ensures |Hit(rows, cid, first + second)| == |Hit(rows, cid, first)| + |Hit(rows - Hit(rows, cid, first), cid, second)|
  {
    var left := rows - Hit(rows, cid, first);
    assert Hit(rows, cid, first + second) == Hit(rows, cid, first) + Hit(left, cid, second);
    assert Hit(rows, cid, first) !! Hit(left, cid, second);
  }

  lemma NoReceipts(rows: map<Slot, Lease>, cid: nat)
    ensures Hit(rows, cid, []) == {} && rows - {} == rows
  {
  }

  /** DELETE FROM litefan_deliveries WHERE consumer_id = ? AND (...) IN (...). */
  function AckStatement(rows: map<Slot, Lease>, cid: nat, receipts: seq<Receipt>): (map<Slot, Lease>, nat)
    requires 1 + 3 * |receipts| <= MAX_SQL_VARIABLES
  {
    (rows - Hit(rows, cid, receipts), |Hit(rows, cid, receipts)|)
  }

  /** However the batch is chunked, the rows deleted are those one statement would delete. */
  method AckChunks(rows: map<Slot, Lease>, cid: nat, receipts: seq<Receipt>) returns (after: map<Slot, Lease>, applied: nat)
    ensures after == rows - Hit(rows, cid, receipts) && applied == |Hit(rows, cid, receipts)|
  {
    hide Hit;
    after, applied := rows, 0;
    var i := 0;
    NoReceipts(rows, cid);
    while i < |receipts|
      invariant i <= |receipts|
      invariant after == rows - Hit(rows, cid, receipts[..i]) && applied == |Hit(rows, cid, receipts[..i])|
    {
      var chunk := Chunk(receipts, i, RECEIPTS_PER_CHUNK);
      HitWithout(rows, cid, receipts[..i], chunk);
      assert receipts[..i] + chunk == receipts[..i + |chunk|];
      var step := AckStatement(after, cid, chunk);
      after, applied := step.0, applied + step.1;
      i := i + |chunk|;
    }
    assert receipts[..i] == receipts;
  }

  function NackStatement(rows: map<Slot, Lease>, cid: nat, receipts: seq<Receipt>, visibleAt: int): (map<Slot, Lease>, nat)
    requires 2 + 3 * |receipts| <= MAX_SQL_VARIABLES
  {
    (NackRows(rows, cid, receipts, visibleAt), |Hit(rows, cid, receipts)|)
  }

  method NackBatch(rows: map<Slot, Lease>, cid: nat, receipts: seq<Receipt>, visibleAt: int) returns (after: map<Slot, Lease>, applied: nat)
    ensures (after, applied) == NackChunks(rows, cid, receipts, visibleAt, RECEIPTS_PER_CHUNK)
  {
    hide Hit, NackRows;
    after, applied := rows, 0;
    var i := 0;
    assert receipts[0..] == receipts;
    while i < |receipts|
      invariant i <= |receipts|
      invariant var rest := NackChunks(after, cid, receipts[i..], visibleAt, RECEIPTS_PER_CHUNK);
        NackChunks(rows, cid, receipts, visibleAt, RECEIPTS_PER_CHUNK) == (rest.0, applied + rest.1)
    {
      var chunk := Chunk(receipts, i, RECEIPTS_PER_CHUNK);
      assert receipts[i..][..|chunk|] == chunk && receipts[i..][|chunk|..] == receipts[i + |chunk|..];
      var step := NackStatement(after, cid, chunk, visibleAt);
      after, applied := step.0, applied + step.1;
      i := i + |chunk|;
    }
  }

  function ExtendStatement(rows: map<Slot, Lease>, cid: nat, receipts: seq<Receipt>, visibleAt: int): (map<Slot, Lease>, nat)
    requires 2 + 3 * |receipts| <= MAX_SQL_VARIABLES
  {
    (ExtendRows(rows, cid, receipts, visibleAt), |Hit(rows, cid, receipts)|)
  }

  method ExtendBatch(rows: map<Slot, Lease>, cid: nat, receipts: seq<Receipt>, visibleAt: int) returns (after: map<Slot, Lease>, applied: nat)
    ensures (after, applied) == ExtendChunks(rows, cid, receipts, visibleAt, RECEIPTS_PER_CHUNK)
  {
    hide Hit, ExtendRows;
    after, applied := rows, 0;
    var i := 0;
    assert receipts[0..] == receipts;
    while i < |receipts|
      invariant i <= |receipts|
      invariant var rest := ExtendChunks(after, cid, receipts[i..], visibleAt, RECEIPTS_PER_CHUNK);
        ExtendChunks(rows, cid, receipts, visibleAt, RECEIPTS_PER_CHUNK) == (rest.0, applied + rest.1)
    {
      var chunk := Chunk(receipts, i, RECEIPTS_PER_CHUNK);
      assert receipts[i..][..|chunk|] == chunk && receipts[i..][|chunk|..] == receipts[i + |chunk|..];
      var step := ExtendStatement(after, cid, chunk, visibleAt);
      after, applied := step.0, applied + step.1;
      i := i + |chunk|;
    }
  }

  // ---- Rows that statements return ------------------------------------------------------

  /** A row reported by RETURNING message_id, generation, delivery_count. */
  datatype Returned = Returned(message: nat, generation: nat, deliveryCount: nat)

  function ReturnedFrom(rows: map<Slot, Lease>, cid: nat, m: nat): Returned
    requires Slot(cid, m) in rows
  {
    Returned(m, rows[Slot(cid, m)].generation, rows[Slot(cid, m)].deliveryCount)
  }

  /** The rows of these messages, each once, in whatever order. */
  ghost predicate Reports(returned: seq<Returned>, rows: map<Slot, Lease>, cid: nat, ids: set<nat>) {
    && |returned| == |ids|
    && (forall m | m in ids :: Slot(cid, m) in rows && ReturnedFrom(rows, cid, m) in returned)
    && (forall r | r in returned :: r.message in ids && Slot(cid, r.message) in rows && r == ReturnedFrom(rows, cid, r.message))
  }

  /** What RETURNING yields for a set of rows; callers know nothing of its order. */
  method Report(rows: map<Slot, Lease>, cid: nat, ids: set<nat>) returns (returned: seq<Returned>)
    requires forall m | m in ids :: Slot(cid, m) in rows
    ensures Reports(returned, rows, cid, ids)
  {
    returned := [];
    var left := ids;
    ghost var done: set<nat> := {};
    while left != {}
      invariant left !! done && left + done == ids && Reports(returned, rows, cid, done)
      decreases |left|
    {
      var m :| m in left;
      returned := [ReturnedFrom(rows, cid, m)] + returned;
      left, done := left - {m}, done + {m};
    }
  }

  /** sort_unstable_by_key on the message id. */
  method SortByMessage(returned: seq<Returned>, ghost rows: map<Slot, Lease>, ghost cid: nat, ghost ids: set<nat>) returns (sorted: seq<Returned>)
    requires Reports(returned, rows, cid, ids)
    ensures |sorted| == |Sorted(ids)|
    ensures forall i | 0 <= i < |sorted| :: Slot(cid, Sorted(ids)[i]) in rows && sorted[i] == ReturnedFrom(rows, cid, Sorted(ids)[i])
  {
    hide Sorted;
    var messages := set r | r in returned :: r.message;
    forall m ensures m in messages <==> m in ids {
      if m in ids {
        assert ReturnedFrom(rows, cid, m).message == m;
      }
    }
    assert messages == ids;
    var order := Sorted(messages);
    SortedHolds(messages);
    sorted := [];
    for i := 0 to |order|
      invariant |sorted| == i
      invariant forall j | 0 <= j < i :: Slot(cid, order[j]) in rows && sorted[j] == ReturnedFrom(rows, cid, order[j])
    {
      assert order[i] in order;
      assert ReturnedFrom(rows, cid, order[i]) in returned;
      var r :| r in returned && r.message == order[i];
      sorted := sorted + [r];
    }
  }

  lemma ReportsJoin(first: seq<Returned>, second: seq<Returned>, rows: map<Slot, Lease>, cid: nat, a: set<nat>, b: set<nat>)
    requires Reports(first, rows, cid, a) && Reports(second, rows, cid, b) && a !! b
    ensures Reports(first + second, rows, cid, a + b)
  {
  }

  /** Rows that did not change are reported alike. */
  lemma ReportsLater(returned: seq<Returned>, later: map<Slot, Lease>, rows: map<Slot, Lease>, cid: nat, ids: set<nat>)
    requires Reports(returned, later, cid, ids)
    requires forall s | s in later :: s in rows && rows[s] == later[s]
    ensures Reports(returned, rows, cid, ids)
  {
  }

  // ---- Archiving ------------------------------------------------------------------------

  lemma HitsOf(rows: map<Slot, Lease>, cid: nat, receipts: seq<Receipt>)
    ensures forall m | m in MessagesOf(Hit(rows, cid, receipts)) :: Slot(cid, m) in rows && Slot(cid, m) in Hit(rows, cid, receipts)
    ensures |MessagesOf(Hit(rows, cid, receipts))| == |Hit(rows, cid, receipts)|
  {
    var hits := Hit(rows, cid, receipts);
    MessagesOfSize(cid, hits);
    forall m | m in MessagesOf(hits) ensures Slot(cid, m) in hits {
      var s :| s in hits && s.message == m;
      assert s == Slot(cid, m);
    }
  }

  lemma MessagesJoin(rows: map<Slot, Lease>, cid: nat, first: seq<Receipt>, second: seq<Receipt>)
    ensures var later := rows - Hit(rows, cid, first);
      && MessagesOf(Hit(rows, cid, first + second)) == MessagesOf(Hit(rows, cid, first)) + MessagesOf(Hit(later, cid, second))
      && MessagesOf(Hit(rows, cid, first)) !! MessagesOf(Hit(later, cid, second))
  {
    hide Hit;
    HitWithout(rows, cid, first, second);
    var later := rows - Hit(rows, cid, first);
    HitsOf(rows, cid, first);
    HitsOf(later, cid, second);
  }

  /** One more chunk: its rows are gone too, and reported too. */
  lemma TakeStep(rows: map<Slot, Lease>, cid: nat, first: seq<Receipt>, chunk: seq<Receipt>, taken: seq<Returned>, returned: seq<Returned>)
    requires Reports(taken, rows, cid, MessagesOf(Hit(rows, cid, first)))
    requires var later := rows - Hit(rows, cid, first); Reports(returned, later, cid, MessagesOf(Hit(later, cid, chunk)))
    ensures var later := rows - Hit(rows, cid, first);
      && later - Hit(later, cid, chunk) == rows - Hit(rows, cid, first + chunk)
      && Reports(taken + returned, rows, cid, MessagesOf(Hit(rows, cid, first + chunk)))
  {
    hide Hit, MessagesOf, Reports;
    var later := rows - Hit(rows, cid, first);
    HitWithout(rows, cid, first, chunk);
    MessagesJoin(rows, cid, first, chunk);
    ReportsLater(returned, later, rows, cid, MessagesOf(Hit(later, cid, chunk)));
    ReportsJoin(taken, returned, rows, cid, MessagesOf(Hit(rows, cid, first)), MessagesOf(Hit(later, cid, chunk)));
  }

  /** Deletes the receipts' rows chunk by chunk and collects what the statements return. */
  method TakeChunks(rows: map<Slot, Lease>, cid: nat, receipts: seq<Receipt>) returns (after: map<Slot, Lease>, taken: seq<Returned>)
    ensures after == rows - Hit(rows, cid, receipts)
    ensures Reports(taken, rows, cid, MessagesOf(Hit(rows, cid, receipts)))
  {
    hide Hit, MessagesOf, Reports;
    after, taken := rows, [];
    var i := 0;
    NothingReported(rows, cid);
    while i < |receipts|
      invariant i <= |receipts|
      invariant after == rows - Hit(rows, cid, receipts[..i])
      invariant Reports(taken, rows, cid, MessagesOf(Hit(rows, cid, receipts[..i])))
    {
      var chunk := Chunk(receipts, i, RECEIPTS_PER_CHUNK);
      HitsOf(after, cid, chunk);
      var returned := Report(after, cid, MessagesOf(Hit(after, cid, chunk)));
      TakeStep(rows, cid, receipts[..i], chunk, taken, returned);
      assert receipts[..i] + chunk == receipts[..i + |chunk|];
      var step := AckStatement(after, cid, chunk);
      after, taken := step.0, taken + returned;
      i := i + |chunk|;
    }
    assert receipts[..i] == receipts;
  }

  lemma NothingReported(rows: map<Slot, Lease>, cid: nat)
    ensures Hit(rows, cid, []) == {} && rows - {} == rows && MessagesOf({}) == {} && Reports([], rows, cid, {})
  {
  }

  /** Archive rows for leases in this order, with the ids after `last`. */
  function RowsFor(last: nat, cid: nat, leases: seq<Returned>, archivedAt: int, detail: Option<string>): map<nat, ArchiveRow> {
    map a | a in NextIds(last, |leases|) ::
      var lease := leases[a - last - 1];
      ArchiveRow(Slot(cid, lease.message), archivedAt, lease.deliveryCount, lease.generation, detail)
  }

  /** INSERT INTO litefan_archived_deliveries: six values a row; both parents must exist and the copy must be new. */
  function InsertArchivesStatement(core: Core, cid: nat, leases: seq<Returned>, archivedAt: int, detail: Option<string>): (Core, bool)
    requires 6 * |leases| <= MAX_SQL_VARIABLES
  {
    if (leases != [] && cid !in core.consumers)
       || (exists i | 0 <= i < |leases| :: leases[i].message !in core.messages || Archived(core.archives, Slot(cid, leases[i].message)))
       || (exists i, j | 0 <= i < j < |leases| :: leases[i].message == leases[j].message) then (core, false)
    else
      (core.(archives := core.archives + RowsFor(core.archiveSeq, cid, leases, archivedAt, detail),
             archiveSeq := core.archiveSeq + |leases|), true)
  }

  lemma RowsForSplit(last: nat, cid: nat, first: seq<Returned>, second: seq<Returned>, archivedAt: int, detail: Option<string>)
    ensures RowsFor(last, cid, first + second, archivedAt, detail) ==
      RowsFor(last, cid, first, archivedAt, detail) + RowsFor(last + |first|, cid, second, archivedAt, detail)
  {
    hide NextIds;
  }

  /** The messages of rows just archived. */
  lemma ArchivedInRows(last: nat, cid: nat, leases: seq<Returned>, archivedAt: int, detail: Option<string>, s: Slot)
    requires Archived(RowsFor(last, cid, leases, archivedAt, detail), s)
    ensures exists i :: 0 <= i < |leases| && leases[i].message == s.message
  {
    hide NextIds;
    var rows := RowsFor(last, cid, leases, archivedAt, detail);
    var a :| a in rows && rows[a].slot == s;
    assert leases[a - last - 1].message == s.message;
  }

  /** Everything the inserts of a batch need: parents present, no copy archived yet, no message twice. */
  ghost predicate Insertable(core: Core, cid: nat, leases: seq<Returned>) {
    && (leases != [] ==> cid in core.consumers)
    && (forall a | a in core.archives :: a <= core.archiveSeq)
    && (forall i | 0 <= i < |leases| :: leases[i].message in core.messages && !Archived(core.archives, Slot(cid, leases[i].message)))
    && (forall i, j | 0 <= i < j < |leases| :: leases[i].message != leases[j].message)
  }

  /** A later chunk is still insertable after the earlier ones. */
  lemma ChunkInsertable(core: Core, cid: nat, leases: seq<Returned>, i: nat, n: nat, archivedAt: int, detail: Option<string>)
    requires Insertable(core, cid, leases) && i + n <= |leases| && 6 * n <= MAX_SQL_VARIABLES
    ensures var rows := RowsFor(core.archiveSeq, cid, leases[..i], archivedAt, detail);
      var tx := core.(archives := core.archives + rows, archiveSeq := core.archiveSeq + i);
      InsertArchivesStatement(tx, cid, leases[i..i + n], archivedAt, detail).1
  {
    hide RowsFor, Archived;
    var rows := RowsFor(core.archiveSeq, cid, leases[..i], archivedAt, detail);
    FreshIds(core, cid, leases[..i], archivedAt, detail);
    var chunk := leases[i..i + n];
    forall j | 0 <= j < |chunk| ensures !Archived(core.archives + rows, Slot(cid, chunk[j].message)) {
      assert chunk[j] == leases[i + j];
      var s := Slot(cid, chunk[j].message);
      ArchivedByEither(core.archives, rows, s);
      if Archived(rows, s) {
        ArchivedInRows(core.archiveSeq, cid, leases[..i], archivedAt, detail, s);
      }
    }
  }

  lemma FreshIds(core: Core, cid: nat, leases: seq<Returned>, archivedAt: int, detail: Option<string>)
    requires forall a | a in core.archives :: a <= core.archiveSeq
    ensures core.archives.Keys !! RowsFor(core.archiveSeq, cid, leases, archivedAt, detail).Keys
  {
    hide NextIds;
  }

  /** Inserts the archive rows in chunks; the ids follow the order of the leases. */
  method InsertArchivedLeases(core: Core, cid: nat, leases: seq<Returned>, archivedAt: int, detail: Option<string>) returns (after: Core, ok: bool)
    requires Insertable(core, cid, leases)
    ensures ok
    ensures after == core.(archives := core.archives + RowsFor(core.archiveSeq, cid, leases, archivedAt, detail),
                           archiveSeq := core.archiveSeq + |leases|)
  {
    hide RowsFor, InsertArchivesStatement, Insertable;
    after, ok := core, true;
    var i := 0;
    NoRows(core, cid, archivedAt, detail);
    while i < |leases|
      invariant i <= |leases| && ok
      invariant after == WithArchives(core, cid, leases[..i], archivedAt, detail)
    {
      var chunk := Chunk(leases, i, MAX_SQL_VARIABLES / 6);
      ChunkInserted(core, cid, leases, i, |chunk|, archivedAt, detail);
      var step := InsertArchivesStatement(after, cid, chunk, archivedAt, detail);
      if !step.1 {
        return core, false;
      }
      after := step.0;
      i := i + |chunk|;
    }
    assert leases[..i] == leases;
  }

  /** The tables after the first leases of a batch. */
  function WithArchives(core: Core, cid: nat, leases: seq<Returned>, archivedAt: int, detail: Option<string>): Core {
    core.(archives := core.archives + RowsFor(core.archiveSeq, cid, leases, archivedAt, detail), archiveSeq := core.archiveSeq + |leases|)
  }

  lemma ChunkInserted(core: Core, cid: nat, leases: seq<Returned>, i: nat, n: nat, archivedAt: int, detail: Option<string>)
    requires Insertable(core, cid, leases) && i + n <= |leases| && 6 * n <= MAX_SQL_VARIABLES
    ensures InsertArchivesStatement(WithArchives(core, cid, leases[..i], archivedAt, detail), cid, leases[i..i + n], archivedAt, detail)
      == (WithArchives(core, cid, leases[..i + n], archivedAt, detail), true)
  {
    hide RowsFor, InsertArchivesStatement, Insertable;
    var chunk := leases[i..i + n];
    var tx := WithArchives(core, cid, leases[..i], archivedAt, detail);
    ChunkInsertable(core, cid, leases, i, n, archivedAt, detail);
    InsertedIs(tx, cid, chunk, archivedAt, detail);
    RowsForSplit(core.archiveSeq, cid, leases[..i], chunk, archivedAt, detail);
    assert leases[..i] + chunk == leases[..i + n];
    assert tx.archives + RowsFor(tx.archiveSeq, cid, chunk, archivedAt, detail)
      == core.archives + (RowsFor(core.archiveSeq, cid, leases[..i], archivedAt, detail) + RowsFor(core.archiveSeq + i, cid, chunk, archivedAt, detail));
  }

  lemma NoRows(core: Core, cid: nat, archivedAt: int, detail: Option<string>)
    ensures core.archives + RowsFor(core.archiveSeq, cid, [], archivedAt, detail) == core.archives
  {
  }

  lemma InsertedIs(core: Core, cid: nat, leases: seq<Returned>, archivedAt: int, detail: Option<string>)
    requires 6 * |leases| <= MAX_SQL_VARIABLES && InsertArchivesStatement(core, cid, leases, archivedAt, detail).1
    ensures InsertArchivesStatement(core, cid, leases, archivedAt, detail).0 ==
      core.(archives := core.archives + RowsFor(core.archiveSeq, cid, leases, archivedAt, detail), archiveSeq := core.archiveSeq + |leases|)
  {
    hide RowsFor;
  }

  /** Rows taken off by receipts and sorted can all be archived, and are the rows one statement would archive. */
  lemma TakenInsertable(core: Core, cid: nat, receipts: seq<Receipt>, sorted: seq<Returned>)
    requires CoreOk(core)
    requires var order := Sorted(MessagesOf(Hit(core.deliveries, cid, receipts)));
      && |sorted| == |order|
      && forall i | 0 <= i < |sorted| :: Slot(cid, order[i]) in core.deliveries && sorted[i] == ReturnedFrom(core.deliveries, cid, order[i])
    ensures Insertable(core.(deliveries := core.deliveries - Hit(core.deliveries, cid, receipts)), cid, sorted)
  {
    hide Hit, Sorted, MessagesOf, CoreOk;
    var hits := Hit(core.deliveries, cid, receipts);
    var order := Sorted(MessagesOf(hits));
    SortedHolds(MessagesOf(hits));
    ArchiveAllowed(core, cid, receipts);
    HitsOf(core.deliveries, cid, receipts);
    ArchiveIdsBounded(core);
    if sorted != [] {
      assert order[0] in MessagesOf(hits);
      assert Slot(cid, order[0]) in hits;
    }
    forall i | 0 <= i < |sorted| ensures sorted[i].message in core.messages && !Archived(core.archives, Slot(cid, sorted[i].message)) {
      assert order[i] in order;
      assert Slot(cid, order[i]) in hits;
    }
  }

  lemma ArchiveIdsBounded(core: Core)
    requires CoreOk(core)
    ensures forall a | a in core.archives :: a <= core.archiveSeq
  {
  }

  lemma TakenRows(rows: map<Slot, Lease>, last: nat, cid: nat, order: seq<nat>, sorted: seq<Returned>, archivedAt: int, detail: Option<string>)
    requires |sorted| == |order| && forall i | 0 <= i < |sorted| :: Slot(cid, order[i]) in rows && sorted[i] == ReturnedFrom(rows, cid, order[i])
    ensures RowsFor(last, cid, sorted, archivedAt, detail) == NewArchives(rows, last, cid, order, archivedAt, detail)
  {
    hide NextIds;
  }

  /** Archives a batch: delete chunk by chunk, sort what came back, insert chunk by chunk. */
  method ArchiveChunks(core: Core, cid: nat, receipts: seq<Receipt>, archivedAt: int, detail: Option<string>) returns (after: Core, r: Result<nat>)
    requires CoreOk(core)
    ensures r.Ok? && r.value == |Hit(core.deliveries, cid, receipts)|
    ensures (after, Ok(Tally(|receipts|, r.value))) == Archive(core, cid, receipts, archivedAt, detail)
  {
    hide CoreOk, Hit, Sorted, MessagesOf, Reports, Insertable, RowsFor, NewArchives, CoreKept;
    var rows, taken := TakeChunks(core.deliveries, cid, receipts);
    var sorted := SortByMessage(taken, core.deliveries, cid, MessagesOf(Hit(core.deliveries, cid, receipts)));
    ghost var order := Sorted(MessagesOf(Hit(core.deliveries, cid, receipts)));
    SortedHolds(MessagesOf(Hit(core.deliveries, cid, receipts)));
    HitsOf(core.deliveries, cid, receipts);
    ArchiveAllowed(core, cid, receipts);
    TakenInsertable(core, cid, receipts, sorted);
    TakenRows(core.deliveries, core.archiveSeq, cid, order, sorted, archivedAt, detail);
    var ok;
    after, ok := InsertArchivedLeases(core.(deliveries := rows), cid, sorted, archivedAt, detail);
    if !ok {
      return core, Err(ConstraintViolation);
    }
    r := Ok(|sorted|);
  }

  // ---- Redriving ------------------------------------------------------------------------

  /** The messages of these archives, each once, in whatever order. */
  ghost predicate Restores(messageIds: seq<nat>, core: Core, cid: nat, hits: set<nat>)
    requires hits <= core.archives.Keys
  {
    && |messageIds| == |hits| && Distinct(messageIds)
    && (forall a | a in hits :: core.archives[a].slot.consumer == cid)
    && (forall m :: m in messageIds <==> Slot(cid, m) in SlotsOf(core, hits))
  }

  /** One more archive of a distinct copy. */
  lemma RestoresMore(messageIds: seq<nat>, core: Core, cid: nat, hits: set<nat>, a: nat)
    requires UniqueSlots(core.archives) && hits <= core.archives.Keys && Restores(messageIds, core, cid, hits)
    requires a in core.archives && a !in hits && core.archives[a].slot.consumer == cid
    ensures Restores([core.archives[a].slot.message] + messageIds, core, cid, hits + {a})
  {
    hide SlotsOf;
    var m := core.archives[a].slot.message;
    assert core.archives[a].slot == Slot(cid, m);
    OwnSlot(core, hits, a);
    forall x ensures x in [m] + messageIds <==> Slot(cid, x) in SlotsOf(core, hits + {a}) {}
  }

  /** No other archive has the same slot. */
  lemma OwnSlot(core: Core, hits: set<nat>, a: nat)
    requires UniqueSlots(core.archives) && hits <= core.archives.Keys && a in core.archives && a !in hits
    ensures core.archives[a].slot !in SlotsOf(core, hits)
  {
  }

  /** What RETURNING message_id yields for deleted archives. */
  method ReportMessages(core: Core, cid: nat, hits: set<nat>) returns (messageIds: seq<nat>)
    requires UniqueSlots(core.archives) && hits <= core.archives.Keys && forall a | a in hits :: core.archives[a].slot.consumer == cid
    ensures Restores(messageIds, core, cid, hits)
  {
    hide Restores, UniqueSlots;
    messageIds := [];
    var left := hits;
    ghost var done: set<nat> := {};
    RestoresNothing(core, cid);
    while left != {}
      invariant left !! done && left + done == hits && Restores(messageIds, core, cid, done)
      decreases |left|
    {
      var a :| a in left;
      RestoresMore(messageIds, core, cid, done, a);
      messageIds := [core.archives[a].slot.message] + messageIds;
      left, done := left - {a}, done + {a};
    }
    assert done == hits;
  }

  lemma RestoresNothing(core: Core, cid: nat)
    ensures Restores([], core, cid, {})
  {
  }

  /** DELETE FROM litefan_archived_deliveries WHERE consumer_id = ? AND id IN (...). */
  function DeleteArchivesStatement(core: Core, cid: nat, archiveIds: seq<nat>): Core
    requires 1 + |archiveIds| <= MAX_SQL_VARIABLES
  {
    core.(archives := core.archives - Redriven(core, cid, archiveIds))
  }

  lemma RedrivenInTwo(core: Core, cid: nat, first: seq<nat>, second: seq<nat>)
    ensures var later := core.(archives := core.archives - Redriven(core, cid, first));
      && Redriven(core, cid, first + second) == Redriven(core, cid, first) + Redriven(later, cid, second)
      && Redriven(core, cid, first) !! Redriven(later, cid, second)
      && later.archives - Redriven(later, cid, second) == core.archives - Redriven(core, cid, first + second)
  {
  }

  lemma RestoresJoin(core: Core, cid: nat, a: set<nat>, b: set<nat>, first: seq<nat>, second: seq<nat>)
    requires UniqueSlots(core.archives) && a <= core.archives.Keys && b <= core.archives.Keys && a !! b
    requires Restores(first, core, cid, a)
    requires var later := core.(archives := core.archives - a); b <= later.archives.Keys && Restores(second, later, cid, b)
    ensures Restores(first + second, core, cid, a + b)
  {
    hide SlotsOf, UniqueSlots, Distinct;
    SlotsJoin(core, a, b);
    forall m | m in first ensures m !in second {
      assert Slot(cid, m) in SlotsOf(core, a);
    }
    DistinctJoin(first, second);
    assert |a + b| == |a| + |b|;
    forall x | x in a + b ensures core.archives[x].slot.consumer == cid {
      assert x in b ==> core.(archives := core.archives - a).archives[x] == core.archives[x];
    }
  }

  lemma SlotsJoin(core: Core, a: set<nat>, b: set<nat>)
    requires UniqueSlots(core.archives) && a <= core.archives.Keys && b <= core.archives.Keys && a !! b
    ensures var later := core.(archives := core.archives - a);
      SlotsOf(core, a + b) == SlotsOf(core, a) + SlotsOf(later, b) && SlotsOf(core, a) !! SlotsOf(later, b)
  {
    var later := core.(archives := core.archives - a);
    forall i | i in b ensures later.archives[i].slot !in SlotsOf(core, a) {
      OwnSlot(core, a, i);
    }
  }

  /** Deletes the archives chunk by chunk and collects the messages to restore. */
  method TakeArchives(core: Core, cid: nat, archiveIds: seq<nat>) returns (after: Core, messageIds: seq<nat>)
    requires UniqueSlots(core.archives)
    ensures after == core.(archives := core.archives - Redriven(core, cid, archiveIds))
    ensures Restores(messageIds, core, cid, Redriven(core, cid, archiveIds))
  {
    hide Redriven, Restores, SlotsOf;
    after, messageIds := core, [];
    var i := 0;
    NothingRedriven(core, cid);
    while i < |archiveIds|
      invariant i <= |archiveIds|
      invariant after == core.(archives := core.archives - Redriven(core, cid, archiveIds[..i]))
      invariant Redriven(core, cid, archiveIds[..i]) <= core.archives.Keys
      invariant Restores(messageIds, core, cid, Redriven(core, cid, archiveIds[..i]))
    {
      var chunk := Chunk(archiveIds, i, MAX_SQL_VARIABLES - 1);
      RedrivenOwn(after, cid, chunk);
      var more := ReportMessages(after, cid, Redriven(after, cid, chunk));
      RedrivenInTwo(core, cid, archiveIds[..i], chunk);
      RestoresJoin(core, cid, Redriven(core, cid, archiveIds[..i]), Redriven(after, cid, chunk), messageIds, more);
      assert archiveIds[..i] + chunk == archiveIds[..i + |chunk|];
      after := DeleteArchivesStatement(after, cid, chunk);
      messageIds := messageIds + more;
      i := i + |chunk|;
    }
    assert archiveIds[..i] == archiveIds;
  }

  lemma RedrivenOwn(core: Core, cid: nat, archiveIds: seq<nat>)
    ensures forall a | a in Redriven(core, cid, archiveIds) :: a in core.archives && core.archives[a].slot.consumer == cid
  {
  }

  lemma NothingRedriven(core: Core, cid: nat)
    ensures Redriven(core, cid, []) == {} && core.archives - {} == core.archives && Restores([], core, cid, {})
  {
  }

  /** INSERT INTO litefan_deliveries: five values a row, under the primary key and both foreign keys. */
  function InsertDeliveriesStatement(core: Core, cid: nat, messageIds: seq<nat>, visibleAt: int): (Core, bool)
    requires 5 * |messageIds| <= MAX_SQL_VARIABLES
  {
    if (messageIds != [] && cid !in core.consumers)
       || (exists m | m in messageIds :: m !in core.messages || Slot(cid, m) in core.deliveries)
       || !Distinct(messageIds) then (core, false)
    else (core.(deliveries := core.deliveries + Restored(cid, messageIds, visibleAt)), true)
  }

  function Restored(cid: nat, messageIds: seq<nat>, visibleAt: int): map<Slot, Lease> {
    map m | m in messageIds :: Slot(cid, m) := Lease(visibleAt, 0, 0)
  }

  lemma RestoredInTwo(cid: nat, first: seq<nat>, second: seq<nat>, visibleAt: int)
    ensures Restored(cid, first + second, visibleAt) == Restored(cid, first, visibleAt) + Restored(cid, second, visibleAt)
  {
  }

  /** A later chunk can still be inserted after the earlier ones. */
  lemma ChunkRestorable(core: Core, cid: nat, messageIds: seq<nat>, i: nat, n: nat, visibleAt: int)
    requires Distinct(messageIds) && i + n <= |messageIds| && 5 * n <= MAX_SQL_VARIABLES
    requires messageIds != [] ==> cid in core.consumers
    requires forall m | m in messageIds :: m in core.messages && Slot(cid, m) !in core.deliveries
    ensures var tx := core.(deliveries := core.deliveries + Restored(cid, messageIds[..i], visibleAt));
      var chunk := messageIds[i..i + n];
      InsertDeliveriesStatement(tx, cid, chunk, visibleAt) == (tx.(deliveries := tx.deliveries + Restored(cid, chunk, visibleAt)), true)
  {
    var chunk := messageIds[i..i + n];
    forall m | m in chunk ensures m in messageIds && m !in messageIds[..i] {
      var j :| 0 <= j < n && chunk[j] == m;
      assert messageIds[i + j] == m;
    }
    assert Distinct(chunk);
  }

  /** Puts the messages back chunk by chunk. */
  method RestoreChunks(core: Core, cid: nat, messageIds: seq<nat>, visibleAt: int) returns (after: Core, ok: bool)
    requires Distinct(messageIds)
    requires messageIds != [] ==> cid in core.consumers
    requires forall m | m in messageIds :: m in core.messages && Slot(cid, m) !in core.deliveries
    ensures ok && after == core.(deliveries := core.deliveries + Restored(cid, messageIds, visibleAt))
  {
    hide Restored, InsertDeliveriesStatement;
    after, ok := core, true;
    var i := 0;
    NothingRestored(core, cid, visibleAt);
    while i < |messageIds|
      invariant i <= |messageIds| && ok
      invariant after == core.(deliveries := core.deliveries + Restored(cid, messageIds[..i], visibleAt))
    {
      var chunk := Chunk(messageIds, i, MAX_SQL_VARIABLES / 5);
      ChunkRestorable(core, cid, messageIds, i, |chunk|, visibleAt);
      RestoredInTwo(cid, messageIds[..i], chunk, visibleAt);
      assert messageIds[..i] + chunk == messageIds[..i + |chunk|];
      var step := InsertDeliveriesStatement(after, cid, chunk, visibleAt);
      if !step.1 {
        return core, false;
      }
      after := step.0;
      i := i + |chunk|;
    }
    assert messageIds[..i] == messageIds;
  }

  lemma NothingRestored(core: Core, cid: nat, visibleAt: int)
    ensures core.deliveries + Restored(cid, [], visibleAt) == core.deliveries
  {
  }

  /** What is restored is what redriving the whole list at once would restore. */
  lemma RestoredIsRedrive(core: Core, cid: nat, archiveIds: seq<nat>, messageIds: seq<nat>, visibleAt: int)
    requires CoreOk(core) && Restores(messageIds, core, cid, Redriven(core, cid, archiveIds))
    ensures forall m | m in messageIds :: m in core.messages && Slot(cid, m) !in core.deliveries
    ensures messageIds != [] ==> cid in core.consumers
    ensures Redrive(core, cid, archiveIds, visibleAt) ==
      (core.(archives := core.archives - Redriven(core, cid, archiveIds), deliveries := core.deliveries + Restored(cid, messageIds, visibleAt)),
       Ok(Tally(|archiveIds|, |messageIds|)))
  {
    hide Redriven, SlotsOf;
    RedrivenOwn(core, cid, archiveIds);
    var hits := Redriven(core, cid, archiveIds);
    var slots := SlotsOf(core, hits);
    forall s | s in slots ensures s.consumer == cid && s.consumer in core.consumers && s.message in core.messages && s !in core.deliveries && s.message in messageIds {
      var a :| a in hits && core.archives[a].slot == s;
      assert SlotOk(core, s);
      assert s == Slot(cid, s.message);
    }
    if messageIds != [] {
      assert Slot(cid, messageIds[0]) in slots;
    }
    assert (map s | s in slots :: Lease(visibleAt, 0, 0)) == Restored(cid, messageIds, visibleAt);
  }

  /** Redrives a batch: delete the archives chunk by chunk, insert the deliveries chunk by chunk. */
  method RedriveChunks(core: Core, cid: nat, archiveIds: seq<nat>, visibleAt: int) returns (after: Core, r: Result<nat>)
    requires CoreOk(core)
    ensures r.Ok? && r.value == |Redriven(core, cid, archiveIds)|
    ensures (after, Ok(Tally(|archiveIds|, r.value))) == Redrive(core, cid, archiveIds, visibleAt)
  {
    hide CoreOk, Redriven, Restored, Redrive, UniqueSlots, SlotsOf;
    CoreArchivesOk(core);
    var tx, messageIds := TakeArchives(core, cid, archiveIds);
    RestoredIsRedrive(core, cid, archiveIds, messageIds, visibleAt);
    var ok;
    after, ok := RestoreChunks(tx, cid, messageIds, visibleAt);
    if !ok {
      return core, Err(ConstraintViolation);
    }
    r := Ok(|messageIds|);
  }
}
