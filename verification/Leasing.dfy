/** The statements of the locked half of a claim, in the order they run. */
module Leasing {
  import opened Prelude
  import opened Ranking
  import opened Schema
  import opened Transactions
  import opened Invariants
  import opened Storage
  import opened Settling
  import opened Leases

  // ---- Retries --------------------------------------------------------------------------

  /** UPDATE litefan_deliveries SET ... WHERE the row is one of the retries. */
  function RetryStatement(rows: map<Slot, Lease>, cid: nat, retries: set<nat>, deadline: int): map<Slot, Lease> {
    map s | s in rows :: if s.consumer == cid && s.message in retries then Bump(rows[s], deadline) else rows[s]
  }

  function NewRows(cid: nat, taken: set<nat>, deadline: int): map<Slot, Lease> {
    map m | m in taken :: Slot(cid, m) := Lease(deadline, 1, 1)
  }

  lemma TwoStatements(rows: map<Slot, Lease>, cid: nat, retries: set<nat>, taken: set<nat>, deadline: int)
    ensures LeaseRows(rows, cid, retries, taken, deadline) == RetryStatement(rows, cid, retries, deadline) + NewRows(cid, taken, deadline)
    ensures LeaseRows(rows, cid, retries, {}, deadline) == RetryStatement(rows, cid, retries, deadline)
  {
  }

  // ---- The scan -------------------------------------------------------------------------

  /**
   Where the cursor goes, from the ids the insert returned: to the limit when it found fewer
   than it had room for, else to the last of them.
   */
  function CursorAfter(found: seq<nat>, room: nat, cursor: nat, limit: nat): nat {
    if |found| < room then limit else if found != [] then found[|found| - 1] else cursor
  }

  lemma CursorIsScan(messages: map<nat, Message>, filter: Option<string>, cursor: Cursor, room: nat)
    requires room > 0 && cursor.scan < ScanLimit(messages, cursor)
    ensures var limit := ScanLimit(messages, cursor);
      var taken := Lowest(Window(messages, filter, cursor.scan, limit), room);
      Scan(messages, filter, cursor, room) == (taken, CursorAfter(Sorted(taken), room, cursor.scan, limit))
  {
    hide Sorted, Window;
    var limit := ScanLimit(messages, cursor);
    var taken := Lowest(Window(messages, filter, cursor.scan, limit), room);
    if |taken| >= room {
      LastIsGreatest(taken);
    }
  }

  lemma LastIsGreatest(s: set<nat>)
    requires s != {}
    ensures Sorted(s) != [] && Sorted(s)[|s| - 1] == Greatest(s)
  {
    hide Sorted, Greatest;
    SortedHolds(s);
    var q := Sorted(s);
    var g := Greatest(s);
    GreatestHolds(s);
    var i :| 0 <= i < |q| && q[i] == g;
    assert q[|q| - 1] in q;
  }

  // ---- Message bodies -------------------------------------------------------------------

  datatype Fetched = Fetched(id: nat, message: Message)

  function RowsOf(messages: map<nat, Message>, order: seq<nat>): seq<Fetched>
    requires forall i | 0 <= i < |order| :: order[i] in messages
  {
    seq(|order|, i requires 0 <= i < |order| => Fetched(order[i], messages[order[i]]))
  }

  function Present(messages: map<nat, Message>, ids: seq<nat>): set<nat> {
    set m | m in ids && m in messages
  }

  /** SELECT ... WHERE id IN (...): one value an id. */
  function SelectMessagesStatement(messages: map<nat, Message>, ids: seq<nat>): set<nat>
    requires |ids| <= MAX_SQL_VARIABLES
  {
    Present(messages, ids)
  }

  lemma PresentJoin(messages: map<nat, Message>, first: seq<nat>, second: seq<nat>)
    ensures Present(messages, first + second) == Present(messages, first) + Present(messages, second)
    ensures Present(messages, []) == {}
  {
  }

  lemma PresentOrder(messages: map<nat, Message>, ids: seq<nat>)
    ensures forall m | m in Sorted(Present(messages, ids)) :: m in messages
  {
    hide Sorted;
    SortedHolds(Present(messages, ids));
  }

  /** Fetches the messages of the leases chunk by chunk and sorts them by id. */
  method FetchMessages(messages: map<nat, Message>, ids: seq<nat>) returns (fetched: seq<Fetched>)
    ensures forall m | m in Sorted(Present(messages, ids)) :: m in messages
    ensures fetched == RowsOf(messages, Sorted(Present(messages, ids)))
  {
    hide Sorted, Present, RowsOf;
    var found: set<nat> := {};
    var i := 0;
    PresentJoin(messages, [], []);
    while i < |ids|
      invariant i <= |ids| && found == Present(messages, ids[..i])
    {
      var chunk := Chunk(ids, i, MAX_SQL_VARIABLES);
      PresentJoin(messages, ids[..i], chunk);
      assert ids[..i + |chunk|] == ids[..i] + chunk;
      found := found + SelectMessagesStatement(messages, chunk);
      i := i + |chunk|;
    }
    assert ids[..i] == ids;
    PresentOrder(messages, ids);
    fetched := RowsOf(messages, Sorted(found));
  }

  /** The ids, one by one, as the leases have them. */
  function IdsIn(leases: seq<Returned>): seq<nat> {
    seq(|leases|, i requires 0 <= i < |leases| => leases[i].message)
  }

  /** Some claimed delivery has no message, or another one. */
  predicate Mismatched(leases: seq<Returned>, fetched: seq<Fetched>) {
    |fetched| != |leases| || exists i | 0 <= i < |leases| :: leases[i].message != fetched[i].id
  }

  lemma MatchedIff(messages: map<nat, Message>, ids: set<nat>, leases: seq<Returned>)
    requires |leases| == |Sorted(ids)| && forall i | 0 <= i < |leases| :: leases[i].message == Sorted(ids)[i]
    ensures forall m | m in Sorted(Present(messages, IdsIn(leases))) :: m in messages
    ensures Mismatched(leases, RowsOf(messages, Sorted(Present(messages, IdsIn(leases))))) <==> !(ids <= messages.Keys)
    ensures ids <= messages.Keys ==> Present(messages, IdsIn(leases)) == ids
  {
    hide Sorted;
    SortedHolds(ids);
    assert IdsIn(leases) == Sorted(ids);
    var present := Present(messages, IdsIn(leases));
    assert present <= ids;
    SortedHolds(present);
    SubsetSize(present, ids);
    if ids <= messages.Keys {
      assert present == ids;
    }
  }

  /** Pairs each lease with its message. */
  method Pair(cid: nat, leases: seq<Returned>, fetched: seq<Fetched>) returns (deliveries: seq<Delivery>)
    requires |leases| == |fetched|
    ensures |deliveries| == |leases|
    ensures forall i | 0 <= i < |deliveries| ::
      deliveries[i] == Delivery(fetched[i].id, fetched[i].message, leases[i].deliveryCount, Receipt(cid, leases[i].message, leases[i].generation))
  {
    deliveries := [];
    for i := 0 to |leases|
      invariant |deliveries| == i
      invariant forall j | 0 <= j < i ::
        deliveries[j] == Delivery(fetched[j].id, fetched[j].message, leases[j].deliveryCount, Receipt(cid, leases[j].message, leases[j].generation))
    {
      var d := Delivery(fetched[i].id, fetched[i].message, leases[i].deliveryCount, Receipt(cid, leases[i].message, leases[i].generation));
      deliveries := deliveries + [d];
    }
  }

  /** Sorts the leases, fetches their messages and pairs the two. */
  method Assemble(core: Core, cid: nat, returned: seq<Returned>, ghost ids: set<nat>) returns (r: Result<seq<Delivery>>)
    requires Reports(returned, core.deliveries, cid, ids)
    ensures r == Collect(core, cid, ids)
  {
    hide Sorted, Present, Mismatched, RowsOf;
    var leases := SortByMessage(returned, core.deliveries, cid, ids);
    var fetched := FetchMessages(core.messages, IdsIn(leases));
    MatchedIff(core.messages, ids, leases);
    if Mismatched(leases, fetched) {
      return Err(StorageInvariant);
    }
    RowsOfLength(core.messages, Sorted(ids));
    var deliveries := Pair(cid, leases, fetched);
    CollectIs(core, cid, ids);
    assert deliveries == Collect(core, cid, ids).value;
    r := Ok(deliveries);
  }

  lemma RowsOfLength(messages: map<nat, Message>, order: seq<nat>)
    requires forall i | 0 <= i < |order| :: order[i] in messages
    ensures |RowsOf(messages, order)| == |order|
    ensures forall i | 0 <= i < |order| :: RowsOf(messages, order)[i] == Fetched(order[i], messages[order[i]])
  {
  }

  // ---- The transaction ------------------------------------------------------------------

  /** The retries come back with the rows' new generations and counts, the scanned ids with their first. */
  lemma BothReported(rows: map<Slot, Lease>, cid: nat, retries: set<nat>, taken: set<nat>, deadline: int, first: seq<Returned>, second: seq<Returned>)
    requires Reports(first, RetryStatement(rows, cid, retries, deadline), cid, retries)
    requires forall m | m in taken :: Slot(cid, m) !in rows
    requires |second| == |taken| && forall i | 0 <= i < |second| :: second[i] == Returned(Sorted(taken)[i], 1, 1)
    requires |Sorted(taken)| == |taken|
    ensures Reports(first + second, LeaseRows(rows, cid, retries, taken, deadline), cid, retries + taken)
  {
    hide Sorted;
    SortedHolds(taken);
    TwoStatements(rows, cid, retries, taken, deadline);
    var after := LeaseRows(rows, cid, retries, taken, deadline);
    FirstReported(rows, after, cid, retries, taken, deadline, first);
    SecondReported(after, cid, taken, deadline, second);
    assert retries !! taken by {
      forall m | m in taken ensures m !in retries {
        assert Slot(cid, m) !in RetryStatement(rows, cid, retries, deadline);
      }
    }
    ReportsJoin(first, second, after, cid, retries, taken);
  }

  lemma FirstReported(rows: map<Slot, Lease>, after: map<Slot, Lease>, cid: nat, retries: set<nat>, taken: set<nat>, deadline: int, first: seq<Returned>)
    requires Reports(first, RetryStatement(rows, cid, retries, deadline), cid, retries)
    requires forall m | m in taken :: Slot(cid, m) !in rows
    requires after == RetryStatement(rows, cid, retries, deadline) + NewRows(cid, taken, deadline)
    ensures Reports(first, after, cid, retries)
  {
    var bumped := RetryStatement(rows, cid, retries, deadline);
    forall s | s in bumped ensures s in after && after[s] == bumped[s] {
      assert s !in NewRows(cid, taken, deadline);
    }
    hide RetryStatement, NewRows;
    ReportsLater(first, bumped, after, cid, retries);
  }

  lemma SecondReported(after: map<Slot, Lease>, cid: nat, taken: set<nat>, deadline: int, second: seq<Returned>)
    requires forall m | m in taken :: Slot(cid, m) in after && after[Slot(cid, m)] == Lease(deadline, 1, 1)
    requires |second| == |taken| == |Sorted(taken)| && forall i | 0 <= i < |second| :: second[i] == Returned(Sorted(taken)[i], 1, 1)
    ensures Reports(second, after, cid, taken)
  {
    hide Sorted;
    SortedHolds(taken);
    var order := Sorted(taken);
    forall m | m in taken ensures ReturnedFrom(after, cid, m) in second {
      assert m in order;
      var i :| 0 <= i < |order| && order[i] == m;
      assert second[i] == ReturnedFrom(after, cid, m);
    }
    forall r | r in second ensures r.message in taken && r == ReturnedFrom(after, cid, r.message) {
      var i :| 0 <= i < |second| && second[i] == r;
      assert order[i] in order;
    }
  }

  /** Nothing scanned: only the retries. */
  lemma OnlyRetries(rows: map<Slot, Lease>, cid: nat, retries: set<nat>, deadline: int, first: seq<Returned>)
    requires Reports(first, RetryStatement(rows, cid, retries, deadline), cid, retries)
    ensures Reports(first, LeaseRows(rows, cid, retries, {}, deadline), cid, retries + {})
  {
    TwoStatements(rows, cid, retries, {}, deadline);
    assert retries + {} == retries;
  }

  /** Claims by its statements, with the insert guarded by its keys. */
  method ClaimLocked(db: Db, cid: nat, max: nat, now: int, deadline: int) returns (after: Db, r: Result<seq<Delivery>>)
    requires Wf(db)
    ensures (after, r) == Claim(db, cid, max, now, deadline)
  {
    hide Wf, Claim, Retries, Scan, Window, Lowest, LeaseRows, Collect, Reports, RetryStatement, NewRows, Sorted, ScanLimit;
    if cid !in db.core.consumers {
      ClaimDeleted(db, cid, max, now, deadline);
      return db, Err(ConsumerDeleted);
    }
    CursorKeys(db);
    var filter, cursor := db.core.consumers[cid].filter, db.cursors[cid];
    var limit := ScanLimit(db.core.messages, cursor);
    ghost var retried, scanned, reached := ClaimIs(db, cid, max, now, deadline);
    ClaimCollects(db, cid, max, now, deadline, retried, scanned);

    var retries := Retries(db.core, cid, max, now);
    var rows := RetryStatement(db.core.deliveries, cid, retries, deadline);
    RetriesKept(db.core.deliveries, cid, retries, deadline);
    var leases := Report(rows, cid, retries);
    ReportsSize(leases, rows, cid, retries);
    var room := SaturatingSub(max, |leases|);
    var scan := cursor.scan;
    var ids := retries;
    if room > 0 && scan < limit {
      CursorIsScan(db.core.messages, filter, cursor, room);
      var taken := Lowest(Window(db.core.messages, filter, scan, limit), room);
      assert taken == scanned;
      TwoStatements(db.core.deliveries, cid, retries, taken, deadline);
      rows := rows + NewRows(cid, taken, deadline);
      var found := Sorted(taken);
      SortedHolds(taken);
      scan := CursorAfter(found, room, scan, limit);
      var first := seq(|found|, i requires 0 <= i < |found| => Returned(found[i], 1, 1));
      BothReported(db.core.deliveries, cid, retries, taken, deadline, leases, first);
      leases := leases + first;
      ids := retries + taken;
    } else {
      NothingScanned(db.core.messages, filter, cursor, room);
      OnlyRetries(db.core.deliveries, cid, retries, deadline, leases);
      TwoStatements(db.core.deliveries, cid, retries, {}, deadline);
      ids := retries + {};
    }
    after := Db(db.core.(deliveries := rows), db.cursors[cid := cursor.(scan := scan)]);
    r := Assemble(after.core, cid, leases, ids);
  }

  lemma NothingScanned(messages: map<nat, Message>, filter: Option<string>, cursor: Cursor, room: nat)
    requires room == 0 || ScanLimit(messages, cursor) <= cursor.scan
    ensures Scan(messages, filter, cursor, room) == ({}, cursor.scan)
  {
  }

  lemma RetriesKept(rows: map<Slot, Lease>, cid: nat, retries: set<nat>, deadline: int)
    requires forall m | m in retries :: Slot(cid, m) in rows
    ensures forall m | m in retries :: Slot(cid, m) in RetryStatement(rows, cid, retries, deadline)
  {
  }

  lemma ReportsSize(returned: seq<Returned>, rows: map<Slot, Lease>, cid: nat, ids: set<nat>)
    requires Reports(returned, rows, cid, ids)
    ensures |returned| == |ids|
  {
  }
}
