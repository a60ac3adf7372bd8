/**
 A whole claim as a worker makes it: a preflight read outside the write lock, the locked
 transaction, and after an empty one another read. Other workers' transactions may commit
 between the three.
 */
module Claims {
  import opened Prelude
  import opened Ranking
  import opened Schema
  import opened Transactions
  import opened Runs
  import opened Invariants
  import opened Fanout
  import opened LazyIsEager
  import opened Conservation
  import opened Leases
  import opened Backlogs
  import opened Time

  /** The row both unlocked reads fetch. */
  datatype ReadState = ReadState(draining: bool, scan: nat, limit: nat, earliest: Option<int>)

  datatype ClaimResult = ClaimResult(deliveries: seq<Delivery>, nextVisibleAt: Option<int>, draining: bool)

  function VisibleAt(deliveries: map<Slot, Lease>, cid: nat): map<nat, int> {
    var inbox := Inbox(deliveries, cid);
    map m | m in inbox :: inbox[m].visibleAt
  }

  function ReadConsumer(db: Db, cid: nat): Option<ReadState> {
    if cid !in db.core.consumers || cid !in db.cursors then None
    else
      var cursor := db.cursors[cid];
      Some(ReadState(db.core.consumers[cid].drainingAt.Some?, cursor.scan, ScanLimit(db.core.messages, cursor), Minimum(VisibleAt(db.core.deliveries, cid))))
  }

  /** The preflight's test: no retry is due and the scan has reached its limit. */
  predicate NothingDue(s: ReadState, now: int) {
    !(s.earliest.Some? && s.earliest.value <= now) && s.limit <= s.scan
  }

  /** The answer after an empty locked half; a log that has grown past the cursor is ready now. */
  function AfterEmpty(db: Db, cid: nat, now: int): Result<ClaimResult> {
    match ReadConsumer(db, cid)
    case None => Err(ConsumerDeleted)
    case Some(s) => Ok(ClaimResult([], if s.scan < s.limit then Some(now) else s.earliest, s.draining))
  }

  /** One claim; `first` and `second` are what others commit around the locked half. */
  function ClaimCall(db: Db, cid: nat, max: nat, now: int, lease: int, first: seq<Op>, second: seq<Op>): (Db, Result<ClaimResult>) {
    match ReadConsumer(db, cid)
    case None => (db, Err(ConsumerDeleted))
    case Some(s) =>
      if NothingDue(s, now) then (db, Ok(ClaimResult([], s.earliest, s.draining)))
      else if now + lease > I64_MAX then (db, Err(DurationOutOfRange))
      else
        var locked := Run(db, first);
        var (after, claimed) := Claim(locked, cid, max, now, now + lease);
        if claimed.Err? then (after, Err(claimed.error))
        else if claimed.value == [] then (Run(after, second), AfterEmpty(Run(after, second), cid, now))
        else (after, Ok(ClaimResult(claimed.value, None, cid in locked.core.consumers && locked.core.consumers[cid].drainingAt.Some?)))
  }

  // ---- The preflight --------------------------------------------------------------------

  lemma DueIsVisible(deliveries: map<Slot, Lease>, cid: nat, now: int)
    ensures var earliest := Minimum(VisibleAt(deliveries, cid));
      && (Visible(deliveries, cid, now).Keys == {} <==> !(earliest.Some? && earliest.value <= now))
      && (Visible(deliveries, cid, now).Keys == {} ==> LaterVisible(deliveries, cid, now) == VisibleAt(deliveries, cid))
      && (earliest.None? <==> Inbox(deliveries, cid).Keys == {})
  {
    hide Minimum;
    var visible, times := Visible(deliveries, cid, now), VisibleAt(deliveries, cid);
    assert times.Keys == Inbox(deliveries, cid).Keys;
    var earliest := Minimum(times);
    if earliest.Some? && earliest.value <= now {
      var a :| a in times && times[a] == earliest.value;
      assert a in visible;
    }
    if visible.Keys == {} {
      forall m | m in times ensures now < times[m] {
        assert m !in visible;
      }
    }
  }

  /** Without a due retry and with the scan at its limit, nothing is ready. */
  lemma PreflightIsSound(db: Db, cid: nat, now: int)
    requires Wf(db) && ReadConsumer(db, cid).Some? && NothingDue(ReadConsumer(db, cid).value, now)
    ensures Snapshot(db, cid, now).Ok? && Snapshot(db, cid, now).value.ready == 0
    ensures ReadConsumer(db, cid).value.earliest == Snapshot(db, cid, now).value.nextReadyAt
  {
    hide Wf, Snapshot, Visible, VisibleAt, LaterVisible, Minimum, Inbox, Unseen, Window;
    DueIsVisible(db.core.deliveries, cid, now);
    SnapshotCounts(db, cid, now);
    ScannedOut(db, cid);
  }

  lemma ScannedOut(db: Db, cid: nat)
    requires cid in db.cursors && cid in db.core.consumers && ScanLimit(db.core.messages, db.cursors[cid]) <= db.cursors[cid].scan
    ensures Backlog(db, cid) == {}
  {
  }

  // ---- What a claim hands out -----------------------------------------------------------

  /** The due copies a consumer may be handed at `now`: visible rows and unscanned messages. */
  function Ready(db: Db, cid: nat, now: int): set<nat>
    requires cid in db.cursors && cid in db.core.consumers
  {
    Visible(db.core.deliveries, cid, now).Keys + Backlog(db, cid)
  }

  lemma ReadySize(db: Db, cid: nat, now: int)
    requires Wf(db) && cid in db.core.consumers
    ensures cid in db.cursors && |Ready(db, cid, now)| == |Visible(db.core.deliveries, cid, now).Keys| + |Backlog(db, cid)|
    ensures Visible(db.core.deliveries, cid, now).Keys !! Backlog(db, cid)
  {
    CursorKeys(db);
    RowsScanned(db, cid);
    assert Visible(db.core.deliveries, cid, now).Keys !! Backlog(db, cid);
    hide Wf, Visible, Backlog;
  }

  /** As many visible rows as fit, earliest first and then by id, and the lowest unscanned ids in what room is left. */
  ghost predicate ChosenFrom(visible: map<nat, int>, backlog: set<nat>, max: nat, retries: set<nat>, handed: set<nat>) {
    && retries <= visible.Keys && |retries| == Min(max, |visible.Keys|)
    && (forall a, b | a in retries && b in visible && b !in retries :: Before(visible, a, b))
    && handed == retries + Lowest(backlog, max - |retries|)
    && |handed| == Min(max, |visible.Keys| + |backlog|)
  }

  /** The choice leaves no freedom: ties and order are settled. */
  lemma ChoiceIsUnique(visible: map<nat, int>, backlog: set<nat>, max: nat, a: set<nat>, b: set<nat>, c: set<nat>, d: set<nat>)
    requires ChosenFrom(visible, backlog, max, a, c) && ChosenFrom(visible, backlog, max, b, d)
    ensures a == b && c == d
  {
    FirstByUnique(visible, max, a);
    FirstByUnique(visible, max, b);
  }

  /**
   The locked half is exact: it hands out min(max, ready) copies, due retries first and then
   the unscanned log from its lowest id.
   */
  lemma ClaimIsExact(db: Db, op: Op)
    requires Wf(db) && op.ClaimOp? && op.cid in db.core.consumers
    ensures op.cid in db.cursors
    ensures ChosenFrom(Visible(db.core.deliveries, op.cid, op.now), Backlog(db, op.cid), op.max, Retries(db.core, op.cid, op.max, op.now), Handed(db, op))
    ensures |Handed(db, op)| == Min(op.max, |Ready(db, op.cid, op.now)|)
    ensures var claimed := Claim(db, op.cid, op.max, op.now, op.now + op.lease).1; claimed.Ok? && |claimed.value| == |Handed(db, op)|
  {
    hide Wf, Claim, Retries, Scan, Visible, Backlog, Sorted, DeliveryGood, LeaseOut, Lowest, FirstBy, Ready;
    ClaimHandsOut(db, op);
    HandedIs(db, op);
    RetriesFirst(db.core, op.cid, op.max, op.now);
    ReadySize(db, op.cid, op.now);
    HandedSize(db, op);
  }

  lemma HandedIs(db: Db, op: Op)
    requires Wf(db) && op.ClaimOp? && op.cid in db.core.consumers
    ensures op.cid in db.cursors && |Retries(db.core, op.cid, op.max, op.now)| <= op.max
    ensures Handed(db, op) == Retries(db.core, op.cid, op.max, op.now) + Lowest(Backlog(db, op.cid), op.max - |Retries(db.core, op.cid, op.max, op.now)|)
  {
    hide Wf, Retries, Scan, Backlog, Lowest;
    CursorKeys(db);
    RetriesFit(db.core, op.cid, op.max, op.now);
    ScanTakes(db, op.cid, op.max - |Retries(db.core, op.cid, op.max, op.now)|);
  }

  lemma RetriesFit(core: Core, cid: nat, max: nat, now: int)
    ensures |Retries(core, cid, max, now)| <= max
  {
    hide Visible;
  }

  lemma RetriesFirst(core: Core, cid: nat, max: nat, now: int)
    ensures var visible, retries := Visible(core.deliveries, cid, now), Retries(core, cid, max, now);
      && retries <= visible.Keys && |retries| == Min(max, |visible.Keys|)
      && (forall a, b | a in retries && b in visible && b !in retries :: Before(visible, a, b))
  {
    hide Visible;
  }

  lemma HandedSize(db: Db, op: Op)
    requires Wf(db) && op.ClaimOp? && op.cid in db.core.consumers
    ensures op.cid in db.cursors
    ensures |Retries(db.core, op.cid, op.max, op.now)| <= op.max
    ensures var taken := Lowest(Backlog(db, op.cid), op.max - |Retries(db.core, op.cid, op.max, op.now)|);
      |Retries(db.core, op.cid, op.max, op.now) + taken| == |Retries(db.core, op.cid, op.max, op.now)| + |taken|
  {
    hide Wf, Retries, Visible, Backlog;
    CursorKeys(db);
    RetriesFirst(db.core, op.cid, op.max, op.now);
    ReadySize(db, op.cid, op.now);
    assert Retries(db.core, op.cid, op.max, op.now) !! Lowest(Backlog(db, op.cid), op.max - |Retries(db.core, op.cid, op.max, op.now)|);
  }

  lemma RunNothing(db: Db)
    ensures Run(db, []) == db
  {
  }

  /** Left alone, a claim returns exactly min(max, ready) deliveries, and an empty one says when to come back. */
  lemma UndisturbedClaim(db: Db, cid: nat, max: nat, now: int, lease: int)
    requires Wf(db) && cid in db.core.consumers && now + lease <= I64_MAX && max > 0
    ensures Snapshot(db, cid, now).Ok?
    ensures var s := Snapshot(db, cid, now).value; var (after, r) := ClaimCall(db, cid, max, now, lease, [], []);
      && r.Ok? && |r.value.deliveries| == Min(max, s.ready)
      && r.value.draining == s.drainingAt.Some?
      && (r.value.deliveries == [] ==> r.value.nextVisibleAt == s.nextReadyAt)
      && (r.value.deliveries != [] ==> (after, Ok(r.value.deliveries)) == Claim(db, cid, max, now, now + lease))
  {
    hide Wf, Run, Claim, Snapshot, ReadConsumer, Outstanding, Backlog, Visible, LaterVisible, Minimum, AfterEmpty;
    SnapshotCounts(db, cid, now);
    ReadIs(db, cid);
    RunNothing(db);
    RunNothing(Claim(db, cid, max, now, now + lease).0);
    LockedCount(db, cid, max, now, lease);
    if NothingDue(ReadConsumer(db, cid).value, now) {
      PreflightIsSound(db, cid, now);
    } else if Claim(db, cid, max, now, now + lease).1 == Ok([]) {
      EmptyClaim(db, cid, max, now, lease);
    }
  }

  lemma LockedCount(db: Db, cid: nat, max: nat, now: int, lease: int)
    requires Wf(db) && cid in db.core.consumers
    ensures Snapshot(db, cid, now).Ok?
    ensures var claimed := Claim(db, cid, max, now, now + lease).1; claimed.Ok? && |claimed.value| == Min(max, Snapshot(db, cid, now).value.ready)
  {
    hide Wf, Claim, Snapshot, Outstanding, Backlog, Visible, LaterVisible, Minimum, Retries, Handed, Ready, ChosenFrom;
    SnapshotCounts(db, cid, now);
    ReadySize(db, cid, now);
    ClaimIsExact(db, ClaimOp(cid, max, now, lease));
  }

  lemma ReadIs(db: Db, cid: nat)
    requires cid in db.cursors && cid in db.core.consumers
    ensures ReadConsumer(db, cid).Some? && ReadConsumer(db, cid).value.draining == db.core.consumers[cid].drainingAt.Some?
  {
    hide Minimum, VisibleAt;
  }

  lemma NoneLeased(deliveries: map<Slot, Lease>, cid: nat, deadline: int)
    ensures LeaseRows(deliveries, cid, {}, {}, deadline) == deliveries
  {
  }

  /** An empty locked half leaves the rows, and moves the cursor to its limit. */
  lemma EmptyClaimIs(db: Db, cid: nat, max: nat, now: int, lease: int)
    requires Wf(db) && cid in db.core.consumers && max > 0
    requires Claim(db, cid, max, now, now + lease).1 == Ok([])
    ensures cid in db.cursors
    ensures var after := Claim(db, cid, max, now, now + lease).0;
      && after.core == db.core && cid in after.cursors
      && after.cursors[cid].drain == db.cursors[cid].drain && ScanLimit(db.core.messages, after.cursors[cid]) <= after.cursors[cid].scan
  {
    hide Wf, Claim, Scan, LeaseRows, Visible, Backlog, Retries, ScanLimit;
    var retries, taken, scan := ClaimIs(db, cid, max, now, now + lease);
    ReadyIsNone(db, cid, max, now, lease);
    NoneLeased(db.core.deliveries, cid, now + lease);
    ScanExhausted(db.core.messages, db.core.consumers[cid].filter, db.cursors[cid], max);
    LimitFixed(db.core.messages, db.cursors[cid], scan);
  }

  /** After an empty locked half nothing is ready, and the last read says when something will be. */
  lemma EmptyClaim(db: Db, cid: nat, max: nat, now: int, lease: int)
    requires Wf(db) && cid in db.core.consumers && max > 0
    requires Claim(db, cid, max, now, now + lease).1 == Ok([])
    ensures Snapshot(db, cid, now).Ok?
    ensures var s := Snapshot(db, cid, now).value;
      AfterEmpty(Claim(db, cid, max, now, now + lease).0, cid, now) == Ok(ClaimResult([], s.nextReadyAt, s.drainingAt.Some?))
  {
    hide Wf, Claim, Snapshot, LaterVisible, VisibleAt, Minimum, Visible, Outstanding, Backlog, Inbox, ScanLimit, Retries, Scan;
    SnapshotCounts(db, cid, now);
    EmptyClaimIs(db, cid, max, now, lease);
    ReadyIsNone(db, cid, max, now, lease);
    DueIsVisible(db.core.deliveries, cid, now);
  }

  lemma LimitFixed(messages: map<nat, Message>, cursor: Cursor, scan: nat)
    ensures ScanLimit(messages, cursor.(scan := scan)) == ScanLimit(messages, cursor)
  {
  }

  lemma ReadyIsNone(db: Db, cid: nat, max: nat, now: int, lease: int)
    requires Wf(db) && cid in db.core.consumers && max > 0
    requires Claim(db, cid, max, now, now + lease).1 == Ok([])
    ensures cid in db.cursors && Visible(db.core.deliveries, cid, now).Keys == {} && Backlog(db, cid) == {}
    ensures Retries(db.core, cid, max, now) == {}
    ensures Scan(db.core.messages, db.core.consumers[cid].filter, db.cursors[cid], max).0 == {}
  {
    hide Wf, Claim, Visible, Backlog, Retries, Scan, Lowest, Handed, Ready, ChosenFrom;
    CursorKeys(db);
    var op := ClaimOp(cid, max, now, lease);
    ClaimIsExact(db, op);
    ReadySize(db, cid, now);
    RetriesShown(db.core, cid, max, now);
    ScanTakes(db, cid, max);
  }

  lemma RetriesShown(core: Core, cid: nat, max: nat, now: int)
    ensures Visible(core.deliveries, cid, now).Keys == {} ==> Retries(core, cid, max, now) == {}
  {
    hide Visible;
  }

  lemma ScanExhausted(messages: map<nat, Message>, filter: Option<string>, cursor: Cursor, n: nat)
    requires n > 0 && Scan(messages, filter, cursor, n).0 == {}
    ensures ScanLimit(messages, cursor) <= Scan(messages, filter, cursor, n).1
  {
    hide Window;
  }

  /** Under interference the deliveries are exactly those of the locked half, on the state it finds. */
  lemma DisturbedClaim(db: Db, cid: nat, max: nat, now: int, lease: int, first: seq<Op>, second: seq<Op>)
    requires Wf(db)
    ensures var (after, r) := ClaimCall(db, cid, max, now, lease, first, second);
      && Wf(after)
      && (r.Ok? && r.value.deliveries != [] ==> (after, Ok(r.value.deliveries)) == Claim(Run(db, first), cid, max, now, now + lease))
      && (r.Err? ==> r.error == ConsumerDeleted || r.error == DurationOutOfRange)
  {
    hide Wf, Run, Claim, ReadConsumer;
    RunKept(db, first);
    ClaimStepKept(Run(db, first), cid, max, now, now + lease);
    ClaimErrors(Run(db, first), cid, max, now, now + lease);
    RunKept(Claim(Run(db, first), cid, max, now, now + lease).0, second);
  }

  lemma ClaimErrors(db: Db, cid: nat, max: nat, now: int, deadline: int)
    requires Wf(db)
    ensures var r := Claim(db, cid, max, now, deadline).1; r.Err? ==> r.error == ConsumerDeleted
  {
    hide Wf, Claim;
    if cid in db.core.consumers {
      ClaimKept(db, cid, max, now, deadline);
    } else {
      ClaimDeleted(db, cid, max, now, deadline);
    }
  }

  // ---- The early exit of a poll ---------------------------------------------------------

  /** Draining, with nothing materialized and nothing left to scan. */
  predicate FullyDrained(db: Db, cid: nat) {
    && cid in db.core.consumers && cid in db.cursors
    && db.core.consumers[cid].drainingAt.Some?
    && Inbox(db.core.deliveries, cid).Keys == {}
    && Backlog(db, cid) == {}
  }

  /** The state the poller's last read of a claim saw. */
  function LastRead(db: Db, cid: nat, max: nat, now: int, lease: int, first: seq<Op>, second: seq<Op>): Db {
    if ReadConsumer(db, cid).Some? && NothingDue(ReadConsumer(db, cid).value, now) then db
    else Run(Claim(Run(db, first), cid, max, now, now + lease).0, second)
  }

  lemma DrainedRead(db: Db, cid: nat)
    requires Wf(db) && ReadConsumer(db, cid).Some?
    requires ReadConsumer(db, cid).value.earliest.None? && ReadConsumer(db, cid).value.draining
    requires ReadConsumer(db, cid).value.limit <= ReadConsumer(db, cid).value.scan
    ensures FullyDrained(db, cid)
  {
    hide Wf, Minimum, VisibleAt, Inbox, Visible, Unseen, LaterVisible;
    DueIsVisible(db.core.deliveries, cid, 0);
    ScannedOut(db, cid);
  }

  /** A poll gives up early only after reading a drained consumer, whatever others did meanwhile. */
  lemma EarlyExitIsDrained(db: Db, cid: nat, max: nat, now: int, lease: int, first: seq<Op>, second: seq<Op>)
    requires Wf(db)
    requires var r := ClaimCall(db, cid, max, now, lease, first, second).1;
      r.Ok? && r.value.deliveries == [] && r.value.draining && r.value.nextVisibleAt.None?
    ensures FullyDrained(LastRead(db, cid, max, now, lease, first, second), cid)
  {
    hide Wf, Run, Claim, ReadConsumer, FullyDrained;
    DisturbedClaim(db, cid, max, now, lease, first, second);
    DrainedRead(LastRead(db, cid, max, now, lease, first, second), cid);
  }

  // ---- What a claim reports -------------------------------------------------------------

  /** Draining, with no rows, and scanned up to the boundary. */
  predicate Exhausted(db: Db, cid: nat) {
    && cid in db.core.consumers && cid in db.cursors && db.core.consumers[cid].drainingAt.Some?
    && (forall s | s in db.core.deliveries :: s.consumer != cid)
    && db.cursors[cid].drain.Some? && db.cursors[cid].drain.value <= db.cursors[cid].scan
  }

  /** The earliest visibility time among the rows of a consumer, if it has rows. */
  ghost predicate EarliestRow(rows: map<Slot, Lease>, cid: nat, earliest: Option<int>) {
    && (earliest.None? <==> forall s | s in rows :: s.consumer != cid)
    && (earliest.Some? ==> exists s :: s in rows && s.consumer == cid && rows[s].visibleAt == earliest.value)
    && (earliest.Some? ==> forall s | s in rows && s.consumer == cid :: earliest.value <= rows[s].visibleAt)
  }

  lemma EarliestOf(rows: map<Slot, Lease>, cid: nat)
    ensures EarliestRow(rows, cid, Minimum(VisibleAt(rows, cid)))
  {
    hide Minimum;
    var times := VisibleAt(rows, cid);
    MinimumIs(times);
    forall s | s in rows && s.consumer == cid ensures s.message in times && times[s.message] == rows[s].visibleAt {
      assert s == Slot(cid, s.message);
    }
    forall m | m in times ensures Slot(cid, m) in rows && times[m] == rows[Slot(cid, m)].visibleAt {}
  }

  /**
   An empty claim reports of the state its last read saw: whether the consumer drains, and when to
   come back, which is at once if the scan has not reached its limit, as when work is left to scan,
   and otherwise when the first row becomes visible.
   */
  lemma EmptyClaimReports(db: Db, cid: nat, max: nat, now: int, lease: int, first: seq<Op>, second: seq<Op>)
    requires Wf(db)
    requires var r := ClaimCall(db, cid, max, now, lease, first, second).1; r.Ok? && r.value.deliveries == []
    ensures var r, read := ClaimCall(db, cid, max, now, lease, first, second).1.value, LastRead(db, cid, max, now, lease, first, second);
      && cid in read.core.consumers && cid in read.cursors
      && r.draining == read.core.consumers[cid].drainingAt.Some?
      && (if read.cursors[cid].scan < ScanLimit(read.core.messages, read.cursors[cid]) then r.nextVisibleAt == Some(now)
          else EarliestRow(read.core.deliveries, cid, r.nextVisibleAt))
      && (Backlog(read, cid) != {} ==> r.nextVisibleAt == Some(now))
  {
    hide Wf, Run, Claim, Minimum, VisibleAt, Backlog, ScanLimit, EarliestRow;
    var read := LastRead(db, cid, max, now, lease, first, second);
    EarliestOf(read.core.deliveries, cid);
    if Backlog(read, cid) != {} && read.cursors[cid].scan >= ScanLimit(read.core.messages, read.cursors[cid]) {
      ScannedOut(read, cid);
    }
  }

  /** An empty claim says there is nothing to wait for exactly when its last read saw the consumer exhausted. */
  lemma NothingToWaitFor(db: Db, cid: nat, max: nat, now: int, lease: int, first: seq<Op>, second: seq<Op>)
    requires Wf(db)
    requires var r := ClaimCall(db, cid, max, now, lease, first, second).1; r.Ok? && r.value.deliveries == []
    ensures var r := ClaimCall(db, cid, max, now, lease, first, second).1.value;
      r.draining && r.nextVisibleAt.None? <==> Exhausted(LastRead(db, cid, max, now, lease, first, second), cid)
  {
    hide Wf, ClaimCall, LastRead, Backlog;
    EmptyClaimReports(db, cid, max, now, lease, first, second);
    LastReadWf(db, cid, max, now, lease, first, second);
    BoundaryWhileDraining(LastRead(db, cid, max, now, lease, first, second), cid);
  }

  lemma LastReadWf(db: Db, cid: nat, max: nat, now: int, lease: int, first: seq<Op>, second: seq<Op>)
    requires Wf(db)
    ensures Wf(LastRead(db, cid, max, now, lease, first, second))
  {
    hide Wf, Run, Claim, ReadConsumer;
    RunKept(db, first);
    ClaimStepKept(Run(db, first), cid, max, now, now + lease);
    RunKept(Claim(Run(db, first), cid, max, now, now + lease).0, second);
  }

  lemma BoundaryWhileDraining(db: Db, cid: nat)
    requires Wf(db) && cid in db.core.consumers
    ensures cid in db.cursors && (db.core.consumers[cid].drainingAt.Some? <==> db.cursors[cid].drain.Some?)
    ensures db.cursors[cid].drain.Some? ==> ScanLimit(db.core.messages, db.cursors[cid]) == db.cursors[cid].drain.value
  {
  }

  /** There is something for a claim to look for: a row whose time has come, or log past the cursor. */
  predicate Due(db: Db, cid: nat, now: int) {
    && cid in db.core.consumers && cid in db.cursors
    && ((exists s :: s in db.core.deliveries && s.consumer == cid && db.core.deliveries[s].visibleAt <= now)
        || db.cursors[cid].scan < ScanLimit(db.core.messages, db.cursors[cid]))
  }

  /**
   The rest of what a claim reports: why it fails, and that with deliveries it says no time and
   whether the consumer drained when it was locked.
   */
  lemma ClaimReports(db: Db, cid: nat, max: nat, now: int, lease: int, first: seq<Op>, second: seq<Op>)
    requires Wf(db)
    ensures var r := ClaimCall(db, cid, max, now, lease, first, second).1; var locked := Run(db, first);
      && (r == Err(DurationOutOfRange) <==> Due(db, cid, now) && now + lease > I64_MAX)
      && (cid !in db.core.consumers ==> r == Err(ConsumerDeleted))
      && (Due(db, cid, now) && now + lease <= I64_MAX && cid !in locked.core.consumers ==> r == Err(ConsumerDeleted))
      && (r == Err(ConsumerDeleted) ==> cid !in db.core.consumers || cid !in locked.core.consumers || cid !in LastRead(db, cid, max, now, lease, first, second).core.consumers)
      && (r.Ok? && r.value.deliveries != [] ==>
            && cid in locked.core.consumers && r.value.nextVisibleAt.None? && r.value.draining == locked.core.consumers[cid].drainingAt.Some?)
  {
    hide Wf, Run, Claim, Due, ReadConsumer, NothingDue, AfterEmpty;
    CursorKeys(db);
    RunKept(db, first);
    DueOrNot(db, cid, now);
    LockedReports(Run(db, first), cid, max, now, lease);
    var read := Run(Claim(Run(db, first), cid, max, now, now + lease).0, second);
    LastReadWf(db, cid, max, now, lease, first, second);
    ReadMissing(db, cid);
    ReadMissing(read, cid);
    AfterEmptyFails(read, cid, now);
    if ReadConsumer(db, cid).Some? && !NothingDue(ReadConsumer(db, cid).value, now) {
      assert LastRead(db, cid, max, now, lease, first, second) == read;
      CursorKeys(read);
    }
  }

  lemma LockedReports(db: Db, cid: nat, max: nat, now: int, lease: int)
    requires Wf(db)
    ensures Claim(db, cid, max, now, now + lease).1.Ok? <==> cid in db.core.consumers
    ensures Claim(db, cid, max, now, now + lease).1.Err? ==> Claim(db, cid, max, now, now + lease).1 == Err(ConsumerDeleted)
  {
    hide Wf, Claim, Retries, Scan, LeaseRows, LeaseOut;
    if cid in db.core.consumers {
      ClaimKept(db, cid, max, now, now + lease);
    } else {
      ClaimDeleted(db, cid, max, now, now + lease);
    }
  }

  lemma ReadMissing(db: Db, cid: nat)
    ensures ReadConsumer(db, cid).None? <==> cid !in db.core.consumers || cid !in db.cursors
  {
    hide Minimum, VisibleAt, ScanLimit;
  }

  lemma AfterEmptyFails(db: Db, cid: nat, now: int)
    ensures AfterEmpty(db, cid, now).Err? ==> AfterEmpty(db, cid, now) == Err(ConsumerDeleted) && ReadConsumer(db, cid).None?
    ensures AfterEmpty(db, cid, now).Ok? ==> AfterEmpty(db, cid, now).value.deliveries == []
  {
    hide ReadConsumer;
  }

  lemma DueOrNot(db: Db, cid: nat, now: int)
    requires cid in db.core.consumers ==> cid in db.cursors
    ensures Due(db, cid, now) <==> ReadConsumer(db, cid).Some? && !NothingDue(ReadConsumer(db, cid).value, now)
  {
    hide Minimum, VisibleAt, ScanLimit;
    EarliestOf(db.core.deliveries, cid);
  }

  /** Some archive of the consumer goes back. */
  predicate Refills(db: Db, op: Op, cid: nat) {
    op.RedriveOp? && op.cid == cid && Redriven(db.core, cid, op.archiveIds) != {}
  }

  /** Nothing but a redrive ends the drained state, short of deleting the consumer. */
  lemma DrainedStays(db: Db, op: Op, cid: nat)
    requires Wf(db) && FullyDrained(db, cid) && !Refills(db, op, cid)
    ensures cid !in Step(db, op).0.core.consumers || FullyDrained(Step(db, op).0, cid)
  {
    hide Wf, Step, EagerStep, FullyDrained, Refills, Backlog;
    StepKept(db, op);
    StepAgrees(db, op);
    var after := Step(db, op).0;
    CursorKeys(db);
    CursorKeys(after);
    DrainedHas(db, cid);
    if cid in after.core.consumers {
      AbstractShares(db);
      AbstractWf(db);
      InboxStaysEmpty(Abstract(db), op, cid);
      NoRowsAppear(db, op, cid);
      StillDrained(after, cid);
    }
  }

  /** A draining consumer with an empty inbox gets no copy of anything. */
  lemma InboxStaysEmpty(e: Eager, op: Op, cid: nat)
    requires EagerWf(e) && cid in e.core.consumers && e.core.consumers[cid].drainingAt.Some? && cid in e.pending && e.pending[cid] == {}
    ensures var after := EagerStep(e, op).0;
      cid in after.core.consumers ==> after.core.consumers[cid].drainingAt.Some? && (cid in after.pending ==> after.pending[cid] == {})
  {
    hide CoreStep, PublishAll, Retries, LeaseOut, Lowest, FindConsumer, SnapshotOf, DropMessages, Remove, Held, CoreOk, PendingOk, Appended, SameLog;
    if OnCore(op) {
      CoreStepKept(e.core, op);
      EagerOnCore(e, op);
      SameConsumers(e.core, CoreStep(e.core, op).0);
    } else if op.PublishOp? {
      PublishAllAppends(e.core, op.batch, op.now, op.window);
      SameConsumersAppended(e.core, PublishAll(e.core, op.batch, op.now, op.window).0);
    } else if op.DeleteOp? {
      RemoveOrNot(e, op.name, op.mode, cid);
    } else {
      NamesUnique(e);
      OtherConsumers(e, op, cid);
    }
  }

  lemma NamesUnique(e: Eager)
    requires EagerWf(e)
    ensures ConsumersOk(e.core)
  {
  }

  lemma SameConsumers(a: Core, b: Core)
    requires SameLog(a, b)
    ensures a.consumers == b.consumers
  {
  }

  lemma SameConsumersAppended(a: Core, b: Core)
    requires Appended(a, b)
    ensures a.consumers == b.consumers
  {
  }

  lemma RemoveOrNot(e: Eager, name: string, mode: DeleteMode, cid: nat)
    ensures var after := Unsubscribe(e, name, mode).0;
      (cid in after.core.consumers ==> cid in e.core.consumers && after.core.consumers[cid] == e.core.consumers[cid])
      && (cid in after.pending ==> cid in e.pending && after.pending[cid] == e.pending[cid])
  {
    hide FindConsumer, Inbox, ArchivesOf;
  }

  lemma OtherConsumers(e: Eager, op: Op, cid: nat)
    requires !OnCore(op) && !op.PublishOp? && !op.DeleteOp?
    requires ConsumersOk(e.core) && cid in e.core.consumers && e.core.consumers[cid].drainingAt.Some? && cid in e.pending && e.pending[cid] == {}
    ensures var after := EagerStep(e, op).0;
      cid in after.core.consumers ==> after.core.consumers[cid].drainingAt.Some? && (cid in after.pending ==> after.pending[cid] == {})
  {
    hide Retries, LeaseRows, Collect, Lowest, FindConsumer, SnapshotOf, Held;
    if op.ClaimOp? {
      RetriesVisible(e.core, op.cid, op.max, op.now);
    }
  }

  lemma NoRowsAppear(db: Db, op: Op, cid: nat)
    requires Wf(db) && FullyDrained(db, cid) && !Refills(db, op, cid)
    ensures forall s | s in Step(db, op).0.core.deliveries :: s.consumer != cid
  {
    hide Wf, FullyDrained, Refills, Redrives, CoreStep, OpenConsumer, BeginDraining, PublishAll, Claim, Snapshot, DeleteConsumer, PruneMessages, Backlog;
    DrainedHas(db, cid);
    forall s: Slot | s.consumer == cid ensures s !in Step(db, op).0.core.deliveries {
      if OnCore(op) {
        WfCore(db);
        ReceiptAbsent(db, op, s);
        StepOnCore(db, op);
        NotRefilled(db, op, s);
      } else if op.ClaimOp? {
        NothingClaimed(db, op.cid, op.max, op.now, op.now + op.lease, s);
      } else if op.DeleteOp? {
        DeleteAbsent(db, op.name, op.mode, s);
      } else {
        SameRows(db, op);
      }
    }
  }

  lemma NotRefilled(db: Db, op: Op, s: Slot)
    requires !Refills(db, op, s.consumer)
    ensures !Redrives(db, op, s)
  {
  }

  lemma NothingClaimed(db: Db, cid: nat, max: nat, now: int, deadline: int, s: Slot)
    requires Wf(db) && s !in db.core.deliveries
    requires s.consumer in db.core.consumers && s.consumer in db.cursors && Backlog(db, s.consumer) == {}
    ensures s !in Claim(db, cid, max, now, deadline).0.core.deliveries
  {
    hide Wf, Claim, Retries, Scan, Backlog, LeaseOut, Lowest, LeaseRows;
    if cid in db.core.consumers {
      ClaimBacklog(db, cid, max, now, deadline);
      var retries, taken, scan := ClaimIs(db, cid, max, now, deadline);
    } else {
      ClaimDeleted(db, cid, max, now, deadline);
    }
  }

  /** No redrive of the run brings the consumer a copy back. */
  predicate NeverRefilled(db: Db, ops: seq<Op>, cid: nat)
    decreases |ops|
  {
    ops == [] || (!Refills(db, ops[0], cid) && NeverRefilled(Step(db, ops[0]).0, ops[1..], cid))
  }

  /** Drained is for good: through any run without such a redrive, until the consumer is deleted. */
  lemma {:induction false} DrainedForGood(db: Db, ops: seq<Op>, cid: nat)
    requires Wf(db) && FullyDrained(db, cid) && NeverRefilled(db, ops, cid)
    ensures cid !in Run(db, ops).core.consumers || FullyDrained(Run(db, ops), cid)
    decreases |ops|
  {
    hide Wf, Step, FullyDrained, Refills, Onward;
    if ops != [] {
      var next := Step(db, ops[0]).0;
      StepKept(db, ops[0]);
      DrainedStays(db, ops[0], cid);
      if cid in next.core.consumers {
        DrainedForGood(next, ops[1..], cid);
      } else {
        DrainedHas(db, cid);
        ConsumersBounded(db);
        StepOnward(db, ops[0]);
        GoneNow(db, next, cid);
        GoneForGood(next, ops[1..], cid);
      }
    }
  }

  lemma GoneNow(db: Db, next: Db, cid: nat)
    requires Onward(db, next) && cid <= db.core.consumerSeq
    ensures cid <= next.core.consumerSeq
  {
  }

  /** The id of a deleted consumer is never in use again. */
  lemma {:induction false} GoneForGood(db: Db, ops: seq<Op>, cid: nat)
    requires Wf(db) && cid !in db.core.consumers && cid <= db.core.consumerSeq
    ensures cid !in Run(db, ops).core.consumers
    decreases |ops|
  {
    hide Wf, Step;
    if ops != [] {
      StepKept(db, ops[0]);
      StepOnward(db, ops[0]);
      GoneForGood(Step(db, ops[0]).0, ops[1..], cid);
    }
  }

  lemma StillDrained(db: Db, cid: nat)
    requires cid in db.core.consumers && cid in db.cursors && db.core.consumers[cid].drainingAt.Some?
    requires Backlog(db, cid) == {} && forall s | s in db.core.deliveries :: s.consumer != cid
    ensures FullyDrained(db, cid)
  {
    hide Unseen;
  }

  lemma DrainedHas(db: Db, cid: nat)
    requires FullyDrained(db, cid)
    ensures cid in db.core.consumers && cid in db.cursors && db.core.consumers[cid].drainingAt.Some? && Backlog(db, cid) == {}
    ensures forall s | s in db.core.deliveries :: s.consumer != cid
  {
    forall s: Slot ensures s in db.core.deliveries ==> s.consumer != cid {
      assert s.message !in Inbox(db.core.deliveries, cid) && s == Slot(s.consumer, s.message);
    }
  }
}
