/**
 Emptying a consumer: rounds of claim and acknowledge end after exactly as many nonempty
 rounds as the backlog needs, and hand every outstanding message out exactly once, whatever
 others do to the rest of the store in between.
 */
module Draining {
  import opened Prelude
  import opened Ranking
  import opened Schema
  import opened Transactions
  import opened Runs
  import opened Receipts
  import opened Invariants
  import opened Fanout
  import opened LazyIsEager
  import opened Leases
  import opened Backlogs
  import opened Claims
  import opened Identity
  import Wakeups
  import Time

  function ReceiptsOf(deliveries: seq<Delivery>): seq<Receipt> {
    seq(|deliveries|, i requires 0 <= i < |deliveries| => deliveries[i].receipt)
  }

  function IdsOf(deliveries: seq<Delivery>): seq<nat> {
    seq(|deliveries|, i requires 0 <= i < |deliveries| => deliveries[i].id)
  }

  /** Claim a batch and acknowledge all of it. */
  function Round(db: Db, cid: nat, max: nat, now: int, lease: int): (Db, seq<nat>) {
    var (leased, claimed) := Claim(db, cid, max, now, now + lease);
    if claimed.Err? then (leased, [])
    else (Step(leased, AckOp(cid, ReceiptsOf(claimed.value))).0, IdsOf(claimed.value))
  }

  /** One visit of the worker: what others committed before it came, and its clock reading. */
  datatype Visit = Visit(others: seq<Op>, now: int)

  /** One round for each visit: the state at the end and the ids of each round. */
  function Rounds(db: Db, cid: nat, max: nat, visits: seq<Visit>, lease: int): (Db, seq<seq<nat>>)
    decreases |visits|
  {
    if visits == [] then (db, [])
    else
      var (next, ids) := Round(Run(db, visits[0].others), cid, max, visits[0].now, lease);
      var (end, more) := Rounds(next, cid, max, visits[1..], lease);
      (end, [ids] + more)
  }

  /** No copy of this consumer is hidden at `now`. */
  predicate AllVisible(db: Db, cid: nat, now: int) {
    forall s | s in db.core.deliveries && s.consumer == cid :: db.core.deliveries[s].visibleAt <= now
  }

  function Elements(q: seq<nat>): set<nat> {
    set x | x in q
  }

  lemma ElementsOfSorted(s: set<nat>)
    ensures Elements(Sorted(s)) == s
  {
  }

  lemma AllReady(db: Db, cid: nat, now: int)
    requires cid in db.core.consumers && cid in db.cursors && AllVisible(db, cid, now)
    ensures Visible(db.core.deliveries, cid, now).Keys == Inbox(db.core.deliveries, cid).Keys
    ensures Ready(db, cid, now) == Outstanding(db, cid)
  {
    forall m | m in Inbox(db.core.deliveries, cid) ensures m in Visible(db.core.deliveries, cid, now) {
      assert Slot(cid, m) in db.core.deliveries;
    }
    hide Unseen;
  }

  /** The deliveries of a claim, as ids and receipts of the rows it left. */
  ghost predicate Matched(rows: map<Slot, Lease>, cid: nat, handed: set<nat>, deliveries: seq<Delivery>) {
    && |deliveries| == |handed| == |Sorted(handed)|
    && forall i | 0 <= i < |deliveries| ::
         && deliveries[i].id == Sorted(handed)[i]
         && Slot(cid, deliveries[i].id) in rows && deliveries[i].receipt == ReceiptFor(rows, Slot(cid, deliveries[i].id))
  }

  lemma ClaimMatched(db: Db, op: Op)
    requires Wf(db) && op.ClaimOp? && op.cid in db.core.consumers
    ensures var (after, claimed) := Claim(db, op.cid, op.max, op.now, op.now + op.lease);
      claimed.Ok? && Matched(after.core.deliveries, op.cid, Handed(db, op), claimed.value)
  {
    hide Wf, Claim, Handed, Sorted;
    ClaimHandsOut(db, op);
  }

  /** Acknowledging everything a claim handed out settles exactly those rows. */
  lemma AllHit(rows: map<Slot, Lease>, cid: nat, handed: set<nat>, deliveries: seq<Delivery>)
    requires Matched(rows, cid, handed, deliveries)
    ensures forall s: Slot :: s in Hit(rows, cid, ReceiptsOf(deliveries)) <==> s.consumer == cid && s.message in handed
    ensures IdsOf(deliveries) == Sorted(handed)
  {
    hide Sorted;
    var receipts, order := ReceiptsOf(deliveries), Sorted(handed);
    assert forall i | 0 <= i < |order| :: order[i] in order && receipts[i] == deliveries[i].receipt;
    forall s: Slot | s.consumer == cid && s.message in handed ensures s in Hit(rows, cid, receipts) {
      var i :| 0 <= i < |order| && order[i] == s.message;
      assert receipts[i] == ReceiptFor(rows, s);
    }
  }

  /** What a round leaves: the rest of the backlog, untouched. */
  ghost predicate RoundLeaves(db: Db, cid: nat, handed: set<nat>, after: Db)
    requires cid in db.core.consumers && cid in db.cursors
  {
    && Wf(after) && after.core.consumers == db.core.consumers && cid in after.cursors
    && Outstanding(after, cid) == Outstanding(db, cid) - handed
    && (forall s | s in after.core.deliveries :: s in db.core.deliveries && (s.consumer == cid ==> after.core.deliveries[s] == db.core.deliveries[s]))
  }

  lemma AckedRows(rows: map<Slot, Lease>, leased: map<Slot, Lease>, hits: set<Slot>, cid: nat, retries: set<nat>, taken: set<nat>, deadline: int)
    requires leased == LeaseRows(rows, cid, retries, taken, deadline)
    requires forall s :: s in hits <==> s.consumer == cid && s.message in retries + taken
    requires forall m | m in taken :: Slot(cid, m) !in rows
    ensures forall s | s in leased - hits :: s in rows && (leased - hits)[s] == rows[s]
    ensures Inbox(leased - hits, cid).Keys == Inbox(rows, cid).Keys - retries
  {
    forall m ensures m in Inbox(leased - hits, cid) <==> m in Inbox(rows, cid) && m !in retries {
      assert Slot(cid, m) in leased - hits <==> Slot(cid, m) in rows && m !in retries;
    }
  }

  lemma AckStep(db: Db, cid: nat, receipts: seq<Receipt>)
    ensures Step(db, AckOp(cid, receipts)).0 == Db(db.core.(deliveries := db.core.deliveries - Hit(db.core.deliveries, cid, receipts)), db.cursors)
  {
    hide Hit;
  }

  /** Scanning and settling what was handed out takes exactly that from the backlog. */
  lemma SettledLeaves(db: Db, leased: Db, cid: nat, hits: set<Slot>, retries: set<nat>, taken: set<nat>, deadline: int)
    requires Wf(db) && cid in db.core.consumers && cid in db.cursors && cid in leased.cursors
    requires leased.core == db.core.(deliveries := LeaseRows(db.core.deliveries, cid, retries, taken, deadline))
    requires Backlog(leased, cid) == Backlog(db, cid) - taken && taken <= Backlog(db, cid)
    requires forall m | m in retries :: Slot(cid, m) in db.core.deliveries
    requires forall m | m in taken :: Slot(cid, m) !in db.core.deliveries
    requires forall s :: s in hits <==> s.consumer == cid && s.message in retries + taken
    requires Wf(Db(leased.core.(deliveries := leased.core.deliveries - hits), leased.cursors))
    ensures RoundLeaves(db, cid, retries + taken, Db(leased.core.(deliveries := leased.core.deliveries - hits), leased.cursors))
  {
    hide Wf, LeaseRows, Unseen, Inbox;
    AckedRows(db.core.deliveries, leased.core.deliveries, hits, cid, retries, taken, deadline);
    BacklogScanned(db, cid);
    RetriesInInbox(db.core.deliveries, cid, retries);
    var after := Db(leased.core.(deliveries := leased.core.deliveries - hits), leased.cursors);
    assert Backlog(after, cid) == Backlog(leased, cid);
  }

  lemma RetriesInInbox(rows: map<Slot, Lease>, cid: nat, retries: set<nat>)
    requires forall m | m in retries :: Slot(cid, m) in rows
    ensures retries <= Inbox(rows, cid).Keys
  {
  }

  /** Everything a claim does that a round needs. */
  lemma Leased(db: Db, op: Op) returns (retries: set<nat>, taken: set<nat>)
    requires Wf(db) && op.ClaimOp? && op.cid in db.core.consumers
    ensures var leased := Claim(db, op.cid, op.max, op.now, op.now + op.lease).0;
      && op.cid in db.cursors && op.cid in leased.cursors && op.cid in leased.core.consumers && Wf(leased)
      && leased.core == db.core.(deliveries := LeaseRows(db.core.deliveries, op.cid, retries, taken, op.now + op.lease))
      && Backlog(leased, op.cid) == Backlog(db, op.cid) - taken && taken <= Backlog(db, op.cid)
    ensures forall m | m in retries :: Slot(op.cid, m) in db.core.deliveries
    ensures forall m | m in taken :: Slot(op.cid, m) !in db.core.deliveries
    ensures Handed(db, op) == retries + taken
  {
    hide Wf, Claim, Retries, Scan, LeaseRows, LeaseOut, Lowest, Backlog, Handed;
    CursorKeys(db);
    ClaimStepKept(db, op.cid, op.max, op.now, op.now + op.lease);
    HandedIs(db, op);
    retries, taken := LeasedRows(db, op);
    ClaimBacklog(db, op.cid, op.max, op.now, op.now + op.lease);
  }

  lemma LeasedRows(db: Db, op: Op) returns (retries: set<nat>, taken: set<nat>)
    requires Wf(db) && op.ClaimOp? && op.cid in db.core.consumers
    ensures var leased := Claim(db, op.cid, op.max, op.now, op.now + op.lease).0;
      && retries == Retries(db.core, op.cid, op.max, op.now) && op.cid in db.cursors && op.cid in leased.cursors
      && |retries| <= op.max && taken == Lowest(Backlog(db, op.cid), op.max - |retries|)
      && leased.core == db.core.(deliveries := LeaseRows(db.core.deliveries, op.cid, retries, taken, op.now + op.lease))
    ensures forall m | m in retries :: Slot(op.cid, m) in db.core.deliveries
    ensures forall m | m in taken :: Slot(op.cid, m) !in db.core.deliveries
  {
    hide Wf, Claim, Retries, Scan, LeaseRows, LeaseOut, Lowest, Backlog;
    CursorKeys(db);
    var scan;
    retries, taken, scan := ClaimIs(db, op.cid, op.max, op.now, op.now + op.lease);
    ScanTakes(db, op.cid, op.max - |retries|);
  }

  lemma RoundSettles(db: Db, cid: nat, max: nat, now: int, lease: int)
    requires Wf(db) && cid in db.core.consumers
    ensures var op := ClaimOp(cid, max, now, lease); var (after, ids) := Round(db, cid, max, now, lease);
      cid in db.cursors && ids == Sorted(Handed(db, op)) && RoundLeaves(db, cid, Handed(db, op), after)
  {
    hide Wf, Claim, Step, LeaseRows, Sorted, Matched, Hit, Backlog, ReceiptsOf, IdsOf, RoundLeaves, Handed;
    var op := ClaimOp(cid, max, now, lease);
    ClaimMatched(db, op);
    var retries, taken := Leased(db, op);
    var (leased, claimed) := Claim(db, cid, max, now, now + lease);
    AllHit(leased.core.deliveries, cid, Handed(db, op), claimed.value);
    var receipts := ReceiptsOf(claimed.value);
    StepKept(leased, AckOp(cid, receipts));
    AckStep(leased, cid, receipts);
    SettledLeaves(db, leased, cid, Hit(leased.core.deliveries, cid, receipts), retries, taken, now + lease);
  }

  /** Nothing in the unscanned part of the log is in the inbox. */
  lemma BacklogScanned(db: Db, cid: nat)
    requires Wf(db) && cid in db.core.consumers
    ensures cid in db.cursors && Inbox(db.core.deliveries, cid).Keys !! Backlog(db, cid)
  {
    RowsScanned(db, cid);
  }

  /** One round takes as many as fit, hands each out once, and leaves the rest as it was. */
  lemma RoundIs(db: Db, cid: nat, max: nat, now: int, lease: int)
    requires Wf(db) && cid in db.core.consumers && AllVisible(db, cid, now)
    ensures cid in db.cursors
    ensures var (after, ids) := Round(db, cid, max, now, lease);
      && Ascending(ids) && |ids| == Min(max, |Outstanding(db, cid)|)
      && Elements(ids) <= Outstanding(db, cid)
      && RoundLeaves(db, cid, Elements(ids), after)
  {
    hide Wf, Claim, Round, Retries, Handed, Sorted, Elements, RoundLeaves, Ready, ChosenFrom, Outstanding, Backlog, AllVisible, Inbox, Visible;
    var op := ClaimOp(cid, max, now, lease);
    CursorKeys(db);
    RoundSettles(db, cid, max, now, lease);
    ClaimIsExact(db, op);
    AllReady(db, cid, now);
    ElementsOfSorted(Handed(db, op));
    HandedInside(db, op);
  }

  lemma HandedInside(db: Db, op: Op)
    requires Wf(db) && op.ClaimOp? && op.cid in db.core.consumers
    ensures op.cid in db.cursors && Handed(db, op) <= Outstanding(db, op.cid)
  {
    hide Wf, Retries, Backlog, Lowest;
    HandedIs(db, op);
    RetriesVisible(db.core, op.cid, op.max, op.now);
  }

  /** How many batches of `size` it takes. */
  function CeilDiv(count: nat, size: nat): (rounds: nat)
    requires size > 0
    ensures count <= rounds * size
    ensures rounds > 0 ==> (rounds - 1) * size < count
    decreases count
  {
    if count == 0 then 0 else if count <= size then 1
    else
      var others := CeilDiv(count - size, size);
      OneMore(others, size);
      1 + others
  }

  lemma OneMore(rounds: nat, size: nat)
    ensures (1 + rounds) * size == rounds * size + size
    ensures (rounds - 1) * size == rounds * size - size
    ensures (1 + rounds - 1) * size == rounds * size
  {
  }

  /** Every id of every round. */
  function AllIds(rounds: seq<seq<nat>>): seq<nat>
    decreases |rounds|
  {
    if rounds == [] then [] else rounds[0] + AllIds(rounds[1..])
  }

  lemma ElementsJoin(p: seq<nat>, q: seq<nat>)
    ensures Elements(p + q) == Elements(p) + Elements(q)
    ensures Distinct(p) && Distinct(q) && Elements(p) !! Elements(q) ==> Distinct(p + q)
  {
    if Distinct(p) && Distinct(q) && Elements(p) !! Elements(q) {
      forall m | m in p ensures m !in q {
        assert m in Elements(p) && m !in Elements(q);
      }
      DistinctJoin(p, q);
    }
  }

  lemma AscendingSize(q: seq<nat>)
    requires Ascending(q)
    ensures Distinct(q) && |Elements(q)| == |q|
  {
    SortedIs(q);
  }

  lemma Remaining(a: set<nat>, b: set<nat>)
    requires b <= a
    ensures |a - b| == |a| - |b| && (a - b) !! b && (a - b) + b == a
  {
    assert (a - b) + b == a;
  }

  /** The rows left by a round are as visible as they were. */
  lemma StillVisible(db: Db, cid: nat, handed: set<nat>, after: Db, now: int)
    requires cid in db.core.consumers && cid in db.cursors && RoundLeaves(db, cid, handed, after) && AllVisible(db, cid, now)
    ensures AllVisible(after, cid, now)
  {
  }

  // ---- What others may do meanwhile -----------------------------------------------------

  /** A publish that gives nothing to a consumer with this row. */
  predicate Unwanted(row: ConsumerRow, batch: seq<Publish>) {
    row.drainingAt.Some? || forall i | 0 <= i < |batch| :: !Matches(row.filter, batch[i].topic)
  }

  /**
   Commits of others between two rounds: those of other handles, reads, any prune, opening
   consumers, deleting others, and publishing what this one does not get.
   */
  predicate Aside(op: Op, cid: nat, row: ConsumerRow) {
    && (Handle(op) == Some(cid) ==> op.SnapshotOp? || op.ListOp?)
    && (op.PublishOp? ==> Unwanted(row, op.batch))
    && (op.DeleteOp? ==> op.name != row.name)
  }

  predicate AllAside(ops: seq<Op>, cid: nat, row: ConsumerRow) {
    forall op | op in ops :: Aside(op, cid, row)
  }

  /** The consumer, its rows and its unscanned log are as they were. */
  ghost predicate Undisturbed(before: Db, after: Db, cid: nat)
    requires cid in before.core.consumers && cid in before.cursors
  {
    && cid in after.core.consumers && cid in after.cursors && after.core.consumers[cid] == before.core.consumers[cid]
    && Inbox(after.core.deliveries, cid) == Inbox(before.core.deliveries, cid)
    && Backlog(after, cid) == Backlog(before, cid)
  }

  lemma AsideInbox(db: Db, op: Op, cid: nat)
    requires Wf(db) && cid in db.core.consumers && Aside(op, cid, db.core.consumers[cid])
    ensures Inbox(Step(db, op).0.core.deliveries, cid) == Inbox(db.core.deliveries, cid)
  {
    hide Wf, Step, ViewOf, Inbox, Unwanted, Wakeups.RowFollows;
    if Handle(op).Some? && Handle(op).value != cid {
      HandlesAreSeparate(db, op, cid);
      InboxViewed(db, cid);
      InboxViewed(Step(db, op).0, cid);
    } else if op.DeleteOp? {
      DeleteElsewhere(db, op.name, op.mode, cid);
    } else if op.ListOp? {
      StepOnCore(db, op);
    } else {
      SameRows(db, op);
    }
  }

  lemma InboxViewed(db: Db, cid: nat)
    ensures ViewOf(db, cid).rows == Inbox(db.core.deliveries, cid)
  {
  }

  lemma DeleteElsewhere(db: Db, name: string, mode: DeleteMode, cid: nat)
    requires Wf(db) && cid in db.core.consumers && db.core.consumers[cid].name != name
    ensures var after := Step(db, DeleteOp(name, mode)).0;
      cid in after.core.consumers && Inbox(after.core.deliveries, cid) == Inbox(db.core.deliveries, cid)
  {
    hide Wf, Unseen, ArchivesOf, DeleteConsumer;
    if DeleteConsumer(db, name, mode).1.Ok? {
      DeletedIs(db, name, mode);
    } else {
      DeleteRefused(db, name, mode);
    }
  }

  lemma AsideRow(db: Db, op: Op, cid: nat)
    requires Wf(db) && cid in db.core.consumers && Aside(op, cid, db.core.consumers[cid])
    ensures var after := Step(db, op).0; cid in after.core.consumers && after.core.consumers[cid] == db.core.consumers[cid]
  {
    hide Wf, Step, Inbox, Unwanted, FindConsumer, DeleteConsumer, BeginDraining;
    ConsumersBounded(db);
    Wakeups.ConsumerRowStep(db, op, cid);
    if op.DeleteOp? {
      DeleteElsewhere(db, op.name, op.mode, cid);
    }
  }

  lemma AsideBacklog(db: Db, op: Op, cid: nat)
    requires Wf(db) && cid in db.core.consumers && cid in db.cursors && Aside(op, cid, db.core.consumers[cid])
    requires var after := Step(db, op).0; Wf(after) && cid in after.core.consumers && cid in after.cursors
    ensures Backlog(Step(db, op).0, cid) == Backlog(db, cid)
  {
    hide Wf, Step, EagerStep, Backlog, Unwanted;
    var after := Step(db, op).0;
    StepAgrees(db, op);
    AbstractShares(db);
    AbstractShares(after);
    AbstractWf(db);
    InboxOf(db, cid);
    InboxOf(after, cid);
    ConsumersBounded(db);
    Wakeups.OthersLeaveInbox(Abstract(db), op, cid);
    forall m | m in Backlog(after, cid) ensures m in Backlog(db, cid) {
      if m !in Backlog(db, cid) {
        Wakeups.InboxGrows(Abstract(db), op, cid, m);
        NothingWanted(db.core, op, cid, m);
      }
    }
  }

  lemma NothingWanted(core: Core, op: Op, cid: nat, m: nat)
    requires op.PublishOp? && cid in core.consumers && Unwanted(core.consumers[cid], op.batch)
    ensures m !in Copies(core, PublishAll(core, op.batch, op.now, op.window).0, core.consumers[cid])
  {
    hide PublishAll;
    if m in Copies(core, PublishAll(core, op.batch, op.now, op.window).0, core.consumers[cid]) {
      var i := Wakeups.NewMessageIsPublished(core, op.batch, op.now, op.window, m);
    }
  }

  lemma {:induction false} RunAside(db: Db, ops: seq<Op>, cid: nat)
    requires Wf(db) && cid in db.core.consumers && cid in db.cursors && AllAside(ops, cid, db.core.consumers[cid])
    ensures Wf(Run(db, ops)) && Undisturbed(db, Run(db, ops), cid)
    decreases |ops|
  {
    hide Wf, Step, Aside, Inbox, Backlog;
    if ops != [] {
      assert ops[0] in ops;
      StepKept(db, ops[0]);
      CursorKeys(Step(db, ops[0]).0);
      AsideRow(db, ops[0], cid);
      AsideInbox(db, ops[0], cid);
      AsideBacklog(db, ops[0], cid);
      RunAside(Step(db, ops[0]).0, ops[1..], cid);
    }
  }

  lemma UndisturbedShows(before: Db, after: Db, cid: nat, now: int)
    requires cid in before.core.consumers && cid in before.cursors && Undisturbed(before, after, cid)
    ensures Outstanding(after, cid) == Outstanding(before, cid)
    ensures AllVisible(before, cid, now) ==> AllVisible(after, cid, now)
  {
    hide Backlog;
    if AllVisible(before, cid, now) {
      forall s | s in after.core.deliveries && s.consumer == cid ensures after.core.deliveries[s].visibleAt <= now {
        assert s.message in Inbox(after.core.deliveries, cid) && s == Slot(cid, s.message);
        assert s.message in Inbox(before.core.deliveries, cid);
      }
    }
  }

  // ---- Rounds to the end ----------------------------------------------------------------

  /** A visit finds the worker's part as it was left, and takes one round from it. */
  lemma VisitIs(db: Db, cid: nat, max: nat, v: Visit, lease: int)
    requires Wf(db) && cid in db.core.consumers && cid in db.cursors
    requires AllVisible(db, cid, v.now) && AllAside(v.others, cid, db.core.consumers[cid])
    ensures var (next, ids) := Round(Run(db, v.others), cid, max, v.now, lease);
      && Ascending(ids) && |ids| == Min(max, |Outstanding(db, cid)|) && Elements(ids) <= Outstanding(db, cid)
      && Wf(next) && cid in next.core.consumers && cid in next.cursors && next.core.consumers[cid] == db.core.consumers[cid]
      && Outstanding(next, cid) == Outstanding(db, cid) - Elements(ids)
      && forall now :: AllVisible(db, cid, now) ==> AllVisible(next, cid, now)
  {
    hide Wf, Run, Round, Outstanding, AllVisible, Elements, Ascending, Undisturbed, AllAside;
    var met := Run(db, v.others);
    RunAside(db, v.others, cid);
    StillThere(db, met, cid);
    UndisturbedShows(db, met, cid, v.now);
    RoundIs(met, cid, max, v.now, lease);
    var (next, ids) := Round(met, cid, max, v.now, lease);
    forall now | AllVisible(db, cid, now) ensures AllVisible(next, cid, now) {
      UndisturbedShows(db, met, cid, now);
      StillVisible(met, cid, Elements(ids), next, now);
    }
  }

  lemma StillThere(before: Db, after: Db, cid: nat)
    requires cid in before.core.consumers && cid in before.cursors && Undisturbed(before, after, cid)
    ensures cid in after.core.consumers && cid in after.cursors && after.core.consumers[cid] == before.core.consumers[cid]
  {
  }

  /**
   With every row visible at the worker's clock readings, rounds of claim-then-acknowledge are
   nonempty exactly for the first ceil(outstanding / max) of them; together those hand out each
   outstanding message exactly once, and leave nothing outstanding. Others may commit whatever
   they like in between, as long as it is not about this consumer's copies.
   */
  lemma {:induction false} DrainingTerminates(db: Db, cid: nat, max: nat, visits: seq<Visit>, lease: int)
    requires Wf(db) && cid in db.core.consumers && cid in db.cursors && max > 0
    requires forall v | v in visits :: AllVisible(db, cid, v.now) && AllAside(v.others, cid, db.core.consumers[cid])
    ensures var needed := CeilDiv(|Outstanding(db, cid)|, max); var (end, rounds) := Rounds(db, cid, max, visits, lease);
      && |rounds| == |visits|
      && (forall i | 0 <= i < |rounds| :: rounds[i] != [] <==> i < needed)
      && Distinct(AllIds(rounds)) && Elements(AllIds(rounds)) <= Outstanding(db, cid)
      && Wf(end) && cid in end.core.consumers && cid in end.cursors && end.core.consumers[cid] == db.core.consumers[cid]
      && Outstanding(end, cid) == Outstanding(db, cid) - Elements(AllIds(rounds))
      && (Outstanding(end, cid) == {} <==> needed <= |visits|)
    decreases |visits|
  {
    hide Wf, Round, Run, Outstanding, AllVisible, AllAside, Elements, Ascending, Distinct, AllIds, CeilDiv;
    if visits == [] {
      NoIds();
      NoneNeeded(Outstanding(db, cid), max);
    } else {
      assert visits[0] in visits;
      VisitIs(db, cid, max, visits[0], lease);
      var (next, ids) := Round(Run(db, visits[0].others), cid, max, visits[0].now, lease);
      DrainingTerminates(next, cid, max, visits[1..], lease);
      var more := Rounds(next, cid, max, visits[1..], lease).1;
      JoinRounds(Outstanding(db, cid), ids, more);
      NeededAfter(|Outstanding(db, cid)|, max);
    }
  }

  /** One round's ids and then those of the rounds that share the rest. */
  lemma JoinRounds(all: set<nat>, ids: seq<nat>, more: seq<seq<nat>>)
    requires Ascending(ids) && Elements(ids) <= all
    requires Distinct(AllIds(more)) && Elements(AllIds(more)) <= all - Elements(ids)
    ensures Distinct(AllIds([ids] + more)) && Elements(AllIds([ids] + more)) <= all
    ensures all - Elements(AllIds([ids] + more)) == all - Elements(ids) - Elements(AllIds(more))
    ensures |all - Elements(ids)| == |all| - |ids|
  {
    hide Elements, Ascending, Distinct;
    AscendingSize(ids);
    Remaining(all, Elements(ids));
    assert ([ids] + more)[1..] == more;
    ElementsJoin(ids, AllIds(more));
  }

  lemma NoIds()
    ensures AllIds([]) == [] && Elements([]) == {} && Distinct([])
  {
  }

  lemma NoneNeeded(s: set<nat>, max: nat)
    requires max > 0
    ensures CeilDiv(|s|, max) == 0 <==> s == {}
  {
  }

  /** A round of min(max, count) leaves one round fewer to do. */
  lemma NeededAfter(count: nat, max: nat)
    requires max > 0
    ensures CeilDiv(count - Min(max, count), max) == SaturatingSub(CeilDiv(count, max), 1)
    ensures CeilDiv(count, max) == 0 <==> Min(max, count) == 0
  {
  }

  /** A draining consumer served by one worker is drained after exactly that many rounds, and not before. */
  lemma DrainingEndsDrained(db: Db, cid: nat, max: nat, visits: seq<Visit>, lease: int)
    requires Wf(db) && cid in db.core.consumers && cid in db.cursors && max > 0 && db.core.consumers[cid].drainingAt.Some?
    requires forall v | v in visits :: AllVisible(db, cid, v.now) && AllAside(v.others, cid, db.core.consumers[cid])
    ensures FullyDrained(Rounds(db, cid, max, visits, lease).0, cid) <==> CeilDiv(|Outstanding(db, cid)|, max) <= |visits|
  {
    hide Wf, Rounds, AllVisible, AllAside, Unseen, Inbox, CeilDiv;
    DrainingTerminates(db, cid, max, visits, lease);
  }

  // ---- Draining is irreversible ---------------------------------------------------------

  /** The consumer drains since the same time and up to the same boundary, or is gone. */
  ghost predicate SameDraining(before: Db, after: Db, cid: nat)
    requires cid in before.core.consumers && cid in before.cursors
  {
    cid in after.core.consumers ==>
      && cid in after.cursors
      && after.core.consumers[cid] == before.core.consumers[cid]
      && after.cursors[cid].drain == before.cursors[cid].drain
  }

  lemma LogKeepsDraining(db: Db, op: Op, cid: nat)
    requires Wf(db) && !OnCore(op) && cid in db.core.consumers && cid in db.cursors && db.core.consumers[cid].drainingAt.Some?
    ensures SameDraining(db, Step(db, op).0, cid)
  {
    hide Wf, Claim, PublishAll, Snapshot, DeleteConsumer, Appended, FindConsumer, HighWater, Prunable, Lowest;
    if op.PublishOp? {
      PublishedRows(db, op.batch, op.now, op.window);
      SameConsumersAppended(db.core, PublishAll(db.core, op.batch, op.now, op.window).0);
    } else if op.ClaimOp? {
      ClaimKeepsDraining(db, op.cid, op.max, op.now, op.now + op.lease, cid);
    } else if op.DeleteOp? {
      DeleteKeepsDraining(db, op.name, op.mode, cid);
    } else if op.OpenOp? {
      ConsumersBounded(db);
    }
  }

  lemma ClaimKeepsDraining(db: Db, cid: nat, max: nat, now: int, deadline: int, d: nat)
    requires Wf(db) && d in db.core.consumers && d in db.cursors
    ensures SameDraining(db, Claim(db, cid, max, now, deadline).0, d)
  {
    hide Wf, Claim, Retries, Scan, LeaseRows;
    if cid in db.core.consumers {
      var retries, taken, scan := ClaimIs(db, cid, max, now, deadline);
    } else {
      ClaimDeleted(db, cid, max, now, deadline);
    }
  }

  lemma DeleteKeepsDraining(db: Db, name: string, mode: DeleteMode, d: nat)
    requires d in db.core.consumers && d in db.cursors
    ensures SameDraining(db, DeleteConsumer(db, name, mode).0, d)
  {
    hide FindConsumer, Inbox, ArchivesOf, Unseen;
  }

  lemma StepKeepsDraining(db: Db, op: Op, cid: nat)
    requires Wf(db) && cid in db.core.consumers && cid in db.cursors && db.core.consumers[cid].drainingAt.Some?
    ensures SameDraining(db, Step(db, op).0, cid)
  {
    hide Wf, Step, CoreStep;
    if OnCore(op) {
      WfCore(db);
      CoreStepKept(db.core, op);
      StepOnCore(db, op);
      SameConsumers(db.core, CoreStep(db.core, op).0);
    } else {
      LogKeepsDraining(db, op, cid);
    }
  }

  /** Draining is irreversible: its time and its boundary stay as they are until the consumer is deleted. */
  lemma {:induction false} DrainingIsIrreversible(db: Db, ops: seq<Op>, cid: nat)
    requires Wf(db) && cid in db.core.consumers && cid in db.cursors && db.core.consumers[cid].drainingAt.Some?
    ensures SameDraining(db, Run(db, ops), cid)
    decreases |ops|
  {
    hide Wf, Step;
    if ops != [] {
      var next := Step(db, ops[0]).0;
      StepKept(db, ops[0]);
      StepKeepsDraining(db, ops[0], cid);
      if cid in next.core.consumers {
        DrainingIsIrreversible(next, ops[1..], cid);
      } else {
        ConsumersBounded(db);
        StepOnward(db, ops[0]);
        GoneForGood(next, ops[1..], cid);
      }
    }
  }

  /** Cursors move forward through any run, for as long as the consumer is there. */
  lemma {:induction false} ScanGrows(db: Db, ops: seq<Op>, cid: nat)
    requires Wf(db) && cid in db.core.consumers && cid in db.cursors && cid in Run(db, ops).core.consumers
    ensures cid in Run(db, ops).cursors && db.cursors[cid].scan <= Run(db, ops).cursors[cid].scan
    decreases |ops|
  {
    hide Wf, Step;
    if ops != [] {
      var next := Step(db, ops[0]).0;
      StepKept(db, ops[0]);
      ConsumersBounded(db);
      StepOnward(db, ops[0]);
      if cid !in next.core.consumers {
        GoneForGood(next, ops[1..], cid);
      }
      ScanGrows(next, ops[1..], cid);
    }
  }

  /** An exhausted consumer stays exhausted until an archive is redriven to it or it is deleted. */
  lemma ExhaustedForGood(db: Db, ops: seq<Op>, cid: nat)
    requires Wf(db) && Exhausted(db, cid) && NeverRefilled(db, ops, cid)
    ensures cid in Run(db, ops).core.consumers ==> Exhausted(Run(db, ops), cid)
  {
    hide Wf, Run, NeverRefilled, FullyDrained, Backlog;
    ExhaustedIsDrained(db, cid);
    DrainedForGood(db, ops, cid);
    if cid in Run(db, ops).core.consumers {
      DrainedHas(Run(db, ops), cid);
      DrainingIsIrreversible(db, ops, cid);
      ScanGrows(db, ops, cid);
    }
  }

  lemma ExhaustedIsDrained(db: Db, cid: nat)
    requires Wf(db) && Exhausted(db, cid)
    ensures FullyDrained(db, cid)
  {
    hide Wf, FullyDrained, Backlog;
    BoundaryWhileDraining(db, cid);
    ScannedOut(db, cid);
    StillDrained(db, cid);
  }

  lemma NothingReady(db: Db, cid: nat, now: int)
    requires Wf(db) && FullyDrained(db, cid)
    ensures Snapshot(db, cid, now).Ok? && Snapshot(db, cid, now).value.ready == 0
  {
    hide Wf, Snapshot, Backlog, Visible, LaterVisible, Inbox, Minimum, Ready;
    SnapshotCounts(db, cid, now);
    DrainedInbox(db, cid);
    DueIsVisible(db.core.deliveries, cid, now);
  }

  lemma DrainedInbox(db: Db, cid: nat)
    requires FullyDrained(db, cid)
    ensures Inbox(db.core.deliveries, cid).Keys == {} && Outstanding(db, cid) == {}
  {
  }

  /** The locked half of a claim of a drained consumer hands nothing out and leaves it exhausted. */
  lemma DrainedClaim(db: Db, cid: nat, max: nat, now: int, lease: int)
    requires Wf(db) && FullyDrained(db, cid) && max > 0
    ensures var (after, claimed) := Claim(db, cid, max, now, now + lease);
      claimed == Ok([]) && Exhausted(after, cid)
  {
    hide Wf, Claim, Snapshot, FullyDrained, ScanLimit, Backlog;
    DrainedHas(db, cid);
    NothingReady(db, cid, now);
    LockedCount(db, cid, max, now, lease);
    EmptyClaimIs(db, cid, max, now, lease);
    BoundaryWhileDraining(db, cid);
    LimitOfDrain(db.core.messages, db.cursors[cid], Claim(db, cid, max, now, now + lease).0.cursors[cid]);
  }

  lemma LimitOfDrain(messages: map<nat, Message>, before: Cursor, after: Cursor)
    requires before.drain.Some? && after.drain == before.drain
    ensures ScanLimit(messages, after) == after.drain.value
  {
  }

  /**
   A claim of a drained consumer finds nothing and says there is nothing to wait for, although its
   cursor may still be short of the boundary when it starts, and whatever others commit meanwhile
   short of redriving to it; it fails only if the consumer is deleted under it.
   */
  lemma ClaimOfDrained(db: Db, cid: nat, max: nat, now: int, lease: int, first: seq<Op>, second: seq<Op>)
    requires Wf(db) && FullyDrained(db, cid) && max > 0 && now + lease <= Time.I64_MAX
    requires NeverRefilled(db, first, cid) && NeverRefilled(Claim(Run(db, first), cid, max, now, now + lease).0, second, cid)
    ensures var r := ClaimCall(db, cid, max, now, lease, first, second).1;
      && (r.Ok? <==> cid in LastRead(db, cid, max, now, lease, first, second).core.consumers)
      && (r.Ok? ==> r.value == ClaimResult([], None, true))
      && (r.Err? ==> r.error == ConsumerDeleted)
  {
    hide Wf, Run, Claim, FullyDrained, NeverRefilled, ReadConsumer, NothingDue, AfterEmpty, Exhausted, LastRead, Due, ScanLimit, EarliestRow;
    DrainedHas(db, cid);
    ClaimReports(db, cid, max, now, lease, first, second);
    RunKept(db, first);
    DrainedForGood(db, first, cid);
    ReadMissing(db, cid);
    var locked := Run(db, first);
    if NothingDue(ReadConsumer(db, cid).value, now) {
      PreflightOfDrained(db, cid, max, now, lease, first, second);
    } else if cid in locked.core.consumers {
      DrainedClaim(locked, cid, max, now, lease);
      ClaimStepKept(locked, cid, max, now, now + lease);
      var after := Claim(locked, cid, max, now, now + lease).0;
      ExhaustedForGood(after, second, cid);
      EmptyRead(db, cid, max, now, lease, first, second);
    } else {
      GoneRead(db, cid, max, now, lease, first, second);
    }
  }

  lemma PreflightOfDrained(db: Db, cid: nat, max: nat, now: int, lease: int, first: seq<Op>, second: seq<Op>)
    requires Wf(db) && FullyDrained(db, cid) && ReadConsumer(db, cid).Some? && NothingDue(ReadConsumer(db, cid).value, now)
    ensures ClaimCall(db, cid, max, now, lease, first, second).1 == Ok(ClaimResult([], None, true))
    ensures LastRead(db, cid, max, now, lease, first, second) == db
  {
    hide Wf, Run, Claim, Minimum, VisibleAt, ScanLimit, Backlog, FullyDrained, Inbox, Visible, LaterVisible;
    DrainedHas(db, cid);
    DrainedInbox(db, cid);
    DueIsVisible(db.core.deliveries, cid, now);
  }

  lemma EmptyRead(db: Db, cid: nat, max: nat, now: int, lease: int, first: seq<Op>, second: seq<Op>)
    requires Wf(db) && ReadConsumer(db, cid).Some? && !NothingDue(ReadConsumer(db, cid).value, now) && now + lease <= Time.I64_MAX
    requires Claim(Run(db, first), cid, max, now, now + lease).1 == Ok([])
    requires var read := Run(Claim(Run(db, first), cid, max, now, now + lease).0, second); cid in read.core.consumers ==> Exhausted(read, cid)
    ensures var r, read := ClaimCall(db, cid, max, now, lease, first, second).1, LastRead(db, cid, max, now, lease, first, second);
      r == if cid in read.core.consumers then Ok(ClaimResult([], None, true)) else Err(ConsumerDeleted)
  {
    hide Wf, Run, Claim, Exhausted, ReadConsumer, NothingDue;
    var read := Run(Claim(Run(db, first), cid, max, now, now + lease).0, second);
    assert LastRead(db, cid, max, now, lease, first, second) == read;
    ReadMissing(read, cid);
    LastReadWf(db, cid, max, now, lease, first, second);
    CursorKeys(read);
    if cid in read.core.consumers {
      NothingToWaitFor(db, cid, max, now, lease, first, second);
    }
  }

  lemma GoneRead(db: Db, cid: nat, max: nat, now: int, lease: int, first: seq<Op>, second: seq<Op>)
    requires Wf(db) && cid in db.core.consumers && cid !in Run(db, first).core.consumers
    requires ReadConsumer(db, cid).Some? && !NothingDue(ReadConsumer(db, cid).value, now) && now + lease <= Time.I64_MAX
    ensures ClaimCall(db, cid, max, now, lease, first, second).1 == Err(ConsumerDeleted)
    ensures cid !in LastRead(db, cid, max, now, lease, first, second).core.consumers
  {
    hide Wf, Run, Claim, ReadConsumer, NothingDue;
    var locked := Run(db, first);
    RunKept(db, first);
    ConsumersBounded(db);
    SequenceGrows(db, first);
    ClaimDeleted(locked, cid, max, now, now + lease);
    GoneForGood(locked, second, cid);
  }
}
