/**
 Receipts across the cycles of a copy. A cycle runs from the copy's first delivery, or from a
 redrive, to its settlement. Within one, the latest claim's receipt is the only one in force;
 a redrive starts generations again, so receipts of earlier cycles can come back.
 */
module Cycles {
  import opened Prelude
  import opened Ranking
  import opened Schema
  import opened Transactions
  import opened Receipts
  import opened Runs
  import opened Invariants
  import opened Conservation
  import opened Leases
  import opened Claims
  import Fanout
  import Idempotency

  // ---- Single steps on one copy ---------------------------------------------------------

  lemma ArchiveOne(db: Db, r: Receipt, archivedAt: int)
    requires Wf(db) && Honoured(db, r)
    ensures var after := Step(db, ArchiveOp(r.consumer, [r], archivedAt, None)).0;
      && after.core.deliveries == db.core.deliveries - {SlotOf(r)}
      && db.core.archiveSeq + 1 in after.core.archives && after.core.archives[db.core.archiveSeq + 1].slot == SlotOf(r)
      && after.core.consumers == db.core.consumers
  {
    hide CoreOk, Hit, Sorted, MessagesOf, NextIds;
    HonouredIsHit(db, r.consumer, r);
    ArchiveAllowed(db.core, r.consumer, [r]);
    assert MessagesOf({SlotOf(r)}) == {r.message} by { OneMessage(SlotOf(r)); }
    OneSorted(r.message);
  }

  lemma OneMessage(s: Slot)
    ensures MessagesOf({s}) == {s.message}
  {
  }

  lemma OneSorted(m: nat)
    ensures Sorted({m}) == [m]
  {
    hide Sorted;
    var q := Sorted({m});
    assert |q| == 1 && q[0] in q;
  }

  lemma RedriveOne(db: Db, a: nat, visibleAt: int)
    requires Wf(db) && a in db.core.archives
    ensures var s := db.core.archives[a].slot;
      var after := Step(db, RedriveOp(s.consumer, [a], visibleAt)).0;
      && after.core.deliveries == db.core.deliveries[s := Lease(visibleAt, 0, 0)]
      && after.core.consumers == db.core.consumers
  {
    hide Wf, CoreOk, SlotsOf, Redriven, Redrive, CoreKept;
    var s := db.core.archives[a].slot;
    WfCore(db);
    RedriveRows(db.core, s.consumer, [a], visibleAt);
    Idempotency.CoreUntouched(db, RedriveOp(s.consumer, [a], visibleAt));
    OneRedriven(db.core, a);
    RowAdded(db.core.deliveries, s, visibleAt);
  }

  lemma RowAdded(rows: map<Slot, Lease>, s: Slot, visibleAt: int)
    ensures var slots := {s}; rows + (map t | t in slots :: Lease(visibleAt, 0, 0)) == rows[s := Lease(visibleAt, 0, 0)]
  {
  }

  lemma OneRedriven(core: Core, a: nat)
    requires a in core.archives
    ensures Redriven(core, core.archives[a].slot.consumer, [a]) == {a}
    ensures SlotsOf(core, {a}) == {core.archives[a].slot}
  {
  }

  /** A claim as large as the table takes every visible row of its consumer. */
  lemma AllVisibleTaken(core: Core, cid: nat, max: nat, now: int)
    requires |core.deliveries| <= max
    ensures Retries(core, cid, max, now) == Visible(core.deliveries, cid, now).Keys
  {
    var visible := Visible(core.deliveries, cid, now).Keys;
    var slots := set s | s in core.deliveries && s.consumer == cid;
    MessagesOfSize(cid, slots);
    assert forall m | m in visible :: Slot(cid, m) in slots;
    SubsetSize(visible, MessagesOf(slots));
    SubsetSize(slots, core.deliveries.Keys);
    SubsetSize(Retries(core, cid, max, now), visible);
  }

  lemma BumpedRow(deliveries: map<Slot, Lease>, s: Slot, retries: set<nat>, taken: set<nat>, deadline: int)
    requires s in deliveries && s.message in retries && s.message !in taken
    ensures var rows := LeaseRows(deliveries, s.consumer, retries, taken, deadline);
      s in rows && rows[s].generation == deliveries[s].generation + 1
  {
  }

  lemma NowVisible(deliveries: map<Slot, Lease>, s: Slot, now: int)
    requires s in deliveries && deliveries[s].visibleAt <= now
    ensures s.message in Visible(deliveries, s.consumer, now)
  {
  }

  lemma ClaimBumps(db: Db, s: Slot, max: nat, now: int, deadline: int)
    requires Wf(db) && s in db.core.deliveries && db.core.deliveries[s].visibleAt <= now && |db.core.deliveries| <= max
    ensures var after := Claim(db, s.consumer, max, now, deadline).0;
      s in after.core.deliveries && after.core.deliveries[s].generation == db.core.deliveries[s].generation + 1
  {
    hide Wf, Claim, Retries, Scan, LeaseRows, Visible;
    LiveConsumer(db, s);
    AllVisibleTaken(db.core, s.consumer, max, now);
    NowVisible(db.core.deliveries, s, now);
    var retries, taken, scan := ClaimIs(db, s.consumer, max, now, deadline);
    assert s == Slot(s.consumer, s.message);
    BumpedRow(db.core.deliveries, s, retries, taken, deadline);
  }

  lemma ClaimOne(db: Db, s: Slot, max: nat, now: int, lease: int)
    requires Wf(db) && s in db.core.deliveries && db.core.deliveries[s].visibleAt <= now && |db.core.deliveries| <= max
    ensures var after := Step(db, ClaimOp(s.consumer, max, now, lease)).0;
      s in after.core.deliveries && after.core.deliveries[s].generation == db.core.deliveries[s].generation + 1
  {
    hide Wf, Claim;
    ClaimBumps(db, s, max, now, now + lease);
  }

  lemma LiveConsumer(db: Db, s: Slot)
    requires Wf(db) && s in db.core.deliveries
    ensures s.consumer in db.core.consumers
  {
    assert SlotOk(db.core, s);
  }

  // ---- Within one cycle -----------------------------------------------------------------

  /** The caller of the step is handed a delivery with this receipt. */
  predicate Delivers(outcome: Outcome, r: Receipt) {
    && outcome.Claimed? && outcome.deliveries.Ok?
    && exists i | 0 <= i < |outcome.deliveries.value| :: outcome.deliveries.value[i].receipt == r
  }

  /** The receipt a step mints for the copy, if it is a claim that hands the copy out. */
  ghost function Mints(db: Db, op: Op, s: Slot): Option<Receipt> {
    var rows := Step(db, op).0.core.deliveries;
    if Hands(db, op, s) && s in rows then Some(ReceiptFor(rows, s)) else None
  }

  /** The receipts minted are exactly those delivered. */
  lemma MintsAreDelivered(db: Db, op: Op, r: Receipt)
    requires Wf(db)
    ensures Delivers(Step(db, op).1, r) <==> Mints(db, op, SlotOf(r)) == Some(r)
  {
    hide Wf, CoreStep, Claim, OpenConsumer, BeginDraining, PublishAll, Snapshot, DeleteConsumer, PruneMessages, Handed, Sorted;
    if op.ClaimOp? {
      ClaimMints(db, op, r);
    } else if OnCore(op) {
      NoDelivery(db, op, r);
    }
  }

  lemma NoDelivery(db: Db, op: Op, r: Receipt)
    requires OnCore(op)
    ensures !Delivers(Step(db, op).1, r)
  {
    hide Hit, NackChunks, ExtendChunks, Archive, Redrive, PurgeArchives, ListArchives;
  }

  lemma ClaimMints(db: Db, op: Op, r: Receipt)
    requires Wf(db) && op.ClaimOp?
    ensures Delivers(Step(db, op).1, r) <==> Mints(db, op, SlotOf(r)) == Some(r)
  {
    hide Wf, Claim, Handed, Sorted;
    if op.cid !in db.core.consumers {
      ClaimDeleted(db, op.cid, op.max, op.now, op.now + op.lease);
      NobodyHands(db, op);
    } else {
      ClaimHandsOut(db, op);
      SortedHolds(Handed(db, op));
      var claimed, order := Claim(db, op.cid, op.max, op.now, op.now + op.lease).1.value, Sorted(Handed(db, op));
      if Hands(db, op, SlotOf(r)) {
        var i :| 0 <= i < |order| && order[i] == r.message;
        assert claimed[i].id == r.message;
      }
      forall i | 0 <= i < |claimed| && claimed[i].receipt == r ensures Hands(db, op, SlotOf(r)) {
        assert order[i] in order;
      }
    }
  }

  lemma NobodyHands(db: Db, op: Op)
    requires op.ClaimOp? && op.cid !in db.core.consumers
    ensures Handed(db, op) == {}
  {
    hide Retries, Scan;
  }

  /** Some claim of the run delivered the receipt. */
  ghost predicate MintedIn(db: Db, ops: seq<Op>, r: Receipt)
    decreases |ops|
  {
    ops != [] && (Delivers(Step(db, ops[0]).1, r) || MintedIn(Step(db, ops[0]).0, ops[1..], r))
  }

  /**
   The receipt in force for the copy after a run: the latest claim's, unless something has
   released, settled or archived the copy since.
   */
  ghost function InForce(db: Db, ops: seq<Op>, s: Slot, held: Option<Receipt>): Option<Receipt>
    decreases |ops|
  {
    if ops == [] then held else InForce(Step(db, ops[0]).0, ops[1..], s, HeldAfter(db, ops[0], s, held))
  }

  ghost function HeldAfter(db: Db, op: Op, s: Slot, held: Option<Receipt>): Option<Receipt> {
    if Mints(db, op, s).Some? then Mints(db, op, s) else if Touches(db, op, s) then None else held
  }

  ghost function MintedAfter(db: Db, op: Op, s: Slot, minted: set<Receipt>): set<Receipt> {
    minted + (if Mints(db, op, s).Some? then {Mints(db, op, s).value} else {})
  }

  /** A minted receipt is the one in force or stale for the rest of the cycle. */
  ghost predicate CycleOk(db: Db, s: Slot, held: Option<Receipt>, minted: set<Receipt>) {
    && (forall r | r in minted :: SlotOf(r) == s && (if held == Some(r) then Honoured(db, r) else Stale(db, r)))
    && (held.Some? ==> held.value in minted)
  }

  lemma StepCycle(db: Db, op: Op, s: Slot, held: Option<Receipt>, minted: set<Receipt>)
    requires Wf(db) && CycleOk(db, s, held, minted) && !Redrives(db, op, s)
    ensures CycleOk(Step(db, op).0, s, HeldAfter(db, op, s, held), MintedAfter(db, op, s, minted))
  {
    hide Wf, Step, Hands, Honoured, Stale, Touches, Redrives;
    forall r | r in minted
      ensures if HeldAfter(db, op, s, held) == Some(r) then Honoured(Step(db, op).0, r) else Stale(Step(db, op).0, r)
    {
      MintedStep(db, op, s, held, r);
    }
    if Mints(db, op, s).Some? {
      MintedHonoured(db, op, s);
    }
  }

  lemma MintedHonoured(db: Db, op: Op, s: Slot)
    requires Mints(db, op, s).Some?
    ensures SlotOf(Mints(db, op, s).value) == s && Honoured(Step(db, op).0, Mints(db, op, s).value)
  {
    hide Step, Hands;
  }

  lemma MintedStep(db: Db, op: Op, s: Slot, held: Option<Receipt>, r: Receipt)
    requires Wf(db) && !Redrives(db, op, s) && SlotOf(r) == s
    requires if held == Some(r) then Honoured(db, r) else Stale(db, r)
    ensures if HeldAfter(db, op, s, held) == Some(r) then Honoured(Step(db, op).0, r) else Stale(Step(db, op).0, r)
  {
    hide Wf, Step, Hands, Honoured, Stale, Touches, Redrives;
    if held == Some(r) {
      StepHonoured(db, op, r);
      HonouredLive(db, r);
      if Hands(db, op, s) {
        HandedTouches(db, op, s);
        StaleRefused(Step(db, op).0, r);
      }
    } else {
      StepStale(db, op, r);
      StaleRefused(Step(db, op).0, r);
    }
    if Mints(db, op, s).Some? {
      MintedHonoured(db, op, s);
    }
  }

  lemma HonouredLive(db: Db, r: Receipt)
    requires Honoured(db, r)
    ensures SlotOf(r) in db.core.deliveries
  {
  }

  lemma {:induction false} RunCycle(db: Db, ops: seq<Op>, s: Slot, held: Option<Receipt>, minted: set<Receipt>)
    requires Wf(db) && CycleOk(db, s, held, minted) && !EverRedriven(db, ops, s)
    ensures forall r | SlotOf(r) == s && (r in minted || MintedIn(db, ops, r)) ::
      if InForce(db, ops, s, held) == Some(r) then Honoured(Run(db, ops), r) else Stale(Run(db, ops), r)
    ensures var h := InForce(db, ops, s, held);
      h.Some? ==> SlotOf(h.value) == s && (h.value in minted || MintedIn(db, ops, h.value))
    decreases |ops|
  {
    hide Wf, Step, Honoured, Stale, Touches, Redrives, Delivers, Mints;
    if ops != [] {
      var next := Step(db, ops[0]).0;
      StepCycle(db, ops[0], s, held, minted);
      StepKept(db, ops[0]);
      RunCycle(next, ops[1..], s, HeldAfter(db, ops[0], s, held), MintedAfter(db, ops[0], s, minted));
      forall r | SlotOf(r) == s ensures Delivers(Step(db, ops[0]).1, r) <==> Mints(db, ops[0], s) == Some(r) {
        MintsAreDelivered(db, ops[0], r);
      }
    }
  }

  /**
   Of all the receipts claims delivered for a copy during a cycle, at most one matches its row:
   the latest, and only while nothing has nacked, settled or archived the copy since.
   */
  lemma OneReceiptInForce(db: Db, ops: seq<Op>, s: Slot)
    requires Wf(db) && !EverRedriven(db, ops, s)
    ensures forall r | SlotOf(r) == s && MintedIn(db, ops, r) :: Honoured(Run(db, ops), r) <==> InForce(db, ops, s, None) == Some(r)
    ensures InForce(db, ops, s, None).Some? ==> SlotOf(InForce(db, ops, s, None).value) == s && MintedIn(db, ops, InForce(db, ops, s, None).value)
  {
    hide Wf, Run, InForce, MintedIn, Honoured, Stale, EverRedriven;
    RunCycle(db, ops, s, None, {});
    forall r | Stale(Run(db, ops), r) ensures !Honoured(Run(db, ops), r) {
      StaleRefused(Run(db, ops), r);
    }
  }

  lemma {:induction false} InForceAppend(db: Db, first: seq<Op>, second: seq<Op>, s: Slot, held: Option<Receipt>)
    ensures InForce(db, first + second, s, held) == InForce(Run(db, first), second, s, InForce(db, first, s, held))
    decreases |first|
  {
    hide Step, HeldAfter;
    if first == [] {
      assert first + second == second;
    } else {
      assert (first + second)[1..] == first[1..] + second;
      InForceAppend(Step(db, first[0]).0, first[1..], second, s, HeldAfter(db, first[0], s, held));
    }
  }

  /** No claim of the run hands the copy out. */
  predicate NeverHanded(db: Db, ops: seq<Op>, s: Slot)
    decreases |ops|
  {
    ops == [] || (!Hands(db, ops[0], s) && NeverHanded(Step(db, ops[0]).0, ops[1..], s))
  }

  lemma {:induction false} NoneInForce(db: Db, ops: seq<Op>, s: Slot)
    requires NeverHanded(db, ops, s)
    ensures InForce(db, ops, s, None) == None
    decreases |ops|
  {
    hide Step, Hands, Touches;
    if ops != [] {
      NoneInForce(Step(db, ops[0]).0, ops[1..], s);
    }
  }

  /** After a nack that hit the copy no receipt of the cycle matches, until the next claim of it. */
  lemma NackEndsThemAll(db: Db, before: seq<Op>, nack: Op, since: seq<Op>, r: Receipt)
    requires nack.NackOp? && Touches(Run(db, before), nack, SlotOf(r)) && NeverHanded(Step(Run(db, before), nack).0, since, SlotOf(r))
    requires Wf(db) && !EverRedriven(db, before + [nack] + since, SlotOf(r)) && MintedIn(db, before + [nack] + since, r)
    ensures !Honoured(Run(db, before + [nack] + since), r)
  {
    hide Wf, Run, Step, Honoured, Touches, EverRedriven, MintedIn, Hands, InForce;
    var s := SlotOf(r);
    OneReceiptInForce(db, before + [nack] + since, s);
    InForceAppend(db, before + [nack], since, s, None);
    InForceAppend(db, before, [nack], s, None);
    RunThenOne(db, before, nack);
    OneInForce(Run(db, before), nack, s, InForce(db, before, s, None));
    NackHandsNothing(Run(db, before), nack, s);
    NoneInForce(Step(Run(db, before), nack).0, since, s);
  }

  lemma {:induction false} RunThenOne(db: Db, before: seq<Op>, op: Op)
    ensures Run(db, before + [op]) == Step(Run(db, before), op).0
    decreases |before|
  {
    hide Step;
    if before == [] {
      assert before + [op] == [op] && [op][1..] == [];
    } else {
      assert (before + [op])[1..] == before[1..] + [op];
      RunThenOne(Step(db, before[0]).0, before[1..], op);
    }
  }

  lemma OneInForce(db: Db, op: Op, s: Slot, held: Option<Receipt>)
    ensures InForce(db, [op], s, held) == HeldAfter(db, op, s, held)
  {
    hide Step, HeldAfter;
    assert [op][1..] == [];
  }

  lemma NackHandsNothing(db: Db, op: Op, s: Slot)
    requires op.NackOp?
    ensures Mints(db, op, s) == None
  {
    hide Step;
  }

  // ---- When a receipt can come back -----------------------------------------------------

  /** Claims by nobody in particular, one after the other, until the copy's generation is up by `times`. */
  lemma {:induction false} ClaimedUp(db: Db, s: Slot, t: int, times: nat) returns (ops: seq<Op>)
    requires Wf(db) && s in db.core.deliveries && db.core.deliveries[s].visibleAt <= t
    ensures var after := Run(db, ops).core.deliveries;
      s in after && after[s].generation == db.core.deliveries[s].generation + times
    decreases times
  {
    hide Wf, Step;
    ops := [];
    if times > 0 {
      var op := ClaimOp(s.consumer, |db.core.deliveries|, t, 1);
      ClaimOne(db, s, |db.core.deliveries|, t, 1);
      ClaimedUntil(db, s, |db.core.deliveries|, t, 1);
      StepKept(db, op);
      var more := ClaimedUp(Step(db, op).0, s, t + 1, times - 1);
      ops := [op] + more;
      assert ops[1..] == more;
    }
  }

  lemma ClaimedUntil(db: Db, s: Slot, max: nat, now: int, lease: int)
    requires Wf(db) && s in db.core.deliveries && db.core.deliveries[s].visibleAt <= now && |db.core.deliveries| <= max
    ensures var after := Step(db, ClaimOp(s.consumer, max, now, lease)).0;
      s in after.core.deliveries && after.core.deliveries[s].visibleAt == now + lease
  {
    hide Wf, Step, Handed, Touches;
    var op := ClaimOp(s.consumer, max, now, lease);
    ClaimOne(db, s, max, now, lease);
    LiveTouched(db, s, max, now, lease);
    StepRow(db, op, s);
  }

  lemma LiveTouched(db: Db, s: Slot, max: nat, now: int, lease: int)
    requires Wf(db) && s in db.core.deliveries && db.core.deliveries[s].visibleAt <= now && |db.core.deliveries| <= max
    ensures Touches(db, ClaimOp(s.consumer, max, now, lease), s)
  {
    hide Wf, Retries, Visible;
    LiveConsumer(db, s);
    AllVisibleTaken(db.core, s.consumer, max, now);
    NowVisible(db.core.deliveries, s, now);
  }

  /** From the archive: redrive the copy and claim it as often as the receipt's generation says. */
  lemma RevivedFromArchive(db: Db, r: Receipt) returns (ops: seq<Op>)
    requires Wf(db) && Archived(db.core.archives, SlotOf(r))
    ensures Honoured(Run(db, ops), r)
  {
    hide Wf, Step;
    var a :| a in db.core.archives && db.core.archives[a].slot == SlotOf(r);
    var op := RedriveOp(r.consumer, [a], 0);
    RedriveOne(db, a, 0);
    StepKept(db, op);
    var more := ClaimedUp(Step(db, op).0, SlotOf(r), 0, r.generation);
    ops := [op] + more;
    assert ops[1..] == more;
  }

  /** From a live row of any generation: archive it with its receipt in force first. */
  lemma RevivedFromRow(db: Db, r: Receipt) returns (ops: seq<Op>)
    requires Wf(db) && SlotOf(r) in db.core.deliveries
    ensures Honoured(Run(db, ops), r)
  {
    hide Wf, Step, Run;
    var current := ReceiptFor(db.core.deliveries, SlotOf(r));
    var op := ArchiveOp(r.consumer, [current], 0, None);
    ArchiveOne(db, current, 0);
    StepKept(db, op);
    assert Archived(Step(db, op).0.core.archives, SlotOf(r));
    var more := RevivedFromArchive(Step(db, op).0, r);
    ops := [op] + more;
    RunFirst(db, op, more);
  }

  lemma RunFirst(db: Db, op: Op, more: seq<Op>)
    ensures Run(db, [op] + more) == Run(Step(db, op).0, more)
  {
    hide Step;
    assert ([op] + more)[1..] == more;
  }

  /** A copy the scan is past, neither live nor archived, is gone for good. */
  ghost predicate Settled(db: Db, s: Slot) {
    Passed(db, s) && s !in db.core.deliveries && !Archived(db.core.archives, s)
  }

  lemma StepSettled(db: Db, op: Op, s: Slot)
    requires Wf(db) && Settled(db, s)
    ensures Settled(Step(db, op).0, s)
  {
    hide Wf, Step, Passed, Onward, Redrives, Archived;
    StepOnward(db, op);
    OnwardPassed(db, Step(db, op).0, s);
    StepAbsent(db, op, s);
    if Redrives(db, op, s) {
      RedrivesArchived(db, op, s);
    }
    NothingReleased(db, op, s);
    StepUnarchived(db, op, s);
  }

  lemma NothingReleased(db: Db, op: Op, s: Slot)
    requires s !in db.core.deliveries
    ensures !Releases(db, op, s)
  {
  }

  lemma {:induction false} SettledForGood(db: Db, ops: seq<Op>, s: Slot)
    requires Wf(db) && Settled(db, s)
    ensures Settled(Run(db, ops), s)
    decreases |ops|
  {
    hide Wf, Step, Settled;
    if ops != [] {
      StepSettled(db, ops[0], s);
      StepKept(db, ops[0]);
      SettledForGood(Step(db, ops[0]).0, ops[1..], s);
    }
  }

  /**
   Exactly when a receipt can still come to be honoured, whatever its generation and however
   stale it is: while its copy is live or archived. A receipt of a scanned copy is refused for
   good if and only if the copy is neither.
   */
  lemma ReceiptsComeBackExactly(db: Db, r: Receipt)
    requires Wf(db) && Passed(db, SlotOf(r))
    ensures (exists ops :: Honoured(Run(db, ops), r)) <==> SlotOf(r) in db.core.deliveries || Archived(db.core.archives, SlotOf(r))
  {
    hide Wf, Run, Honoured, Passed, Archived;
    if SlotOf(r) in db.core.deliveries {
      var ops := RevivedFromRow(db, r);
    } else if Archived(db.core.archives, SlotOf(r)) {
      var ops := RevivedFromArchive(db, r);
    } else {
      forall ops ensures !Honoured(Run(db, ops), r) {
        SettledForGood(db, ops, SlotOf(r));
        AbsentRefused(Run(db, ops), r);
      }
    }
  }

  lemma AbsentRefused(db: Db, r: Receipt)
    requires SlotOf(r) !in db.core.deliveries
    ensures !Honoured(db, r)
  {
  }
}
