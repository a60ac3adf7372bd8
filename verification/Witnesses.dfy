/**
 Runs from the empty store that reach the inputs on which the program differs from what is said
 of it: batches whose chunks interfere, an acknowledgement nobody is told of, and a deadline that
 passes before a sleep is computed.
 */
module Witnesses {
  import opened Prelude
  import opened Ranking
  import opened Schema
  import opened Transactions
  import opened Receipts
  import opened Runs
  import opened Invariants
  import opened Leases
  import opened Claims
  import opened Cycles
  import opened Wakeups
  import opened Time
  import opened LazyIsEager
  import Draining
  import Fanout
  import Idempotency

  // ---- One worker with two receipts of a copy -------------------------------------------

  const WORKER := "worker"
  const COPY := Slot(1, 1)
  const FIRST := Receipt(1, 1, 1)
  const SECOND := Receipt(1, 1, 2)

  /** A consumer and one message for it. */
  const STARTED := Db(
    EMPTY_CORE.(messages := map[1 := Message(None, [], 0)], messageSeq := 1,
                consumers := map[1 := ConsumerRow(WORKER, None, 0, None)], consumerSeq := 1),
    map[1 := Cursor(0, None)])

  const STARTING: seq<Op> := [OpenOp(WORKER, None, 0), PublishOp([Publish(None, [], None)], 0, 1)]

  /** A first lease runs out, a second is archived away and redriven, and a third is handed out. */
  const WORKING: seq<Op> := [
    ClaimOp(1, 1, 0, 1), ClaimOp(1, 1, 1, 1), ArchiveOp(1, [SECOND], 1, None), RedriveOp(1, [1], 1), ClaimOp(1, 1, 1, 1)]

  lemma Opened(db: Db)
    requires db == EMPTY_DB
    ensures OpenConsumer(db, WORKER, None, 0).0 == Db(EMPTY_CORE.(consumers := map[1 := ConsumerRow(WORKER, None, 0, None)], consumerSeq := 1), map[1 := Cursor(0, None)])
  {
    assert Named(EMPTY_CORE, WORKER) == {};
    assert EMPTY_CORE.messages.Keys == {};
  }

  lemma PublishedOne(db: Db)
    requires db == Db(EMPTY_CORE.(consumers := map[1 := ConsumerRow(WORKER, None, 0, None)], consumerSeq := 1), map[1 := Cursor(0, None)])
    ensures Db(PublishAll(db.core, [Publish(None, [], None)], 0, 1).0, db.cursors) == STARTED
  {
    hide PublishAll;
    Idempotency.PublishAllOne(db.core, Publish(None, [], None), 0, 1);
    assert db.core.messages[1 := Message(None, [], 0)] == map[1 := Message(None, [], 0)];
  }

  lemma Started()
    ensures Run(EMPTY_DB, STARTING) == STARTED && Wf(STARTED)
  {
    hide PublishAll, OpenConsumer, Wf, EMPTY_CORE;
    ReachableWf(STARTING);
    Opened(EMPTY_DB);
    var joined := Step(EMPTY_DB, STARTING[0]).0;
    PublishedOne(joined);
    var rest := STARTING[1..];
    assert rest == [PublishOp([Publish(None, [], None)], 0, 1)];
    assert Step(joined, rest[0]).0 == STARTED;
    assert Run(joined, rest) == Run(STARTED, rest[1..]) == STARTED;
    assert Run(EMPTY_DB, STARTING) == Run(joined, rest);
  }

  /** One consumer and one message: there is one copy at most. */
  ghost predicate Small(db: Db) {
    Wf(db) && db.core.consumers.Keys == {1} && db.core.messages.Keys == {1}
  }

  lemma SmallRows(db: Db)
    requires Small(db)
    ensures |db.core.deliveries| <= 1
  {
    forall s | s in db.core.deliveries ensures s == COPY {
      assert SlotOk(db.core, s);
    }
    SubsetSize(db.core.deliveries.Keys, {COPY});
  }

  /** Claims, archives and redrives leave the log and the consumers alone. */
  lemma StaysSmall(db: Db, op: Op)
    requires Small(db) && (op.ClaimOp? || op.ArchiveOp? || op.RedriveOp?)
    ensures Small(Step(db, op).0)
  {
    hide Wf, CoreStep, Claim, Retries, Scan, LeaseRows;
    StepKept(db, op);
    if op.ClaimOp? {
      if op.cid in db.core.consumers {
        var retries, taken, scan := ClaimIs(db, op.cid, op.max, op.now, op.now + op.lease);
      } else {
        ClaimDeleted(db, op.cid, op.max, op.now, op.now + op.lease);
      }
    } else {
      Idempotency.CoreUntouched(db, op);
    }
  }

  /** The first claim scans the message. */
  lemma FirstClaim()
    ensures var op := WORKING[0]; var after := Step(STARTED, op).0;
      && Small(after) && COPY in after.core.deliveries && after.core.deliveries[COPY] == Lease(1, 1, 1)
      && Delivers(Step(STARTED, op).1, FIRST)
      && after.core.archiveSeq == 0
  {
    hide Wf, Step, Delivers, Handed;
    Started();
    var op := WORKING[0];
    StaysSmall(STARTED, op);
    ScansTheMessage(op);
    HandedFirst(STARTED, op, COPY);
    MintsAreDelivered(STARTED, op, FIRST);
    ClaimKeepsArchives(STARTED, op);
  }

  lemma NothingToRetry()
    ensures Retries(STARTED.core, 1, 1, 0) == {}
  {
    RetriesVisible(STARTED.core, 1, 1, 0);
  }

  lemma OneToScan()
    ensures Fanout.Backlog(STARTED, 1) == {1}
  {
  }

  lemma LowestOfOne()
    ensures Lowest({1}, 1) == {1}
  {
    hide Lowest;
    SubsetSize(Lowest({1}, 1), {1});
  }

  lemma ScansTheMessage(op: Op)
    requires op == WORKING[0] && Wf(STARTED)
    ensures Hands(STARTED, op, COPY)
  {
    hide Wf, Lowest, Handed, Retries, Fanout.Backlog;
    HandedIs(STARTED, op);
    NothingToRetry();
    OneToScan();
    LowestOfOne();
  }

  lemma ClaimKeepsArchives(db: Db, op: Op)
    requires Wf(db) && op.ClaimOp?
    ensures Step(db, op).0.core.archives == db.core.archives && Step(db, op).0.core.archiveSeq == db.core.archiveSeq
  {
    hide Wf, Claim, Retries, Scan, LeaseRows;
    if op.cid in db.core.consumers {
      var retries, taken, scan := ClaimIs(db, op.cid, op.max, op.now, op.now + op.lease);
    } else {
      ClaimDeleted(db, op.cid, op.max, op.now, op.now + op.lease);
    }
  }

  /** A claim of the visible copy raises its generation and delivers the receipt. */
  lemma ClaimAgain(db: Db, op: Op)
    requires Small(db) && op == ClaimOp(1, 1, 1, 1) && COPY in db.core.deliveries && db.core.deliveries[COPY].visibleAt <= 1
    ensures var after := Step(db, op).0; var r := Receipt(1, 1, db.core.deliveries[COPY].generation + 1);
      Small(after) && Honoured(after, r) && Delivers(Step(db, op).1, r) && after.core.archiveSeq == db.core.archiveSeq
  {
    hide Wf, Step, Delivers, Touches, Handed;
    SmallRows(db);
    StaysSmall(db, op);
    ClaimOne(db, COPY, 1, 1, 1);
    LiveTouched(db, COPY, 1, 1, 1);
    TouchedHanded(db, op, COPY);
    ClaimKeepsArchives(db, op);
    MintsAreDelivered(db, op, Receipt(1, 1, db.core.deliveries[COPY].generation + 1));
  }

  lemma ArchiveAndRedrive(db: Db)
    requires Small(db) && Honoured(db, SECOND) && db.core.archiveSeq == 0
    ensures var archived := Step(db, WORKING[2]).0; var after := Step(archived, WORKING[3]).0;
      Small(after) && COPY in after.core.deliveries && after.core.deliveries[COPY] == Lease(1, 0, 0)
  {
    hide Wf, Step, Honoured;
    ArchiveOne(db, SECOND, 1);
    StaysSmall(db, WORKING[2]);
    var archived := Step(db, WORKING[2]).0;
    RedriveOne(archived, 1, 1);
    StaysSmall(archived, WORKING[3]);
  }

  /**
   A run from the empty store after which one worker has been handed two receipts of one copy,
   of successive generations, and the copy's row stands at the earlier one.
   */
  lemma SuccessiveReceiptsHeld()
    ensures var db, outcomes := Run(EMPTY_DB, STARTING + WORKING), Outcomes(STARTED, WORKING);
      && Run(EMPTY_DB, STARTING) == STARTED && Run(STARTED, WORKING) == db
      && Delivers(outcomes[0], FIRST) && Delivers(outcomes[1], SECOND) && SECOND == Successor(FIRST)
      && Wf(db) && Honoured(db, FIRST)
  {
    hide Wf, Step, Delivers, Honoured, Small;
    Started();
    RunInTwo(EMPTY_DB, STARTING, WORKING);
    FirstClaim();
    var a := Step(STARTED, WORKING[0]).0;
    ClaimAgain(a, WORKING[1]);
    var b := Step(a, WORKING[1]).0;
    ArchiveAndRedrive(b);
    var c := Step(Step(b, WORKING[2]).0, WORKING[3]).0;
    ClaimAgain(c, WORKING[4]);
    RunFive(STARTED, WORKING);
    RunKept(STARTED, WORKING);
  }

  lemma {:induction false} RunInTwo(db: Db, first: seq<Op>, second: seq<Op>)
    ensures Run(db, first + second) == Run(Run(db, first), second)
    decreases |first|
  {
    hide Step;
    if first == [] {
      assert first + second == second;
    } else {
      assert (first + second)[1..] == first[1..] + second;
      RunInTwo(Step(db, first[0]).0, first[1..], second);
    }
  }

  lemma RunFive(db: Db, ops: seq<Op>)
    requires |ops| == 5
    ensures var a := Step(db, ops[0]).0; var b := Step(a, ops[1]).0; var c := Step(Step(b, ops[2]).0, ops[3]).0;
      Run(db, ops) == Step(c, ops[4]).0
    ensures Outcomes(db, ops)[0] == Step(db, ops[0]).1 && Outcomes(db, ops)[1] == Step(Step(db, ops[0]).0, ops[1]).1
  {
    hide Step;
    var a := Step(db, ops[0]).0;
    var b := Step(a, ops[1]).0;
    var m := Step(b, ops[2]).0;
    var c := Step(m, ops[3]).0;
    assert Run(a, ops[1..]) == Run(b, ops[1..][1..]);
    assert Run(b, ops[1..][1..]) == Run(m, ops[1..][1..][1..]);
    assert Run(m, ops[1..][1..][1..]) == Run(c, ops[1..][1..][1..][1..]);
    assert Run(c, ops[1..][1..][1..][1..]) == Run(Step(c, ops[4]).0, ops[1..][1..][1..][1..][1..]);
  }

  /** A full chunk of the first receipt, and the second one after it. */
  function TwoChunks(): seq<Receipt> {
    seq(RECEIPTS_PER_CHUNK, i => FIRST) + [SECOND]
  }

  lemma SecondComesLater()
    ensures InLaterChunk(FIRST, Successor(FIRST), TwoChunks(), RECEIPTS_PER_CHUNK)
    ensures |TwoChunks()| == 333
  {
    var batch := TwoChunks();
    assert batch[..RECEIPTS_PER_CHUNK][0] == FIRST && batch[RECEIPTS_PER_CHUNK..][0] == SECOND;
  }

  lemma BumpedTwice(db: Db, visibleAt: int)
    requires Honoured(db, FIRST)
    ensures var chunked, whole := Step(db, NackOp(1, TwoChunks(), visibleAt)).0.core.deliveries, NackWhole(db.core.deliveries, 1, TwoChunks(), visibleAt).0;
      && COPY in chunked && chunked[COPY].generation >= 3
      && COPY in whole && whole[COPY].generation == 2
  {
    hide NackChunks, TwoChunks, NackWhole, Hit;
    SecondComesLater();
    NackBumpsTwice(db.core.deliveries, FIRST, TwoChunks(), visibleAt, RECEIPTS_PER_CHUNK);
    BumpedOnce(db.core.deliveries, visibleAt);
  }

  lemma BumpedOnce(rows: map<Slot, Lease>, visibleAt: int)
    requires COPY in rows && ReceiptFor(rows, COPY) == FIRST
    ensures var whole := NackWhole(rows, 1, TwoChunks(), visibleAt).0; COPY in whole && whole[COPY].generation == 2
  {
    hide TwoChunks;
    SecondComesLater();
    InLaterChunkHolds(FIRST, SECOND, TwoChunks(), RECEIPTS_PER_CHUNK);
    assert COPY in Hit(rows, 1, TwoChunks());
  }

  /** That worker nacks both in one batch of 333: one statement would bump the row once, the chunks bump it twice. */
  lemma ANackBatchBumpsTwice(visibleAt: int)
    ensures var db := Run(EMPTY_DB, STARTING + WORKING);
      var chunked, whole := Step(db, NackOp(1, TwoChunks(), visibleAt)).0.core.deliveries, NackWhole(db.core.deliveries, 1, TwoChunks(), visibleAt).0;
      && COPY in chunked && chunked[COPY].generation >= 3
      && COPY in whole && whole[COPY].generation == 2
  {
    hide Wf, Run, Step, Outcomes, NackWhole, TwoChunks, Delivers, Honoured, STARTING, WORKING;
    SuccessiveReceiptsHeld();
    BumpedTwice(Run(EMPTY_DB, STARTING + WORKING), visibleAt);
  }

  // ---- One receipt in two chunks of an extension ----------------------------------------

  /** One receipt more than a statement can hold, all the same. */
  function Repeated(): seq<Receipt> {
    seq(RECEIPTS_PER_CHUNK + 1, i => FIRST)
  }

  lemma RepeatedLater()
    ensures InLaterChunk(FIRST, FIRST, Repeated(), RECEIPTS_PER_CHUNK)
    ensures FIRST in Repeated() && |Repeated()| == 333
  {
    var batch := Repeated();
    assert batch[..RECEIPTS_PER_CHUNK][0] == FIRST && batch[RECEIPTS_PER_CHUNK..][0] == FIRST && batch[0] == FIRST;
  }

  lemma OneHit(rows: map<Slot, Lease>)
    requires COPY in rows && ReceiptFor(rows, COPY) == FIRST
    ensures Hit(rows, 1, Repeated()) == {COPY}
  {
    RepeatedLater();
    forall s | s in Hit(rows, 1, Repeated()) ensures s == COPY {
      assert ReceiptFor(rows, s) == FIRST;
    }
  }

  lemma CountedTwice(db: Db, visibleAt: int)
    requires Honoured(db, FIRST)
    ensures Extend(db.core, 1, Repeated(), visibleAt).1.applied >= 2
    ensures ExtendWhole(db.core.deliveries, 1, Repeated(), visibleAt).1 == 1
  {
    hide ExtendChunks, Repeated, Hit;
    RepeatedLater();
    OneHit(db.core.deliveries);
    ExtendCountsTwice(db.core.deliveries, FIRST, Repeated(), visibleAt, RECEIPTS_PER_CHUNK);
  }

  /**
   A worker extends the one delivery it was handed in a batch of 333: two receipts are reported
   as applied, where one statement would report one row.
   */
  lemma AnExtensionCountsTwice(visibleAt: int)
    ensures var (db, outcome) := Step(STARTED, WORKING[0]); var extended := Step(db, ExtendOp(1, Repeated(), visibleAt)).1;
      && Run(EMPTY_DB, STARTING) == STARTED && Delivers(outcome, FIRST)
      && extended.Settled? && extended.settled.applied >= 2
      && ExtendWhole(db.core.deliveries, 1, Repeated(), visibleAt).1 == 1
  {
    hide Extend, ExtendWhole, Repeated, Delivers, Small, Run, Claim;
    Started();
    FirstClaim();
    CountedTwice(Step(STARTED, WORKING[0]).0, visibleAt);
  }

  // ---- An acknowledgement nobody is told of ---------------------------------------------

  /** The message is handed out, the consumer is drained, and the worker acknowledges. */
  const FINISHING: seq<Op> := [ClaimOp(1, 1, 0, 1), DrainOp(1, 1), AckOp(1, [FIRST])]

  lemma AllScanned()
    ensures var after := Step(STARTED, FINISHING[0]).0;
      1 in after.core.consumers && 1 in after.cursors && Fanout.Backlog(after, 1) == {}
  {
    hide Wf, Step, Retries, Fanout.Backlog, STARTED;
    Started();
    WorkerIsThere();
    NothingToRetry();
    OneToScan();
    ScansTheRest(STARTED, FINISHING[0]);
  }

  lemma WorkerIsThere()
    ensures 1 in STARTED.core.consumers && 1 in STARTED.cursors
  {
  }

  /** A claim of one, with nothing to retry and one message to scan, leaves nothing to scan. */
  lemma ScansTheRest(db: Db, op: Op)
    requires Wf(db) && op.ClaimOp? && op.max == 1 && op.cid in db.core.consumers && op.cid in db.cursors
    requires Retries(db.core, op.cid, 1, op.now) == {} && Fanout.Backlog(db, op.cid) == {1}
    ensures var after := Step(db, op).0; op.cid in after.core.consumers && op.cid in after.cursors && Fanout.Backlog(after, op.cid) == {}
  {
    hide Wf, Claim, LeaseOut, LeaseRows, Retries, Scan, Lowest, Fanout.Backlog;
    LowestOfOne();
    ClaimBacklog(db, op.cid, op.max, op.now, op.now + op.lease);
  }

  /** Draining bounds the log that is left to scan, here nothing. */
  lemma DrainLeaves(db: Db, now: int)
    requires Wf(db) && 1 in db.core.consumers && 1 in db.cursors && Fanout.Backlog(db, 1) == {} && db.core.consumers[1].drainingAt.None?
    ensures var after := Step(db, DrainOp(1, now)).0;
      && 1 in after.core.consumers && 1 in after.cursors && after.core.consumers[1].drainingAt.Some?
      && Fanout.Backlog(after, 1) == {} && after.core.deliveries == db.core.deliveries
  {
    hide HighWater;
    var after := Step(db, DrainOp(1, now)).0;
    forall m ensures m !in Fanout.Backlog(after, 1) {
      assert m !in Fanout.Backlog(db, 1);
    }
  }

  lemma LastAck(db: Db)
    requires Small(db) && Honoured(db, FIRST) && 1 in db.cursors && db.core.consumers[1].drainingAt.Some? && Fanout.Backlog(db, 1) == {}
    ensures !FullyDrained(db, 1) && FullyDrained(Step(db, FINISHING[2]).0, 1)
  {
    hide Wf, Hit, Step, Fanout.Backlog, FullyDrained;
    var after := Step(db, FINISHING[2]).0;
    Draining.AckStep(db, 1, [FIRST]);
    HonouredIsHit(db, 1, FIRST);
    forall s ensures s !in after.core.deliveries {
      OnlyCopy(db, s);
    }
    SameBacklog(db, after);
    StillDrained(after, 1);
    if FullyDrained(db, 1) {
      DrainedHas(db, 1);
    }
  }

  lemma OnlyCopy(db: Db, s: Slot)
    requires Small(db)
    ensures s in db.core.deliveries ==> s == COPY
  {
    if s in db.core.deliveries {
      assert SlotOk(db.core, s);
    }
  }

  lemma SameBacklog(db: Db, after: Db)
    requires 1 in db.core.consumers && 1 in db.cursors
    requires after.core.messages == db.core.messages && after.core.consumers == db.core.consumers && after.cursors == db.cursors
    ensures Fanout.Backlog(after, 1) == Fanout.Backlog(db, 1)
  {
  }

  lemma HandedOut()
    ensures var db := Step(STARTED, FINISHING[0]).0;
      && Small(db) && Honoured(db, FIRST) && Delivers(Step(STARTED, FINISHING[0]).1, FIRST)
      && 1 in db.core.consumers && 1 in db.cursors && Fanout.Backlog(db, 1) == {} && db.core.consumers[1].drainingAt.None?
  {
    hide Wf, Step, Delivers, Fanout.Backlog;
    FirstClaim();
    AllScanned();
    StillActive();
  }

  lemma StillActive()
    ensures Step(STARTED, FINISHING[0]).0.core.consumers == STARTED.core.consumers
  {
    hide Wf, Claim;
    Started();
    ClaimKeepsRows(STARTED, 1, 1, 0, 1);
  }

  lemma DrainsSmall(db: Db)
    requires Small(db)
    ensures Small(Step(db, FINISHING[1]).0)
  {
    hide Wf, HighWater;
    StepKept(db, FINISHING[1]);
  }

  lemma RunTwo(db: Db, ops: seq<Op>)
    requires |ops| == 3
    ensures var b := Step(Step(db, ops[0]).0, ops[1]).0; Run(db, ops[..2]) == b && Run(db, ops) == Step(b, ops[2]).0
  {
    hide Step;
    RunThenOne(db, [ops[0]], ops[1]);
    RunThenOne(db, [], ops[0]);
    RunThenOne(db, ops[..2], ops[2]);
    assert [ops[0]] + [ops[1]] == ops[..2] && ops[..2] + [ops[2]] == ops && [] + [ops[0]] == [ops[0]];
  }

  lemma LastAckIsSilent()
    ensures var before := Run(STARTED, FINISHING[..2]); var after := Step(before, FINISHING[2]).0;
      && Run(EMPTY_DB, STARTING) == STARTED && Delivers(Step(STARTED, FINISHING[0]).1, FIRST)
      && after == Run(STARTED, FINISHING) && !FullyDrained(before, 1) && FullyDrained(after, 1)
      && Announces(before, FINISHING[2]) == None
  {
    hide Wf, Step, Run, Delivers, FullyDrained, Told, Announces, Honoured, Small, Fanout.Backlog;
    Started();
    HandedOut();
    var db := Step(STARTED, FINISHING[0]).0;
    SmallIsWf(db);
    DrainLeaves(db, 1);
    DrainsSmall(db);
    RunTwo(STARTED, FINISHING);
    HonouredStays(db, Step(db, FINISHING[1]).0);
    LastAck(Run(STARTED, FINISHING[..2]));
    AcksAreSilent(Run(STARTED, FINISHING[..2]), FINISHING[2], 1, None);
  }

  /** A poll marks its receivers, reads, and sleeps; then the worker acknowledges. */
  const ACKED_ASLEEP := [Mark, Read, Commit(FINISHING[2])]

  /**
   The last acknowledgement leaves the consumer drained, and a poller asleep by then stays as it
   is: asleep, with no notice to come and no receiver changed.
   */
  lemma AnAckDrainsSilently(publishes: nat, changes: nat)
    ensures var p := Poller(Run(STARTED, FINISHING[..2]), {}, Marking, publishes, publishes, changes, changes, multiset{});
      var q := After(p, 1, None, ACKED_ASLEEP);
      && Run(EMPTY_DB, STARTING) == STARTED && Delivers(Step(STARTED, FINISHING[0]).1, FIRST)
      && Possible(p, 1, None, ACKED_ASLEEP)
      && q.db == Run(STARTED, FINISHING) && !FullyDrained(p.db, 1) && FullyDrained(q.db, 1)
      && q.phase.Sleeping? && !NoticeComing(q, 1, None) && !Changed(q)
  {
    hide Step, Run, Delivers, FullyDrained, Announces, FINISHING;
    LastAckIsSilent();
    LastIsAck();
    var p := Poller(Run(STARTED, FINISHING[..2]), {}, Marking, publishes, publishes, changes, changes, multiset{});
    var marked := Next(p, 1, None, Mark);
    var asleep := Next(marked, 1, None, Read);
    assert ACKED_ASLEEP[1..] == [Read, Commit(FINISHING[2])] && ACKED_ASLEEP[1..][1..] == [Commit(FINISHING[2])];
    assert ACKED_ASLEEP[1..][1..][1..] == [];
    assert Possible(asleep, 1, None, [Commit(FINISHING[2])]);
    assert Possible(marked, 1, None, ACKED_ASLEEP[1..]);
    assert After(asleep, 1, None, [Commit(FINISHING[2])]) == Next(asleep, 1, None, Commit(FINISHING[2]));
  }

  lemma LastIsAck()
    ensures |FINISHING| == 3 && FINISHING[2] == AckOp(1, [FIRST])
  {
  }

  lemma SmallIsWf(db: Db)
    requires Small(db)
    ensures Wf(db)
  {
  }

  lemma HonouredStays(before: Db, after: Db)
    requires Honoured(before, FIRST) && after.core.deliveries == before.core.deliveries
    ensures Honoured(after, FIRST)
  {
  }

  // ---- A deadline that has just passed --------------------------------------------------

  /**
   An empty claim reports a copy as next visible in two milliseconds. If the clock is read again
   three milliseconds later, the poll sleeps for its whole interval of 250 instead of not at all.
   */
  lemma APassedDeadlineIsSleptOn(seen: Clock)
    requires seen + 3 <= I64_MAX
    ensures SleepFor(NANOS_PER_SECOND, 250 * NANOS_PER_MILLI, Some(seen + 2), seen + 3) == 250 * NANOS_PER_MILLI
    ensures SleepFor(NANOS_PER_SECOND, 250 * NANOS_PER_MILLI, Some(seen + 2), seen + 1) == NANOS_PER_MILLI
  {
    hide SleepFor;
    SleepsUntilVisible(NANOS_PER_SECOND, 250 * NANOS_PER_MILLI, seen + 2, seen + 3);
    UpInTime(seen);
  }

  lemma UpInTime(seen: Clock)
    requires seen + 3 <= I64_MAX
    ensures SleepFor(NANOS_PER_SECOND, 250 * NANOS_PER_MILLI, Some(seen + 2), seen + 1) == NANOS_PER_MILLI
  {
  }
}
