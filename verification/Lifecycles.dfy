/** A consumer's row from its opening to its deletion, and what snapshots show of it on the way. */
module Lifecycles {
  import opened Prelude
  import opened Schema
  import opened Transactions
  import opened Runs
  import opened Invariants
  import opened Leases
  import opened Backlogs
  import opened Claims
  import Draining
  import Fanout
  import Wakeups

  // ---- Opening --------------------------------------------------------------------------

  /**
   Opening makes a consumer for a name nobody has, finds the one that has it if its filter is
   the same, and fails otherwise, for another filter or no name at all.
   */
  lemma OpeningIsDecided(db: Db, name: string, filter: Option<string>, now: int)
    requires Wf(db)
    ensures var (after, r) := OpenConsumer(db, name, filter, now); var taken := exists c :: c in db.core.consumers && db.core.consumers[c].name == name;
      && (name == "" ==> (after, r) == (db, Err(EmptyConsumerName)))
      && (name != "" && !taken ==>
            && r.Ok? && r.value !in db.core.consumers
            && after.core == db.core.(consumers := db.core.consumers[r.value := ConsumerRow(name, filter, now, None)], consumerSeq := after.core.consumerSeq))
      && (name != "" && taken ==>
            && after == db
            && forall c | c in db.core.consumers && db.core.consumers[c].name == name ::
                 r == if db.core.consumers[c].filter == filter then Ok(c) else Err(ConsumerConfigurationMismatch))
  {
    hide Wf, FindConsumer, HighWater;
    NobodyNamed(db, name);
    ConsumersBounded(db);
  }

  lemma NobodyNamed(db: Db, name: string)
    requires Wf(db)
    ensures FindConsumer(db.core, name).None? <==> forall c | c in db.core.consumers :: db.core.consumers[c].name != name
    ensures forall c | c in db.core.consumers && db.core.consumers[c].name == name :: FindConsumer(db.core, name) == Some(c)
  {
    hide FindConsumer;
    forall c | c in db.core.consumers && db.core.consumers[c].name == name ensures FindConsumer(db.core, name) == Some(c) {
      assert c in Named(db.core, name);
    }
  }

  // ---- Through any run ------------------------------------------------------------------

  /** The same consumer: its draining time may have been set since. */
  predicate SameIdentity(before: ConsumerRow, after: ConsumerRow) {
    after == before.(drainingAt := after.drainingAt)
  }

  lemma {:induction false} IdentityStays(db: Db, ops: seq<Op>, c: nat)
    requires Wf(db) && c in db.core.consumers && c in Run(db, ops).core.consumers
    ensures SameIdentity(db.core.consumers[c], Run(db, ops).core.consumers[c])
    decreases |ops|
  {
    hide Wf, Step;
    if ops != [] {
      var next := Step(db, ops[0]).0;
      StepKept(db, ops[0]);
      ConsumersBounded(db);
      StepOnward(db, ops[0]);
      Wakeups.ConsumerRowStep(db, ops[0], c);
      if c !in next.core.consumers {
        GoneForGood(next, ops[1..], c);
      }
      IdentityStays(next, ops[1..], c);
    }
  }

  /** A consumer opened under a new name is shown with that name, its filter and its opening time for as long as it lives. */
  lemma SnapshotsShowTheOpening(db: Db, name: string, filter: Option<string>, now: int, ops: seq<Op>, later: int)
    requires Wf(db) && OpenConsumer(db, name, filter, now).1.Ok?
    requires forall c | c in db.core.consumers :: db.core.consumers[c].name != name
    ensures var (joined, r) := OpenConsumer(db, name, filter, now); var end := Run(joined, ops);
      r.value in end.core.consumers ==>
        && Snapshot(end, r.value, later).Ok?
        && var s := Snapshot(end, r.value, later).value; s.name == name && s.filter == filter && s.createdAt == now
  {
    hide Wf, OpenConsumer, Run, Snapshot;
    var (joined, r) := OpenConsumer(db, name, filter, now);
    OpeningIsDecided(db, name, filter, now);
    OpenKept(db, name, filter, now);
    if r.value in Run(joined, ops).core.consumers {
      NoEmptyName(db, name, filter, now);
      RunKept(joined, ops);
      IdentityStays(joined, ops, r.value);
      SnapshotShows(Run(joined, ops), r.value, later);
    }
  }

  lemma NoEmptyName(db: Db, name: string, filter: Option<string>, now: int)
    ensures OpenConsumer(db, name, filter, now).1.Ok? ==> name != ""
  {
    hide FindConsumer, HighWater;
  }

  // ---- Draining -------------------------------------------------------------------------

  /** Draining begins once, for a live consumer, and records the time; a second call changes nothing. */
  lemma DrainingIsDecided(db: Db, cid: nat, now: int)
    requires Wf(db)
    ensures var (after, r) := BeginDraining(db, cid, now);
      && (cid !in db.core.consumers ==> (after, r) == (db, Err(ConsumerDeleted)))
      && (cid in db.core.consumers && db.core.consumers[cid].drainingAt.Some? ==> (after, r) == (db, Ok(false)))
      && (cid in db.core.consumers && db.core.consumers[cid].drainingAt.None? ==>
            && r == Ok(true) && cid in after.cursors && cid in db.cursors
            && after.core == db.core.(consumers := db.core.consumers[cid := db.core.consumers[cid].(drainingAt := Some(now))])
            && after.cursors[cid].scan == db.cursors[cid].scan
            && Fanout.Backlog(after, cid) == Fanout.Backlog(db, cid))
  {
    hide Wf, HighWater;
    CursorKeys(db);
    if cid in db.core.consumers && db.core.consumers[cid].drainingAt.None? {
      var after := BeginDraining(db, cid, now).0;
      ActiveIsOpen(db, cid);
      forall m ensures m in Fanout.Backlog(after, cid) <==> m in Fanout.Backlog(db, cid) {}
    }
  }

  lemma ActiveIsOpen(db: Db, cid: nat)
    requires Wf(db) && cid in db.core.consumers && db.core.consumers[cid].drainingAt.None?
    ensures cid in db.cursors && db.cursors[cid].drain.None?
  {
  }

  /** Every later snapshot of the consumer shows the time its draining began. */
  lemma SnapshotsShowTheDraining(db: Db, cid: nat, now: int, ops: seq<Op>, later: int)
    requires Wf(db) && BeginDraining(db, cid, now).1 == Ok(true)
    ensures var end := Run(BeginDraining(db, cid, now).0, ops);
      cid in end.core.consumers ==> Snapshot(end, cid, later).Ok? && Snapshot(end, cid, later).value.drainingAt == Some(now)
  {
    hide Wf, BeginDraining, Run, Snapshot;
    var begun := BeginDraining(db, cid, now).0;
    DrainingIsDecided(db, cid, now);
    DrainKept(db, cid, now);
    Draining.DrainingIsIrreversible(begun, ops, cid);
    RunKept(begun, ops);
    if cid in Run(begun, ops).core.consumers {
      SnapshotShows(Run(begun, ops), cid, later);
    }
  }
}
