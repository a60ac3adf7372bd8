/** Bounded pruning: exact on each call, and convergent when repeated at one cutoff. */
module Retention {
  import opened Prelude
  import opened Ranking
  import opened Schema
  import opened Transactions
  import opened Invariants
  import opened LazyIsEager

  /** Some delivery, archive or unfinished scan still needs the message. */
  predicate Needed(db: Db, m: nat) {
    Referenced(db.core, m) || Awaited(db, m)
  }

  /** One call deletes exactly the lowest eligible ids it may, and touches nothing but the log. */
  lemma PruneIsExact(db: Db, before: int, limit: nat)
    requires Wf(db)
    ensures var victims := Lowest(Prunable(db, before), limit);
      PruneMessages(db, before, limit) ==
        (Db(db.core.(messages := db.core.messages - victims), db.cursors), Ok(Min(limit, |Prunable(db, before)|)))
  {
    hide Wf, Lowest, Prunable, DropMessages, Referenced;
    PrunableUnneeded(db, before);
    DropKept(db.core, Lowest(Prunable(db, before), limit));
  }

  lemma PrunableUnneeded(db: Db, before: int)
    requires Wf(db)
    ensures CoreOk(db.core)
    ensures forall m | m in Prunable(db, before) :: !Referenced(db.core, m)
  {
  }

  /** What was eligible and not deleted is eligible still, and nothing else has become so. */
  lemma PruneLeaves(db: Db, before: int, limit: nat)
    requires Wf(db)
    ensures Prunable(PruneMessages(db, before, limit).0, before) == Prunable(db, before) - Lowest(Prunable(db, before), limit)
  {
    hide Lowest, CoreOk, PruneMessages, BelowCursor;
    PruneIsExact(db, before, limit);
    var victims := Lowest(Prunable(db, before), limit);
    var after := PruneMessages(db, before, limit).0;
    forall m | m in after.core.messages ensures Needed(after, m) <==> Needed(db, m) {
      assert Referenced(after.core, m) <==> Referenced(db.core, m);
      AwaitedAfterPrune(db, victims, m);
    }
  }

  lemma AwaitedAfterPrune(db: Db, victims: set<nat>, m: nat)
    requires m !in victims
    ensures Awaited(Db(db.core.(messages := db.core.messages - victims), db.cursors), m) <==> Awaited(db, m)
  {
    var after := Db(db.core.(messages := db.core.messages - victims), db.cursors);
    forall c | c in db.cursors && c in db.core.consumers
      ensures m in Unseen(after.core.messages, db.core.consumers[c].filter, db.cursors[c]) <==> m in Unseen(db.core.messages, db.core.consumers[c].filter, db.cursors[c])
    {}
  }

  /** Calls repeated at one cutoff until nothing is eligible: the state they leave and their number. */
  ghost function PruneRepeatedly(db: Db, before: int, limit: nat): (Db, nat)
    requires Wf(db) && limit > 0
    decreases |Prunable(db, before)|
  {
    hide Wf, Prunable, PruneMessages, Lowest;
    if Prunable(db, before) == {} then (db, 0)
    else
      PruneKept(db, before, limit);
      PruneLeaves(db, before, limit);
      DifferenceSize(Prunable(db, before), Lowest(Prunable(db, before), limit));
      var (rest, calls) := PruneRepeatedly(PruneMessages(db, before, limit).0, before, limit);
      (rest, calls + 1)
  }

  lemma DifferenceSize(a: set<nat>, b: set<nat>)
    requires b <= a
    ensures |a - b| == |a| - |b|
  {
    assert a == b + (a - b);
  }

  /** Repetition ends after one call for each `limit` eligible messages, with exactly the eligible ones gone. */
  lemma {:induction false} PruningConverges(db: Db, before: int, limit: nat)
    requires Wf(db) && limit > 0
    ensures var (after, calls) := PruneRepeatedly(db, before, limit);
      && after == Db(db.core.(messages := db.core.messages - Prunable(db, before)), db.cursors)
      && (calls - 1) * limit < |Prunable(db, before)| <= calls * limit
    decreases |Prunable(db, before)|
  {
    hide Wf, Prunable, PruneMessages, Lowest;
    var all := Prunable(db, before);
    if all == {} {
      assert db.core.messages - {} == db.core.messages;
    } else {
      var next := PruneMessages(db, before, limit).0;
      var victims := Lowest(all, limit);
      PruneKept(db, before, limit);
      PruneLeaves(db, before, limit);
      DifferenceSize(all, victims);
      PruneIsExact(db, before, limit);
      PruningConverges(next, before, limit);
      assert db.core.messages - victims - (all - victims) == db.core.messages - all;
    }
  }

  /** After it, the old messages left are exactly those something still needs. */
  lemma PruningLeavesTheNeeded(db: Db, before: int, limit: nat)
    requires Wf(db) && limit > 0
    ensures var after := PruneRepeatedly(db, before, limit).0;
      forall m | m in db.core.messages ::
        m in after.core.messages <==> (db.core.messages[m].publishedAt < before ==> Needed(db, m))
  {
    hide PruneRepeatedly, Wf, Referenced, Awaited;
    PruningConverges(db, before, limit);
  }
}
