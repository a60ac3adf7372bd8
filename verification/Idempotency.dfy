/**
 Idempotency keys over whole runs: one effect per key and window, whatever the clocks of the
 publishers, and every other publish of the key told the id of that effect.
 */
module Idempotency {
  import opened Prelude
  import opened Ranking
  import opened Schema
  import opened Transactions
  import opened Runs
  import opened Invariants

  predicate Keyed(batch: seq<Publish>) {
    exists i | 0 <= i < |batch| :: batch[i].key.Some?
  }

  /** The ledger remembers the key's effect. */
  predicate Remembers(core: Core, k: Bytes, id: nat, expiresAt: int) {
    k in core.ledger && core.ledger[k] == LedgerEntry(Some(id), expiresAt)
  }

  /** The message is in the log already and the ledger does not name it under the key. */
  predicate Forgotten(core: Core, k: Bytes, id: nat) {
    id <= core.messageSeq && (k in core.ledger ==> core.ledger[k].messageId != Some(id))
  }

  // ---- One batch ------------------------------------------------------------------------

  /** A batch is its first half and then its second. */
  lemma {:induction false} PublishAllSplit(core: Core, first: seq<Publish>, second: seq<Publish>, now: int, window: int)
    ensures var (middle, told) := PublishAll(core, first, now, window);
      PublishAll(core, first + second, now, window) ==
        (PublishAll(middle, second, now, window).0, told + PublishAll(middle, second, now, window).1)
    decreases |second|
  {
    hide PublishOne;
    if second == [] {
      var told := PublishAll(core, first, now, window).1;
      assert first + second == first && told + [] == told;
    } else {
      var n := |second| - 1;
      var all := first + second;
      assert all[..|all| - 1] == first + second[..n] && all[|all| - 1] == second[n];
      PublishAllSplit(core, first, second[..n], now, window);
      var (middle, told) := PublishAll(core, first, now, window);
      var (before, outcomes) := PublishAll(middle, second[..n], now, window);
      var (after, outcome) := PublishOne(before, second[n], now, window);
      assert PublishAll(core, all, now, window) == (after, (told + outcomes) + [outcome]);
      assert (told + outcomes) + [outcome] == told + (outcomes + [outcome]);
    }
  }

  lemma {:induction false} RemembersThrough(core: Core, batch: seq<Publish>, now: int, window: int, k: Bytes, id: nat, expiresAt: int)
    requires Remembers(core, k, id, expiresAt) && (Keyed(batch) ==> now < expiresAt)
    ensures Remembers(PublishAll(core, batch, now, window).0, k, id, expiresAt)
    ensures forall x | 0 <= x < |batch| && batch[x].key == Some(k) :: PublishAll(core, batch, now, window).1[x] == Duplicate(id)
    decreases |batch|
  {
    hide PublishOne, Keyed, Remembers;
    if batch != [] {
      var n := |batch| - 1;
      KeyedParts(batch);
      RemembersThrough(core, batch[..n], now, window, k, id, expiresAt);
      RemembersOne(PublishAll(core, batch[..n], now, window).0, batch[n], now, window, k, id, expiresAt);
      forall x | 0 <= x < |batch| && batch[x].key == Some(k) ensures PublishAll(core, batch, now, window).1[x] == Duplicate(id) {
        if x < n {
          assert batch[..n][x] == batch[x];
        }
      }
    }
  }

  lemma KeyedParts(batch: seq<Publish>)
    requires batch != []
    ensures Keyed(batch) <==> Keyed(batch[..|batch| - 1]) || batch[|batch| - 1].key.Some?
  {
    var n := |batch| - 1;
    if i :| 0 <= i < n && batch[..n][i].key.Some? {
      assert batch[i].key.Some?;
    }
    if i :| 0 <= i < n && batch[i].key.Some? {
      assert batch[..n][i].key.Some?;
    }
  }

  lemma RemembersOne(core: Core, p: Publish, now: int, window: int, k: Bytes, id: nat, expiresAt: int)
    requires Remembers(core, k, id, expiresAt) && (p.key.Some? ==> now < expiresAt)
    ensures Remembers(PublishOne(core, p, now, window).0, k, id, expiresAt)
    ensures p.key == Some(k) ==> PublishOne(core, p, now, window).1 == Duplicate(id)
  {
  }

  /** A keyed batch at or after the expiry drops the entry, and a message id is never ledgered anew. */
  lemma {:induction false} ForgetsThrough(core: Core, batch: seq<Publish>, now: int, window: int, k: Bytes, id: nat, expiresAt: int)
    requires Forgotten(core, k, id) || (Remembers(core, k, id, expiresAt) && id <= core.messageSeq && Keyed(batch) && expiresAt <= now)
    ensures Forgotten(PublishAll(core, batch, now, window).0, k, id)
    decreases |batch|
  {
    hide Remembers, Forgotten, PublishOne;
    if batch != [] {
      var n := |batch| - 1;
      var before := PublishAll(core, batch[..n], now, window).0;
      if Forgotten(core, k, id) || Keyed(batch[..n]) {
        ForgetsThrough(core, batch[..n], now, window, k, id, expiresAt);
      } else {
        KeyedParts(batch);
        RemembersThrough(core, batch[..n], now, window, k, id, expiresAt);
        LogGrows(core, batch[..n], now, window);
      }
      ForgetsOne(before, batch[n], now, window, k, id, expiresAt);
    }
  }

  lemma {:induction false} LogGrows(core: Core, batch: seq<Publish>, now: int, window: int)
    ensures core.messageSeq <= PublishAll(core, batch, now, window).0.messageSeq
    decreases |batch|
  {
    if batch != [] {
      LogGrows(core, batch[..|batch| - 1], now, window);
    }
  }

  lemma ForgetsOne(core: Core, p: Publish, now: int, window: int, k: Bytes, id: nat, expiresAt: int)
    requires Forgotten(core, k, id) || (Remembers(core, k, id, expiresAt) && id <= core.messageSeq && p.key.Some? && expiresAt <= now)
    ensures Forgotten(PublishOne(core, p, now, window).0, k, id)
  {
  }

  /** After a batch that used the key, the key's entry is complete and outlives the batch's clock reading. */
  lemma {:induction false} KeyRemembered(core: Core, batch: seq<Publish>, now: int, window: int, k: Bytes, x: nat)
    requires window > 0 && x < |batch| && batch[x].key == Some(k)
    ensures var after := PublishAll(core, batch, now, window).0;
      k in after.ledger && after.ledger[k].messageId.Some? && now < after.ledger[k].expiresAt
    decreases |batch|
  {
    hide PublishOne;
    var n := |batch| - 1;
    if x < n {
      KeyRemembered(core, batch[..n], now, window, k, x);
    }
    OneRemembered(PublishAll(core, batch[..n], now, window).0, batch[n], now, window, k);
  }

  lemma OneRemembered(core: Core, p: Publish, now: int, window: int, k: Bytes)
    requires window > 0
    requires p.key == Some(k) || (k in core.ledger && core.ledger[k].messageId.Some? && now < core.ledger[k].expiresAt)
    ensures var after := PublishOne(core, p, now, window).0;
      k in after.ledger && after.ledger[k].messageId.Some? && now < after.ledger[k].expiresAt
  {
  }

  /** A published key starts a window of its own, whatever ledger the publish met. */
  lemma OnePublished(core: Core, p: Publish, now: int, window: int, k: Bytes)
    requires LedgerOk(core) && p.key == Some(k)
    ensures var (after, outcome) := PublishOne(core, p, now, window);
      outcome.Published? ==>
        && Remembers(after, k, outcome.id, now + window) && outcome.id == core.messageSeq + 1 == after.messageSeq
        && !(k in core.ledger && core.ledger[k].messageId.Some? && now < core.ledger[k].expiresAt)
  {
  }

  /**
   Within a batch a key has at most one effect: the first use publishes, every later use of
   the key is told that message's id, and the ledger remembers it until now + window.
   */
  lemma OneEffectPerBatch(core: Core, batch: seq<Publish>, now: int, window: int, i: nat, k: Bytes)
    requires CoreOk(core) && window > 0 && i < |batch| && batch[i].key == Some(k)
    requires PublishAll(core, batch, now, window).1[i].Published?
    ensures var (after, outcomes) := PublishAll(core, batch, now, window); var id := outcomes[i].id;
      && core.messageSeq < id <= after.messageSeq
      && Remembers(after, k, id, now + window)
      && forall x | 0 <= x < |batch| && x != i && batch[x].key == Some(k) :: i < x && outcomes[x] == Duplicate(id)
  {
    hide CoreOk, PublishAll, PublishOne, Remembers, Keyed;
    var first, rest := batch[..i], batch[i + 1..];
    var before := PublishAll(core, first, now, window).0;
    var (middle, told) := PublishOne(before, batch[i], now, window);
    assert batch == first + [batch[i]] + rest;
    PublishAllSplit(core, first + [batch[i]], rest, now, window);
    PublishAllSplit(core, first, [batch[i]], now, window);
    PublishAllOne(before, batch[i], now, window);
    PublishAllAppends(core, first, now, window);
    LedgerStaysOk(before);
    OnePublished(before, batch[i], now, window, k);
    if x :| 0 <= x < i && batch[x].key == Some(k) {
      KeyRemembered(core, first, now, window, k, x);
      assert false;
    }
    RemembersThrough(middle, rest, now, window, k, told.id, now + window);
    LogGrows(core, first, now, window);
    LogGrows(middle, rest, now, window);
    forall x | i < x < |batch| && batch[x].key == Some(k) ensures PublishAll(core, batch, now, window).1[x] == Duplicate(told.id) {
      assert rest[x - i - 1] == batch[x];
    }
  }

  lemma PublishAllOne(core: Core, p: Publish, now: int, window: int)
    ensures PublishAll(core, [p], now, window) == (PublishOne(core, p, now, window).0, [PublishOne(core, p, now, window).1])
  {
    hide PublishOne;
    assert PublishAll(core, [p][..0], now, window) == (core, []);
    assert [] + [PublishOne(core, p, now, window).1] == [PublishOne(core, p, now, window).1];
  }

  lemma LedgerStaysOk(core: Core)
    requires CoreOk(core)
    ensures LedgerOk(core)
  {
  }

  // ---- Runs -----------------------------------------------------------------------------

  /** A keyed publish at or after the expiry: only this drops an entry. */
  predicate Expires(op: Op, expiresAt: int) {
    op.PublishOp? && Keyed(op.batch) && expiresAt <= op.now
  }

  predicate Expired(ops: seq<Op>, expiresAt: int) {
    exists j | 0 <= j < |ops| :: Expires(ops[j], expiresAt)
  }

  /** Only publishing touches the ledger or the end of the log. */
  lemma LedgerUntouched(db: Db, op: Op)
    requires Wf(db) && !op.PublishOp?
    ensures Step(db, op).0.core.ledger == db.core.ledger && Step(db, op).0.core.messageSeq == db.core.messageSeq
  {
    hide Wf, CoreStep, OpenConsumer, BeginDraining, Claim, Snapshot, DeleteConsumer, PruneMessages;
    if OnCore(op) {
      CoreUntouched(db, op);
    } else {
      OpenUntouched(db, op);
      OtherUntouched(db, op);
    }
  }

  lemma CoreUntouched(db: Db, op: Op)
    requires Wf(db) && OnCore(op)
    ensures SameLog(db.core, Step(db, op).0.core)
  {
    hide CoreOk, Step, CoreStep;
    CoreStepKept(db.core, op);
    StepOnCore(db, op);
  }

  lemma OpenUntouched(db: Db, op: Op)
    ensures op.OpenOp? ==> var core := OpenConsumer(db, op.name, op.filter, op.now).0.core; core.ledger == db.core.ledger && core.messageSeq == db.core.messageSeq
    ensures op.DrainOp? ==> var core := BeginDraining(db, op.cid, op.now).0.core; core.ledger == db.core.ledger && core.messageSeq == db.core.messageSeq
    ensures op.ClaimOp? ==> var core := Claim(db, op.cid, op.max, op.now, op.now + op.lease).0.core; core.ledger == db.core.ledger && core.messageSeq == db.core.messageSeq
  {
    hide FindConsumer, HighWater, Retries, Scan, LeaseRows, Collect;
    if op.ClaimOp? {
      ClaimUntouched(db, op.cid, op.max, op.now, op.now + op.lease);
    }
  }

  lemma ClaimUntouched(db: Db, cid: nat, max: nat, now: int, deadline: int)
    ensures var core := Claim(db, cid, max, now, deadline).0.core; core.ledger == db.core.ledger && core.messageSeq == db.core.messageSeq
  {
    hide Retries, Scan, LeaseRows, Collect;
    RetriesVisible(db.core, cid, max, now);
  }

  lemma OtherUntouched(db: Db, op: Op)
    ensures op.DeleteOp? ==> var core := DeleteConsumer(db, op.name, op.mode).0.core; core.ledger == db.core.ledger && core.messageSeq == db.core.messageSeq
    ensures op.PruneOp? ==> var core := PruneMessages(db, op.before, op.limit).0.core; core.ledger == db.core.ledger && core.messageSeq == db.core.messageSeq
  {
    hide FindConsumer, Inbox, ArchivesOf, Unseen, Prunable, Lowest;
  }

  /** Every use of the key in the step, if it publishes, is told the id. */
  ghost predicate ToldOnly(op: Op, outcome: Outcome, k: Bytes, id: nat) {
    op.PublishOp? ==>
      && outcome.PublishedAll? && |outcome.outcomes| == |op.batch|
      && forall x | 0 <= x < |op.batch| && op.batch[x].key == Some(k) :: outcome.outcomes[x] == Duplicate(id)
  }

  lemma StepRemembers(db: Db, op: Op, k: Bytes, id: nat, expiresAt: int)
    requires Wf(db) && Remembers(db.core, k, id, expiresAt) && id <= db.core.messageSeq
    ensures id <= Step(db, op).0.core.messageSeq
    ensures !Expires(op, expiresAt) ==> Remembers(Step(db, op).0.core, k, id, expiresAt) && ToldOnly(op, Step(db, op).1, k, id)
    ensures Expires(op, expiresAt) ==> Forgotten(Step(db, op).0.core, k, id)
  {
    hide Wf, CoreStep, OpenConsumer, BeginDraining, Claim, Snapshot, DeleteConsumer, PruneMessages, PublishAll, Keyed;
    if op.PublishOp? {
      LogGrows(db.core, op.batch, op.now, op.window);
      if Expires(op, expiresAt) {
        ForgetsThrough(db.core, op.batch, op.now, op.window, k, id, expiresAt);
      } else {
        RemembersThrough(db.core, op.batch, op.now, op.window, k, id, expiresAt);
      }
    } else {
      LedgerUntouched(db, op);
    }
  }

  lemma StepForgotten(db: Db, op: Op, k: Bytes, id: nat)
    requires Wf(db) && Forgotten(db.core, k, id)
    ensures Forgotten(Step(db, op).0.core, k, id)
  {
    hide Wf, CoreStep, OpenConsumer, BeginDraining, Claim, Snapshot, DeleteConsumer, PruneMessages, PublishAll;
    if op.PublishOp? {
      ForgetsThrough(db.core, op.batch, op.now, op.window, k, id, 0);
    } else {
      LedgerUntouched(db, op);
    }
  }

  lemma {:induction false} ForgottenForGood(db: Db, ops: seq<Op>, k: Bytes, id: nat)
    requires Wf(db) && Forgotten(db.core, k, id)
    ensures Forgotten(Run(db, ops).core, k, id)
    decreases |ops|
  {
    hide Wf, Step, Forgotten;
    if ops != [] {
      StepForgotten(db, ops[0], k, id);
      StepKept(db, ops[0]);
      ForgottenForGood(Step(db, ops[0]).0, ops[1..], k, id);
    }
  }

  /**
   An entry lasts through a run exactly when no keyed publish of the run reads a clock at or
   past its expiry, and while it lasts every publish of the key is told the same id.
   */
  lemma {:induction false} WindowLasts(db: Db, ops: seq<Op>, k: Bytes, id: nat, expiresAt: int)
    requires Wf(db) && Remembers(db.core, k, id, expiresAt) && id <= db.core.messageSeq
    ensures Remembers(Run(db, ops).core, k, id, expiresAt) <==> !Expired(ops, expiresAt)
    ensures !Expired(ops, expiresAt) ==> forall j | 0 <= j < |ops| :: ToldOnly(ops[j], Outcomes(db, ops)[j], k, id)
    decreases |ops|
  {
    hide Wf, Step, Remembers, Forgotten, Expires, ToldOnly;
    if ops != [] {
      var next := Step(db, ops[0]).0;
      StepRemembers(db, ops[0], k, id, expiresAt);
      StepKept(db, ops[0]);
      ExpiredTail(ops, expiresAt);
      if Expires(ops[0], expiresAt) {
        ForgottenForGood(next, ops[1..], k, id);
        NotBoth(Run(next, ops[1..]).core, k, id, expiresAt);
      } else {
        WindowLasts(next, ops[1..], k, id, expiresAt);
        forall j | 0 <= j < |ops| && !Expired(ops, expiresAt) ensures ToldOnly(ops[j], Outcomes(db, ops)[j], k, id) {
          if j > 0 {
            assert ops[j] == ops[1..][j - 1];
          }
        }
      }
    }
  }

  lemma ExpiredTail(ops: seq<Op>, expiresAt: int)
    requires ops != []
    ensures Expired(ops, expiresAt) <==> Expires(ops[0], expiresAt) || Expired(ops[1..], expiresAt)
  {
    if Expired(ops, expiresAt) && !Expires(ops[0], expiresAt) {
      var j :| 0 <= j < |ops| && Expires(ops[j], expiresAt);
      assert Expires(ops[1..][j - 1], expiresAt);
    }
    if Expired(ops[1..], expiresAt) {
      var j :| 0 <= j < |ops[1..]| && Expires(ops[1..][j], expiresAt);
      assert Expires(ops[j + 1], expiresAt);
    }
  }

  lemma NotBoth(core: Core, k: Bytes, id: nat, expiresAt: int)
    requires Forgotten(core, k, id)
    ensures !Remembers(core, k, id, expiresAt)
  {
  }

  /** The publish at position i of the step took effect for the key. */
  predicate TookEffect(db: Db, op: Op, i: nat, k: Bytes) {
    op.PublishOp? && i < |op.batch| && op.batch[i].key == Some(k) && PublishAll(db.core, op.batch, op.now, op.window).1[i].Published?
  }

  /**
   Two effects of one key are a window apart: between them, counting the batch of the second,
   some keyed publish read a clock at or past the first one's fixed expiry.
   */
  lemma EffectsAreAWindowApart(db: Db, first: Op, i: nat, between: seq<Op>, second: Op, j: nat, k: Bytes)
    requires Wf(db) && TookEffect(db, first, i, k) && first.window > 0
    requires TookEffect(Run(Step(db, first).0, between), second, j, k)
    ensures Expired(between + [second], first.now + first.window)
  {
    hide Wf, Run, PublishAll, CoreOk, Keyed, Remembers;
    var start := Step(db, first).0;
    StepKept(db, first);
    CoreIsOk(db);
    OneEffectPerBatch(db.core, first.batch, first.now, first.window, i, k);
    var id := PublishAll(db.core, first.batch, first.now, first.window).1[i].id;
    WindowLasts(start, between, k, id, first.now + first.window);
    if Expired(between, first.now + first.window) {
      var x :| 0 <= x < |between| && Expires(between[x], first.now + first.window);
      assert Expires((between + [second])[x], first.now + first.window);
    } else {
      if !Expires(second, first.now + first.window) {
        RemembersThrough(Run(start, between).core, second.batch, second.now, second.window, k, id, first.now + first.window);
      }
      assert Expires((between + [second])[|between|], first.now + first.window);
    }
  }

  lemma CoreIsOk(db: Db)
    requires Wf(db)
    ensures CoreOk(db.core)
  {
  }
}
