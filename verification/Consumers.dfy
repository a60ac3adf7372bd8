/**
 The consumer handle. Every method is one of the operations of the model, carried out by its
 statements; clock readings and the commits of others are inputs.
 */
module Consumers {
  import opened Prelude
  import opened Ranking
  import opened Schema
  import opened Transactions
  import opened Runs
  import opened Invariants
  import opened Time
  import opened Storage
  import opened Settling
  import opened Leasing
  import opened Claims
  import opened Signals
  import opened Wakeups
  import opened Polling
  import opened Store
  import opened Notifying
  import Backlogs

  /** INSERT INTO litefan_consumers ... ON CONFLICT(name) DO NOTHING. */
  function InsertConsumerStatement(db: Db, name: string, filter: Option<string>, now: int): Db {
    if FindConsumer(db.core, name).Some? then db
    else
      var id := db.core.consumerSeq + 1;
      Db(db.core.(consumers := db.core.consumers[id := ConsumerRow(name, filter, now, None)], consumerSeq := id),
         db.cursors[id := Cursor(HighWater(db.core.messages), None)])
  }

  /** Inserting and then looking the name up finds the row there is, or the new one. */
  lemma InsertThenFind(db: Db, name: string, filter: Option<string>, now: int)
    requires Wf(db) && name != ""
    ensures var tx := InsertConsumerStatement(db, name, filter, now);
      var found := FindConsumer(tx.core, name);
      && found.Some? && found.value in tx.core.consumers
      && OpenConsumer(db, name, filter, now) ==
           if tx.core.consumers[found.value].filter == filter then (tx, Ok(found.value)) else (db, Err(ConsumerConfigurationMismatch))
  {
    hide HighWater, Wf;
    if FindConsumer(db.core, name).None? {
      var id := db.core.consumerSeq + 1;
      var tx := InsertConsumerStatement(db, name, filter, now);
      forall c | c in db.core.consumers ensures db.core.consumers[c].name != name {
        assert c !in Named(db.core, name);
      }
      assert Named(tx.core, name) == {id};
    }
  }

  /** UPDATE ... SET draining_at = ?, drain_cursor = MAX(...) WHERE id = ? AND draining_at IS NULL. */
  function DrainStatement(db: Db, id: nat, now: int): (Db, nat) {
    if id in db.core.consumers && db.core.consumers[id].drainingAt.None? && id in db.cursors then
      var cursor := db.cursors[id];
      (Db(db.core.(consumers := db.core.consumers[id := db.core.consumers[id].(drainingAt := Some(now))]),
          db.cursors[id := Cursor(cursor.scan, Some(Max(cursor.scan, HighWater(db.core.messages))))]), 1)
    else (db, 0)
  }

  class Consumer {
    const fan: LiteFan
    const id: nat
    const name: string
    const filter: Option<string>
    const publishSignal: Signal
    const consumerSignal: Signal

    /** The handle keeps the live signals of its filter and of its consumer. */
    ghost predicate Wired()
      reads fan.hub, fan.hub.allPublishes, fan.hub.topics, fan.hub.consumers
      reads fan.hub.topics.made.Keys, fan.hub.consumers.made.Keys, publishSignal, consumerSignal
    {
      && fan.hub.Valid() && fan.hub.Listens(filter, publishSignal)
      && consumerSignal in fan.hub.consumers.made && fan.hub.consumers.made[consumerSignal] == id && consumerSignal.strong > 0
    }

    constructor (fan: LiteFan, id: nat, name: string, filter: Option<string>, publishSignal: Signal, consumerSignal: Signal)
      ensures this.fan == fan && this.id == id && this.name == name && this.filter == filter
      ensures this.publishSignal == publishSignal && this.consumerSignal == consumerSignal
    {
      this.fan, this.id, this.name, this.filter := fan, id, name, filter;
      this.publishSignal, this.consumerSignal := publishSignal, consumerSignal;
    }

    /**
     Opens a durable consumer by name, creating it at the end of the log if there is none. The
     handle gets the live signals of its filter and its consumer, shared with those who have them.
     */
    static method Open(fan: LiteFan, name: string, filter: Option<string>, now: Clock) returns (consumer: Consumer?, r: Result<nat>)
      requires fan.Valid() && fan.hub.Valid()
      modifies fan, fan.hub.topics, fan.hub.topics.made.Keys, fan.hub.consumers, fan.hub.consumers.made.Keys
      ensures fan.Valid() && fan.sent == old(fan.sent)
      ensures (fan.db, r) == OpenConsumer(old(fan.db), name, filter, now)
      ensures r.Ok? <==> consumer != null
      ensures r.Ok? ==> fresh(consumer) && consumer.fan == fan && consumer.id == r.value && consumer.name == name && consumer.filter == filter
      ensures fan.hub.Valid() && (r.Ok? ==> consumer.Wired())
      ensures forall s | s in old(fan.hub.topics.made) ::
        s in fan.hub.topics.made && fan.hub.topics.made[s] == old(fan.hub.topics.made[s]) && s.version == old(s.version) && s.strong >= old(s.strong)
      ensures forall s | s in old(fan.hub.consumers.made) ::
        s in fan.hub.consumers.made && fan.hub.consumers.made[s] == old(fan.hub.consumers.made[s]) && s.version == old(s.version) && s.strong >= old(s.strong)
    {
      hide Wf, OpenConsumer, InsertConsumerStatement, FindConsumer;
      consumer := null;
      if name == "" {
        EmptyName(fan.db, filter, now);
        return null, Err(EmptyConsumerName);
      }
      OpenKept(fan.db, name, filter, now);
      InsertThenFind(fan.db, name, filter, now);
      var tx := InsertConsumerStatement(fan.db, name, filter, now);
      var found := FindConsumer(tx.core, name).value;
      if tx.core.consumers[found].filter != filter {
        return null, Err(ConsumerConfigurationMismatch);
      }
      fan.db := tx;
      consumer := Connect(fan, found, name, filter);
      r := Ok(found);
    }

    /** A handle with the two signals it notifies and listens to. */
    static method Connect(fan: LiteFan, id: nat, name: string, filter: Option<string>) returns (consumer: Consumer)
      requires fan.hub.Valid()
      modifies fan.hub.topics, fan.hub.topics.made.Keys, fan.hub.consumers, fan.hub.consumers.made.Keys
      ensures fan.hub.Valid() && consumer.fan == fan && consumer.Wired()
      ensures fresh(consumer) && consumer.id == id && consumer.name == name && consumer.filter == filter
      ensures forall s | s in old(fan.hub.topics.made) ::
        s in fan.hub.topics.made && fan.hub.topics.made[s] == old(fan.hub.topics.made[s]) && s.version == old(s.version) && s.strong >= old(s.strong)
      ensures forall s | s in old(fan.hub.consumers.made) ::
        s in fan.hub.consumers.made && fan.hub.consumers.made[s] == old(fan.hub.consumers.made[s]) && s.version == old(s.version) && s.strong >= old(s.strong)
    {
      var publishSignal := fan.hub.PublishesFor(filter);
      var consumerSignal := fan.hub.ConsumerSignal(id);
      consumer := new Consumer(fan, id, name, filter, publishSignal, consumerSignal);
    }

    /** The handle goes away, and with it its hold on the two signals. */
    method Drop()
      requires Wired()
      modifies publishSignal`strong, consumerSignal`strong
      ensures fan.hub.Valid()
      ensures consumerSignal.strong == old(consumerSignal.strong) - 1
      ensures publishSignal.strong == old(publishSignal.strong) - (if filter.Some? then 1 else 0)
    {
      if filter.Some? {
        fan.hub.topics.Release(publishSignal);
      }
      fan.hub.consumers.Release(consumerSignal);
    }

    /** Of the signals of this consumer, this handle's is the live one. */
    lemma OwnSignalIsLive()
      requires Wired()
      ensures forall s | s in fan.hub.consumers.made && fan.hub.consumers.made[s] == id && s.strong > 0 :: s == consumerSignal
      ensures consumerSignal !in fan.hub.topics.made && consumerSignal != fan.hub.allPublishes
    {
    }

    /** So notifying it reaches whom the notice is for, every handle of the consumer, and nobody else. */
    method NotifyOwn()
      requires Wired()
      modifies consumerSignal`version
      ensures Wired() && Heard(fan.hub, Some(ConsumerNotice(id)))
      ensures consumerSignal.version == old(consumerSignal.version) + 1
    {
      OwnSignalIsLive();
      consumerSignal.Notify();
    }

    /** Commits, and then notifies the consumer's listeners if there is reason to. */
    method Conclude(tx: Db, told: bool)
      requires Wf(tx) && fan.Valid() && Wired()
      modifies fan, consumerSignal`version
      ensures fan.Valid() && Wired() && fan.db == tx
      ensures fan.sent == Sent(old(fan.sent), if told then Some(ConsumerNotice(id)) else None)
      ensures consumerSignal.version == old(consumerSignal.version) + (if fan.sent == old(fan.sent) then 0 else 1)
    {
      hide Wf, Wired, Heard;
      fan.db := tx;
      if told {
        fan.sent := fan.sent + [ConsumerNotice(id)];
        NotifyOwn();
      }
    }

    /**
     Stops future fan-out; true when this call made the transition. If it did not, another read
     finds out why, and others may commit `between` the two.
     */
    method BeginDraining(now: Clock, between: seq<Op>) returns (r: Result<bool>)
      requires fan.Valid() && Wired()
      modifies fan, consumerSignal`version
      ensures fan.Valid() && Wired()
      ensures consumerSignal.version == old(consumerSignal.version) + (if fan.sent == old(fan.sent) then 0 else 1)
      ensures r == Ok(true) <==> Transactions.BeginDraining(old(fan.db), id, now).1 == Ok(true)
      ensures r == Ok(true) ==> fan.db == Transactions.BeginDraining(old(fan.db), id, now).0
      ensures r != Ok(true) ==> fan.db == Run(old(fan.db), between) && r == (if id in fan.db.core.consumers then Ok(false) else Err(ConsumerDeleted))
      ensures fan.sent == Sent(old(fan.sent), Announces(old(fan.db), DrainOp(id, now)))
    {
      hide Wf, Wired, Heard, HighWater, Run;
      DrainKept(fan.db, id, now);
      CursorKeys(fan.db);
      var step := DrainStatement(fan.db, id, now);
      if step.1 == 1 {
        Conclude(step.0, true);
        return Ok(true);
      }
      fan.OthersCommit(between);
      r := if id in fan.db.core.consumers then Ok(false) else Err(ConsumerDeleted);
    }

    /** Acknowledges a batch; the count is that of the rows it removed. */
    method AckBatch(receipts: seq<Receipt>) returns (r: Result<BatchResult>)
      requires fan.Valid()
      modifies fan
      ensures fan.Valid() && fan.sent == old(fan.sent) && fan.db.cursors == old(fan.db.cursors)
      ensures if |receipts| > fan.maxBatchSize then r == Err(BatchTooLarge(|receipts|, fan.maxBatchSize)) && fan.db == old(fan.db)
              else (fan.db.core, r) == (Ack(old(fan.db.core), id, receipts).0, Ok(Ack(old(fan.db.core), id, receipts).1))
    {
      hide Wf, Hit;
      if receipts == [] {
        NoReceipts(fan.db.core.deliveries, id);
        return Ok(BatchResult(0, 0));
      }
      if fan.EnsureBatchSize(|receipts|).Some? {
        return Err(fan.EnsureBatchSize(|receipts|).value);
      }
      StepIsWf(fan.db, AckOp(id, receipts));
      var rows, applied := AckChunks(fan.db.core.deliveries, id, receipts);
      fan.db := Db(fan.db.core.(deliveries := rows), fan.db.cursors);
      r := Ok(Tally(|receipts|, applied));
    }

    /** Releases a batch for retry after a delay. */
    method NackBatch(receipts: seq<Receipt>, delay: Duration, now: Clock) returns (r: Result<BatchResult>)
      requires fan.Valid() && Wired()
      modifies fan, consumerSignal`version
      ensures fan.Valid() && fan.db.cursors == old(fan.db.cursors) && Wired()
      ensures consumerSignal.version == old(consumerSignal.version) + (if fan.sent == old(fan.sent) then 0 else 1)
      ensures if receipts == [] then r == Ok(BatchResult(0, 0)) && fan.db == old(fan.db) && fan.sent == old(fan.sent)
              else if |receipts| > fan.maxBatchSize then r == Err(BatchTooLarge(|receipts|, fan.maxBatchSize)) && fan.db == old(fan.db) && fan.sent == old(fan.sent)
              else if AddDuration(now, delay).Err? then r == Err(DurationOutOfRange) && fan.db == old(fan.db) && fan.sent == old(fan.sent)
              else
                var visibleAt := AddDuration(now, delay).value;
                && (fan.db.core, r) == (Nack(old(fan.db.core), id, receipts, visibleAt).0, Ok(Nack(old(fan.db.core), id, receipts, visibleAt).1))
                && fan.sent == Sent(old(fan.sent), Announces(old(fan.db), NackOp(id, receipts, visibleAt)))
    {
      hide Wf, Wired, Heard, NackChunks;
      if receipts == [] {
        return Ok(BatchResult(0, 0));
      }
      if fan.EnsureBatchSize(|receipts|).Some? {
        return Err(fan.EnsureBatchSize(|receipts|).value);
      }
      var visibleAt := AddDuration(now, delay);
      if visibleAt.Err? {
        return Err(DurationOutOfRange);
      }
      StepIsWf(fan.db, NackOp(id, receipts, visibleAt.value));
      var rows, applied := Settling.NackBatch(fan.db.core.deliveries, id, receipts, visibleAt.value);
      Conclude(Db(fan.db.core.(deliveries := rows), fan.db.cursors), applied > 0);
      r := Ok(Tally(|receipts|, applied));
    }

    /** Extends the leases of a batch to one shared deadline. */
    method ExtendVisibilityBatch(receipts: seq<Receipt>, timeout: Duration, now: Clock) returns (r: Result<BatchResult>)
      requires fan.Valid()
      modifies fan
      ensures fan.Valid() && fan.sent == old(fan.sent) && fan.db.cursors == old(fan.db.cursors)
      ensures if receipts == [] then r == Ok(BatchResult(0, 0)) && fan.db == old(fan.db)
              else if |receipts| > fan.maxBatchSize then r == Err(BatchTooLarge(|receipts|, fan.maxBatchSize)) && fan.db == old(fan.db)
              else if DurationMs(timeout) == Ok(0) then r == Err(InvalidVisibilityTimeout) && fan.db == old(fan.db)
              else if AddDuration(now, timeout).Err? then r == Err(DurationOutOfRange) && fan.db == old(fan.db)
              else
                var visibleAt := AddDuration(now, timeout).value;
                (fan.db.core, r) == (Extend(old(fan.db.core), id, receipts, visibleAt).0, Ok(Extend(old(fan.db.core), id, receipts, visibleAt).1))
    {
      hide Wf, ExtendChunks;
      if receipts == [] {
        return Ok(BatchResult(0, 0));
      }
      if fan.EnsureBatchSize(|receipts|).Some? {
        return Err(fan.EnsureBatchSize(|receipts|).value);
      }
      var ms := DurationMs(timeout);
      if ms.Err? {
        return Err(DurationOutOfRange);
      }
      if ms.value == 0 {
        return Err(InvalidVisibilityTimeout);
      }
      var visibleAt := AddDuration(now, timeout);
      if visibleAt.Err? {
        return Err(DurationOutOfRange);
      }
      StepIsWf(fan.db, ExtendOp(id, receipts, visibleAt.value));
      var rows, applied := Settling.ExtendBatch(fan.db.core.deliveries, id, receipts, visibleAt.value);
      fan.db := Db(fan.db.core.(deliveries := rows), fan.db.cursors);
      r := Ok(Tally(|receipts|, applied));
    }

    /** Moves the copies of a batch to the archive. */
    method ArchiveBatchWithDetail(receipts: seq<Receipt>, detail: Option<string>, now: Clock) returns (r: Result<BatchResult>)
      requires fan.Valid() && Wired()
      modifies fan, consumerSignal`version
      ensures fan.Valid() && fan.db.cursors == old(fan.db.cursors) && Wired()
      ensures consumerSignal.version == old(consumerSignal.version) + (if fan.sent == old(fan.sent) then 0 else 1)
      ensures if receipts == [] then r == Ok(BatchResult(0, 0)) && fan.db == old(fan.db) && fan.sent == old(fan.sent)
              else if |receipts| > fan.maxBatchSize then r == Err(BatchTooLarge(|receipts|, fan.maxBatchSize)) && fan.db == old(fan.db) && fan.sent == old(fan.sent)
              else
                && (fan.db.core, r) == Archive(old(fan.db.core), id, receipts, now, detail) && r.Ok?
                && fan.sent == Sent(old(fan.sent), Announces(old(fan.db), ArchiveOp(id, receipts, now, detail)))
    {
      hide Wf, Wired, Heard, CoreOk, Archive, Hit;
      if receipts == [] {
        return Ok(BatchResult(0, 0));
      }
      if fan.EnsureBatchSize(|receipts|).Some? {
        return Err(fan.EnsureBatchSize(|receipts|).value);
      }
      Backlogs.WfHasCore(fan.db);
      StepIsWf(fan.db, ArchiveOp(id, receipts, now, detail));
      var tx, archived := ArchiveChunks(fan.db.core, id, receipts, now, detail);
      if archived.Err? {
        return Err(ConstraintViolation);
      }
      Conclude(Db(tx, fan.db.cursors), archived.value > 0);
      r := Ok(Tally(|receipts|, archived.value));
    }

    /** Puts archived copies back for delivery, counts and generations at zero. */
    method RedriveBatch(archiveIds: seq<nat>, delay: Duration, now: Clock) returns (r: Result<BatchResult>)
      requires fan.Valid() && Wired()
      modifies fan, consumerSignal`version
      ensures fan.Valid() && fan.db.cursors == old(fan.db.cursors) && Wired()
      ensures consumerSignal.version == old(consumerSignal.version) + (if fan.sent == old(fan.sent) then 0 else 1)
      ensures if archiveIds == [] then r == Ok(BatchResult(0, 0)) && fan.db == old(fan.db) && fan.sent == old(fan.sent)
              else if |archiveIds| > fan.maxBatchSize then r == Err(BatchTooLarge(|archiveIds|, fan.maxBatchSize)) && fan.db == old(fan.db) && fan.sent == old(fan.sent)
              else if AddDuration(now, delay).Err? then r == Err(DurationOutOfRange) && fan.db == old(fan.db) && fan.sent == old(fan.sent)
              else
                var visibleAt := AddDuration(now, delay).value;
                && (fan.db.core, r) == Redrive(old(fan.db.core), id, archiveIds, visibleAt) && r.Ok?
                && fan.sent == Sent(old(fan.sent), Announces(old(fan.db), RedriveOp(id, archiveIds, visibleAt)))
    {
      hide Wf, Wired, Heard, CoreOk, Redrive, Redriven;
      if archiveIds == [] {
        return Ok(BatchResult(0, 0));
      }
      if fan.EnsureBatchSize(|archiveIds|).Some? {
        return Err(fan.EnsureBatchSize(|archiveIds|).value);
      }
      var visibleAt := AddDuration(now, delay);
      if visibleAt.Err? {
        return Err(DurationOutOfRange);
      }
      Backlogs.WfHasCore(fan.db);
      StepIsWf(fan.db, RedriveOp(id, archiveIds, visibleAt.value));
      var tx, restored := RedriveChunks(fan.db.core, id, archiveIds, visibleAt.value);
      if restored.Err? {
        return Err(ConstraintViolation);
      }
      Conclude(Db(tx, fan.db.cursors), restored.value > 0);
      r := Ok(Tally(|archiveIds|, restored.value));
    }

    /** Deletes a bounded number of old archives, lowest ids first. */
    method PurgeArchives(before: int, max: nat) returns (r: Result<nat>)
      requires fan.Valid()
      modifies fan
      ensures fan.Valid() && fan.sent == old(fan.sent) && fan.db.cursors == old(fan.db.cursors)
      ensures if max > fan.maxBatchSize then r == Err(BatchTooLarge(max, fan.maxBatchSize)) && fan.db == old(fan.db)
              else (fan.db.core, r) == (Transactions.PurgeArchives(old(fan.db.core), id, before, max).0, Ok(Transactions.PurgeArchives(old(fan.db.core), id, before, max).1))
    {
      hide Wf, Lowest;
      if max == 0 {
        PurgeNothing(fan.db.core, id, before);
        return Ok(0);
      }
      if fan.EnsureBatchSize(max).Some? {
        return Err(fan.EnsureBatchSize(max).value);
      }
      StepIsWf(fan.db, PurgeOp(id, before, max));
      var victims := PurgeVictims(fan.db.core, id, before, max);
      fan.db := Db(fan.db.core.(archives := fan.db.core.archives - victims), fan.db.cursors);
      r := Ok(|victims|);
    }

    // ---- Claiming -----------------------------------------------------------------------

    /** The protocol's state has the tables and signals of this handle, and the notices still owed. */
    ghost predicate Mirrors(p: Poller, pending: multiset<Notice>)
      reads fan, publishSignal, consumerSignal
    {
      p.db == fan.db && p.publishes == publishSignal.version && p.changes == consumerSignal.version && p.pending == pending
    }

    /** Somebody commits a transaction; in this process it calls for a notice. */
    method Committed(e: Event, pending: multiset<Notice>, ghost p: Poller) returns (left: multiset<Notice>)
      requires fan.Valid() && Mirrors(p, pending) && Commits(e) && OfOthers(e)
      modifies fan`db
      ensures fan.Valid() && Mirrors(Act(p, id, filter, e), left)
    {
      hide Wf, Step, Announces, Reaches;
      StepKept(fan.db, e.op);
      left := pending;
      if e.Commit? {
        var announced := Announces(fan.db, e.op);
        left := left + (if announced.Some? then multiset{announced.value} else multiset{});
      }
      fan.db := Step(fan.db, e.op).0;
    }

    /** Somebody who owes this notice sends it. */
    method Notified(n: Notice, pending: multiset<Notice>, ghost p: Poller) returns (left: multiset<Notice>)
      requires Wired() && Mirrors(p, pending)
      modifies fan.hub.allPublishes`version, fan.hub.topics`entries, fan.hub.topics.made.Keys, fan.hub.consumers`entries, fan.hub.consumers.made.Keys
      ensures Wired() && fan.hub.topics.made == old(fan.hub.topics.made) && fan.hub.consumers.made == old(fan.hub.consumers.made)
      ensures Mirrors(Act(p, id, filter, Notify(n)), left)
    {
      hide Reaches;
      if n !in pending {
        return pending;
      }
      left := pending - multiset{n};
      Send(fan.hub, n, id, filter, publishSignal, consumerSignal);
    }

    /** Others commit their transactions and send the notices they owe; `p` follows. */
    method Meanwhile(events: seq<Event>, pending: multiset<Notice>, ghost p: Poller) returns (left: multiset<Notice>, ghost q: Poller)
      requires fan.Valid() && Wired() && AllOfOthers(events) && Mirrors(p, pending)
      modifies fan`db, fan.hub.allPublishes`version, fan.hub.topics`entries, fan.hub.topics.made.Keys, fan.hub.consumers`entries, fan.hub.consumers.made.Keys
      ensures fan.Valid() && Wired() && fan.hub.topics.made == old(fan.hub.topics.made) && fan.hub.consumers.made == old(fan.hub.consumers.made)
      ensures q == Acts(p, id, filter, events) && Mirrors(q, left)
    {
      hide Wf, Wired, Act, Acts, OfOthers, Mirrors;
      left, q := pending, p;
      NoEvents(p, id, filter);
      for i := 0 to |events|
        invariant fan.Valid() && Wired() && fan.hub.topics.made == old(fan.hub.topics.made) && fan.hub.consumers.made == old(fan.hub.consumers.made)
        invariant q == Acts(p, id, filter, events[..i]) && Mirrors(q, left)
      {
        assert events[i] in events;
        OneMoreEvent(p, id, filter, events, i);
        EventsAre(events[i]);
        if Commits(events[i]) {
          left := Committed(events[i], left, q);
        } else {
          left := Notified(events[i].n, left, q);
        }
        q := Act(q, id, filter, events[i]);
      }
      assert events[..|events|] == events;
    }

    /** The locked half of a claim, after what others do before it gets the lock. */
    method ClaimInLock(max: nat, lease: int, t: Turn, pending: multiset<Notice>, ghost p: Poller)
      returns (claimed: Result<seq<Delivery>>, draining: bool, left: multiset<Notice>, ghost q: Poller)
      requires fan.Valid() && Wired() && AllOfOthers(t.first) && lease >= 0 && Mirrors(p, pending)
      modifies fan`db, fan.hub.allPublishes`version, fan.hub.topics`entries, fan.hub.topics.made.Keys, fan.hub.consumers`entries, fan.hub.consumers.made.Keys
      ensures fan.Valid() && Wired() && fan.hub.topics.made == old(fan.hub.topics.made) && fan.hub.consumers.made == old(fan.hub.consumers.made)
      ensures var locked := Run(old(fan.db), OpsOf(t.first));
        && (fan.db, claimed) == Transactions.Claim(locked, id, max, t.now, t.now + lease)
        && draining == (id in locked.core.consumers && locked.core.consumers[id].drainingAt.Some?)
      ensures q == Acts(p, id, filter, t.first + [Commit(ClaimOp(id, max, t.now, lease))]) && Mirrors(q, left)
    {
      hide Wf, Wired, Run, OpsOf, Act, Acts, AllOfOthers, Transactions.Claim;
      OthersAct(p, id, filter, t.first);
      left, q := Meanwhile(t.first, pending, p);
      ghost var commit := Commit(ClaimOp(id, max, t.now, lease));
      ActsAppend(p, id, filter, t.first, [commit]);
      OneEvent(q, id, filter, commit);
      draining := id in fan.db.core.consumers && fan.db.core.consumers[id].drainingAt.Some?;
      ClaimStepKept(fan.db, id, max, t.now, t.now + lease);
      var db;
      db, claimed := ClaimLocked(fan.db, id, max, t.now, t.now + lease);
      fan.db := db;
      ClaimCommits(q, id, filter, max, t.now, lease);
      q := Act(q, id, filter, commit);
    }

    /**
     One claim: the preflight read, then the locked half, then another read if that was empty,
     with the events of others in between.
     */
    method Claim(max: nat, lease: int, t: Turn, pending: multiset<Notice>, ghost p: Poller)
      returns (r: Result<ClaimResult>, left: multiset<Notice>, ghost q: Poller)
      requires fan.Valid() && Wired() && TurnOk(t) && lease >= 0 && Mirrors(p, pending) && p.phase.Reading?
      modifies fan`db, fan.hub.allPublishes`version, fan.hub.topics`entries, fan.hub.topics.made.Keys, fan.hub.consumers`entries, fan.hub.consumers.made.Keys
      ensures fan.Valid() && Wired() && fan.hub.topics.made == old(fan.hub.topics.made) && fan.hub.consumers.made == old(fan.hub.consumers.made)
      ensures (fan.db, r) == ClaimOf(old(fan.db), id, max, lease, t)
      ensures q == Acts(p, id, filter, ClaimEvents(old(fan.db), id, max, lease, t)) && Mirrors(q, left)
    {
      hide Wf, Wired, Run, OpsOf, Acts, AllOfOthers, ReadConsumer, Transactions.Claim, AfterEmpty;
      left, q := pending, p;
      NoEvents(p, id, filter);
      OneEvent(p, id, filter, Read);
      var state := ReadConsumer(fan.db, id);
      if state.None? {
        return Err(ConsumerDeleted), left, q;
      }
      if NothingDue(state.value, t.now) {
        q := Act(q, id, filter, Read);
        return Ok(ClaimResult([], state.value.earliest, state.value.draining)), left, q;
      }
      if t.now + lease > I64_MAX {
        return Err(DurationOutOfRange), left, q;
      }
      LockedEvents(p, id, filter, max, lease, t);
      ghost var events := t.first + [Commit(ClaimOp(id, max, t.now, lease))];
      var claimed, draining;
      claimed, draining, left, q := ClaimInLock(max, lease, t, left, q);
      assert events + [] == events;
      if claimed.Err? {
        return Err(claimed.error), left, q;
      }
      if claimed.value != [] {
        return Ok(ClaimResult(claimed.value, None, draining)), left, q;
      }
      OthersAct(q, id, filter, t.second);
      ActsAppend(q, id, filter, t.second, [Read]);
      ActsAppend(p, id, filter, events, t.second + [Read]);
      left, q := Meanwhile(t.second, left, q);
      OneEvent(q, id, filter, Read);
      q := Act(q, id, filter, Read);
      r := AfterEmpty(fan.db, id, t.now);
    }

    /** The start of a turn: both receivers are marked as seen, then the claim reads. */
    method MarkAndClaim(publishes: Receiver, changes: Receiver, max: nat, lease: int, t: Turn, pending: multiset<Notice>, ghost p: Poller)
      returns (r: Result<ClaimResult>, left: multiset<Notice>, ghost q: Poller)
      requires fan.Valid() && Wired() && TurnOk(t) && lease >= 0 && Mirrors(p, pending) && p.phase.Marking?
      requires publishes != changes && publishes.signal == publishSignal && changes.signal == consumerSignal
      modifies fan`db, fan.hub.allPublishes`version, fan.hub.topics`entries, fan.hub.topics.made.Keys, fan.hub.consumers`entries, fan.hub.consumers.made.Keys
      modifies publishes, changes
      ensures fan.Valid() && Wired() && fan.hub.topics.made == old(fan.hub.topics.made) && fan.hub.consumers.made == old(fan.hub.consumers.made)
      ensures (fan.db, r) == ClaimOf(old(fan.db), id, max, lease, t)
      ensures q == AfterClaim(p, id, filter, max, lease, t) && Mirrors(q, left)
      ensures q.seenPublishes == publishes.seen == old(publishSignal.version) && q.seenChanges == changes.seen == old(consumerSignal.version)
    {
      hide Wf, Wired, Acts, ClaimOf, ClaimEvents, TurnOk;
      publishes.BorrowAndUpdate();
      changes.BorrowAndUpdate();
      ghost var marked := Act(p, id, filter, Mark);
      ClaimActs(p, id, filter, max, lease, t);
      ClaimTraced(p, id, filter, max, lease, t);
      r, left, q := Claim(max, lease, t, pending, marked);
    }

    /** The end of a turn: others act while the poll sleeps, until a change or the timer wakes it. */
    method SleepAndWake(t: Turn, nextVisibleAt: Option<int>, pending: multiset<Notice>, ghost p: Poller)
      returns (nap: Duration, left: multiset<Notice>, ghost q: Poller)
      requires fan.Valid() && Wired() && AllOfOthers(t.asleep) && Mirrors(p, pending) && p.phase.Sleeping?
      modifies fan`db, fan.hub.allPublishes`version, fan.hub.topics`entries, fan.hub.topics.made.Keys, fan.hub.consumers`entries, fan.hub.consumers.made.Keys
      ensures fan.Valid() && Wired() && fan.hub.topics.made == old(fan.hub.topics.made) && fan.hub.consumers.made == old(fan.hub.consumers.made)
      ensures q == Acts(p, id, filter, t.asleep + [Wake]) && Mirrors(q, left) && q.phase.Marking?
      ensures fan.db == Run(old(fan.db), OpsOf(t.asleep)) && q.seenPublishes == p.seenPublishes && q.seenChanges == p.seenChanges
      ensures nap == SleepFor(t.remaining, fan.pollInterval, nextVisibleAt, t.wokenAt) && nap <= Min(t.remaining, fan.pollInterval)
    {
      hide Wf, Wired, Run, OpsOf, Acts, DurationUntil;
      SleepIsBounded(t.remaining, fan.pollInterval, nextVisibleAt, t.wokenAt);
      nap := SleepFor(t.remaining, fan.pollInterval, nextVisibleAt, t.wokenAt);
      OthersAct(p, id, filter, t.asleep);
      ActsAppend(p, id, filter, t.asleep, [Wake]);
      left, q := Meanwhile(t.asleep, pending, p);
      OneEvent(q, id, filter, Wake);
      q := Act(q, id, filter, Wake);
    }

    /** One turn: mark, claim, and sleep unless the claim or the end of the wait ends the poll. */
    method TakeTurn(publishes: Receiver, changes: Receiver, max: nat, lease: int, t: Turn, pending: multiset<Notice>, ghost p: Poller)
      returns (done: Option<Result<seq<Delivery>>>, nap: Duration, left: multiset<Notice>, ghost q: Poller)
      requires fan.Valid() && Wired() && TurnOk(t) && lease >= 0 && Mirrors(p, pending) && p.phase.Marking?
      requires publishes != changes && publishes.signal == publishSignal && changes.signal == consumerSignal
      modifies fan`db, fan.hub.allPublishes`version, fan.hub.topics`entries, fan.hub.topics.made.Keys, fan.hub.consumers`entries, fan.hub.consumers.made.Keys
      modifies publishes, changes
      ensures fan.Valid() && Wired() && fan.hub.topics.made == old(fan.hub.topics.made) && fan.hub.consumers.made == old(fan.hub.consumers.made)
      ensures Mirrors(q, left) && q.seenPublishes == publishes.seen && q.seenChanges == changes.seen
      ensures var (after, claim) := ClaimOf(old(fan.db), id, max, lease, t); var claimed := AfterClaim(p, id, filter, max, lease, t);
        if Sleeps(claim, t) then
          && done.None? && fan.db == Run(after, OpsOf(t.asleep)) && q == Acts(claimed, id, filter, t.asleep + [Wake]) && q.phase.Marking?
          && nap == SleepFor(t.remaining, fan.pollInterval, claim.value.nextVisibleAt, t.wokenAt) && nap <= Min(t.remaining, fan.pollInterval)
        else
          && done == Some(if claim.Err? then Err(claim.error) else Ok(claim.value.deliveries))
          && fan.db == after && q == claimed
    {
      hide Wf, Wired, Run, OpsOf, Acts, ClaimOf, AfterClaim, AllOfOthers, SleepFor;
      nap := 0;
      ClaimActs(p, id, filter, max, lease, t);
      var claim;
      claim, left, q := MarkAndClaim(publishes, changes, max, lease, t, pending, p);
      if claim.Err? {
        return Some(Err(claim.error)), nap, left, q;
      }
      if claim.value.deliveries != [] {
        return Some(Ok(claim.value.deliveries)), nap, left, q;
      }
      if claim.value.draining && claim.value.nextVisibleAt.None? {
        return Some(Ok([])), nap, left, q;
      }
      if t.remaining == 0 {
        return Some(Ok([])), nap, left, q;
      }
      done := None;
      nap, left, q := SleepAndWake(t, claim.value.nextVisibleAt, left, q);
    }

    /**
     The loop of a poll. In every turn both receivers are marked as seen before the claim reads;
     `naps` are the bounds of the sleeps. The tables, the signals and the receivers end as the
     protocol's state does after the events of the poll.
     */
    method PollWith(publishes: Receiver, changes: Receiver, max: nat, lease: int, turns: seq<Turn>, pending: multiset<Notice>, ghost p: Poller)
      returns (r: Result<seq<Delivery>>, naps: seq<Duration>, left: multiset<Notice>, ghost q: Poller)
      requires fan.Valid() && Wired() && Wait(turns) && lease >= 0
      requires publishes != changes && publishes.signal == publishSignal && changes.signal == consumerSignal
      requires Mirrors(p, pending) && p.phase.Marking? && p.seenPublishes == publishes.seen && p.seenChanges == changes.seen
      modifies fan`db, fan.hub.allPublishes`version, fan.hub.topics`entries, fan.hub.topics.made.Keys, fan.hub.consumers`entries, fan.hub.consumers.made.Keys
      modifies publishes, changes
      ensures fan.Valid() && Wired()
      ensures (fan.db, r) == PollFrom(old(fan.db), id, max, lease, turns)
      ensures q == Acts(p, id, filter, PollTrace(old(fan.db), id, max, lease, turns)) && Mirrors(q, left)
      ensures q.seenPublishes == publishes.seen && q.seenChanges == changes.seen
      ensures naps == PollNaps(old(fan.db), id, max, lease, fan.pollInterval, turns)
      ensures |naps| < |turns| && forall i | 0 <= i < |naps| :: naps[i] <= Min(turns[i].remaining, fan.pollInterval)
    {
      hide Wf, Wired, Run, OpsOf, Acts, PollNaps, SleepFor, ClaimOf, AfterClaim, PollFrom, PollTrace, Wait, Sleeps, TurnOk;
      naps, left, q := [], pending, p;
      FirstTurn(turns);
      var i := 0;
      assert turns[0..] == turns;
      while true
        invariant 0 <= i < |turns| && |naps| == i && Wait(turns[i..])
        invariant fan.Valid() && Wired() && fan.hub.topics.made == old(fan.hub.topics.made) && fan.hub.consumers.made == old(fan.hub.consumers.made)
        invariant Mirrors(q, left) && q.phase.Marking? && q.seenPublishes == publishes.seen && q.seenChanges == changes.seen
        invariant PollFrom(old(fan.db), id, max, lease, turns) == PollFrom(fan.db, id, max, lease, turns[i..])
        invariant Acts(p, id, filter, PollTrace(old(fan.db), id, max, lease, turns)) == Acts(q, id, filter, PollTrace(fan.db, id, max, lease, turns[i..]))
        invariant PollNaps(old(fan.db), id, max, lease, fan.pollInterval, turns) == naps + PollNaps(fan.db, id, max, lease, fan.pollInterval, turns[i..])
        invariant forall j | 0 <= j < |naps| :: naps[j] <= Min(turns[j].remaining, fan.pollInterval)
        decreases |turns| - i
      {
        assert turns[i..][0] == turns[i] && turns[i..][1..] == turns[i + 1..];
        FirstTurn(turns[i..]);
        TurnTraced(q, id, filter, max, lease, turns[i..]);
        TurnNaps(fan.db, id, max, lease, fan.pollInterval, turns[i..]);
        var done, nap;
        done, nap, left, q := TakeTurn(publishes, changes, max, lease, turns[i], left, q);
        if done.Some? {
          return done.value, naps, left, q;
        }
        naps, i := naps + [nap], i + 1;
      }
    }

    /** Claims until something is delivered, the consumer turns out drained, or the wait is over. */
    method Poll(max: nat, timeout: Duration, turns: seq<Turn>, pending: multiset<Notice>)
      returns (r: Result<seq<Delivery>>, naps: seq<Duration>, left: multiset<Notice>, ghost start: Poller, ghost q: Poller)
      requires fan.Valid() && Wired() && Wait(turns)
      modifies fan`db, fan.hub.allPublishes`version, fan.hub.topics`entries, fan.hub.topics.made.Keys, fan.hub.consumers`entries, fan.hub.consumers.made.Keys
      ensures fan.Valid() && Wired() && Mirrors(q, left)
      ensures start == old(Poller(fan.db, {}, Marking, publishSignal.version, publishSignal.version, consumerSignal.version, consumerSignal.version, pending))
      ensures if max == 0 then r == Ok([]) && q == start
              else if max > fan.maxBatchSize then r == Err(BatchTooLarge(max, fan.maxBatchSize)) && q == start
              else if DurationMs(timeout).Err? then r == Err(DurationOutOfRange) && q == start
              else if DurationMs(timeout).value == 0 then r == Err(InvalidVisibilityTimeout) && q == start
              else
                && (fan.db, r) == PollFrom(old(fan.db), id, max, DurationMs(timeout).value, turns)
                && q == Acts(start, id, filter, PollTrace(old(fan.db), id, max, DurationMs(timeout).value, turns))
                && naps == PollNaps(old(fan.db), id, max, DurationMs(timeout).value, fan.pollInterval, turns)
      ensures |naps| < |turns| && forall i | 0 <= i < |naps| :: naps[i] <= Min(turns[i].remaining, fan.pollInterval)
    {
      hide Wf, DurationMs, PollFrom, PollTrace, PollNaps, Acts;
      start := Poller(fan.db, {}, Marking, publishSignal.version, publishSignal.version, consumerSignal.version, consumerSignal.version, pending);
      naps, left, q := [], pending, start;
      if max == 0 {
        return Ok([]), naps, left, start, q;
      }
      if fan.EnsureBatchSize(max).Some? {
        return Err(fan.EnsureBatchSize(max).value), naps, left, start, q;
      }
      var lease := DurationMs(timeout);
      if lease.Err? {
        return Err(DurationOutOfRange), naps, left, start, q;
      }
      if lease.value == 0 {
        return Err(InvalidVisibilityTimeout), naps, left, start, q;
      }
      var publishes := new Receiver(publishSignal);
      var changes := new Receiver(consumerSignal);
      r, naps, left, q := PollWith(publishes, changes, max, lease.value, turns, pending, start);
    }
  }

  // ---- Small facts ----------------------------------------------------------------------

  lemma EmptyName(db: Db, filter: Option<string>, now: int)
    ensures OpenConsumer(db, "", filter, now) == (db, Err(EmptyConsumerName))
  {
  }

  lemma StepIsWf(db: Db, op: Op)
    requires Wf(db) && OnCore(op)
    ensures Wf(Db(CoreStep(db.core, op).0, db.cursors))
    ensures !Refused(CoreStep(db.core, op).1)
  {
    hide Wf, Step, CoreStep, Refused;
    StepKept(db, op);
    StepOnCore(db, op);
  }

  lemma PurgeNothing(core: Core, cid: nat, before: int)
    ensures Transactions.PurgeArchives(core, cid, before, 0) == (core, 0)
  {
    hide Lowest;
    assert PurgeVictims(core, cid, before, 0) == {};
    assert core.archives - {} == core.archives;
  }
}
