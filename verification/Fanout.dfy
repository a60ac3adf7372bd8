/**
 The design litefan replaces: publishing puts one copy of a message into the inbox of every
 active consumer whose filter takes it. No cursors, no log scan, no high-water mark.
 */
module Fanout {
  import opened Prelude
  import opened Ranking
  import opened Schema
  import opened Transactions
  import opened Runs

  /** `pending` holds, for each consumer, the copies it has not been handed yet. */
  datatype Eager = Eager(core: Core, pending: map<nat, set<nat>>)

  /** Every message id a consumer, a delivery or an archive still holds. */
  predicate Held(e: Eager, m: nat) {
    Referenced(e.core, m) || exists c | c in e.pending :: m in e.pending[c]
  }

  /** The copies of the messages in `after` but not in `before`, for one consumer. */
  function Copies(before: Core, after: Core, row: ConsumerRow): set<nat> {
    if row.drainingAt.Some? then {}
    else set m | m in after.messages && m !in before.messages && Matches(row.filter, after.messages[m].topic)
  }

  function FanOut(e: Eager, batch: seq<Publish>, now: int, window: int): (Eager, Outcome) {
    var (after, outcomes) := PublishAll(e.core, batch, now, window);
    var pending := map c | c in e.pending ::
      e.pending[c] + (if c in e.core.consumers then Copies(e.core, after, e.core.consumers[c]) else {});
    (Eager(after, pending), PublishedAll(outcomes))
  }

  function Deliver(e: Eager, cid: nat, max: nat, now: int, deadline: int): (Eager, Result<seq<Delivery>>) {
    if cid !in e.core.consumers || cid !in e.pending then (e, Err(ConsumerDeleted))
    else
      var retries := Retries(e.core, cid, max, now);
      var taken := Lowest(e.pending[cid], max - |retries|);
      var (after, claimed) := LeaseOut(e.core, cid, retries, taken, deadline);
      if claimed == Err(ConstraintViolation) then (e, claimed)
      else (Eager(after, e.pending[cid := e.pending[cid] - taken]), claimed)
  }

  function Subscribe(e: Eager, name: string, filter: Option<string>, now: int): (Eager, Result<nat>) {
    if name == "" then (e, Err(EmptyConsumerName))
    else
      match FindConsumer(e.core, name)
      case Some(id) =>
        if e.core.consumers[id].filter != filter then (e, Err(ConsumerConfigurationMismatch)) else (e, Ok(id))
      case None =>
        var id := e.core.consumerSeq + 1;
        var core := e.core.(consumers := e.core.consumers[id := ConsumerRow(name, filter, now, None)], consumerSeq := id);
        (Eager(core, e.pending[id := {}]), Ok(id))
  }

  function Unsubscribe(e: Eager, name: string, mode: DeleteMode): (Eager, Result<DeleteOutcome>) {
    match FindConsumer(e.core, name)
    case None => (e, Err(ConsumerNotFound))
    case Some(id) =>
      if id !in e.pending then (e, Err(ConsumerNotFound))
      else
        var (core, deleted) := Remove(e.core, id, mode, |e.pending[id]|);
        if deleted.Ok? then (Eager(core, e.pending - {id}), deleted) else (e, deleted)
  }

  function Forget(e: Eager, before: int, limit: nat): (Eager, Result<nat>) {
    var idle := set m | m in e.core.messages && e.core.messages[m].publishedAt < before && !Held(e, m);
    var (core, pruned) := DropMessages(e.core, Lowest(idle, limit));
    (Eager(core, e.pending), pruned)
  }

  function EagerStep(e: Eager, op: Op): (Eager, Outcome) {
    match op
    case OpenOp(name, filter, now) =>
      var (after, r) := Subscribe(e, name, filter, now); (after, Opened(r))
    case DrainOp(cid, now) =>
      var (core, r) := MarkDraining(e.core, cid, now); (Eager(core, e.pending), Drained(r))
    case PublishOp(batch, now, window) => FanOut(e, batch, now, window)
    case ClaimOp(cid, max, now, lease) =>
      var (after, r) := Deliver(e, cid, max, now, now + lease); (after, Claimed(r))
    case SnapshotOp(cid, now) =>
      (e, Viewed(if cid !in e.core.consumers || cid !in e.pending then Err(ConsumerDeleted)
                 else Ok(SnapshotOf(e.core, cid, e.pending[cid], now))))
    case DeleteOp(name, mode) =>
      var (after, r) := Unsubscribe(e, name, mode); (after, Deleted(r))
    case PruneOp(before, limit) =>
      var (after, r) := Forget(e, before, limit); (after, Pruned(r))
    case _ =>
      var (core, r) := CoreStep(e.core, op); (Eager(core, e.pending), r)
  }

  function EagerRun(e: Eager, ops: seq<Op>): Eager
    decreases |ops|
  {
    if ops == [] then e else EagerRun(EagerStep(e, ops[0]).0, ops[1..])
  }

  function EagerOutcomes(e: Eager, ops: seq<Op>): seq<Outcome>
    decreases |ops|
  {
    if ops == [] then [] else [EagerStep(e, ops[0]).1] + EagerOutcomes(EagerStep(e, ops[0]).0, ops[1..])
  }

  /** The inboxes a litefan state stands for: retained matching ids the scan has still to take. */
  function Backlog(db: Db, c: nat): set<nat>
    requires c in db.cursors && c in db.core.consumers
  {
    Unseen(db.core.messages, db.core.consumers[c].filter, db.cursors[c])
  }

  function Abstract(db: Db): Eager {
    Eager(db.core, map c | c in db.cursors && c in db.core.consumers :: Backlog(db, c))
  }

  /** The facts about inboxes that the cursors guarantee. */
  ghost predicate PendingOk(e: Eager) {
    && e.pending.Keys == e.core.consumers.Keys
    && (forall c, m | c in e.pending && m in e.pending[c] ::
          && SlotOk(e.core, Slot(c, m))
          && Slot(c, m) !in e.core.deliveries
          && (forall a | a in e.core.archives :: e.core.archives[a].slot != Slot(c, m)))
  }

  ghost predicate EagerWf(e: Eager) {
    CoreOk(e.core) && PendingOk(e)
  }

  lemma AbstractWf(db: Db)
    requires Wf(db)
    ensures EagerWf(Abstract(db))
  {
    var e := Abstract(db);
    forall c, m | c in e.pending && m in e.pending[c]
      ensures SlotOk(e.core, Slot(c, m)) && Slot(c, m) !in e.core.deliveries
      ensures forall a | a in e.core.archives :: e.core.archives[a].slot != Slot(c, m)
    {
      if Slot(c, m) in db.core.deliveries { assert false; }
    }
  }
}
