/**
 Why one set-based transaction can stand for publishing a batch message by message: which
 messages of a batch are inserted, with which ids, and what the ledger holds afterwards.
 */
module Publishing {
  import opened Prelude
  import opened Ranking
  import opened Schema
  import opened Transactions
  import opened Idempotency
  import opened Storage

  /**
   What is to be inserted of a batch: the positions, the messages at them, the ids those get
   by key, and what every caller is told.
   */
  datatype Plan = Plan(positions: seq<nat>, chosen: seq<Publish>, filled: map<Bytes, nat>, told: seq<PublishOutcome>)

  /** The live ledger with message ids filled in for some keys; entries keep the expiry they have. */
  function Filled(live: map<Bytes, LedgerEntry>, filled: map<Bytes, nat>, expiresAt: int): map<Bytes, LedgerEntry> {
    map k | k in live.Keys + filled.Keys ::
      if k in filled then LedgerEntry(Some(filled[k]), if k in live then live[k].expiresAt else expiresAt) else live[k]
  }

  predicate Complete(live: map<Bytes, LedgerEntry>, k: Bytes) {
    k in live && live[k].messageId.Some?
  }

  /** A message is inserted unless its key has an id already, from the ledger or from earlier in the batch. */
  predicate Takes(live: map<Bytes, LedgerEntry>, scheduled: set<Bytes>, p: Publish) {
    p.key.None? || (!Complete(live, p.key.value) && p.key.value !in scheduled)
  }

  function Schedule(live: map<Bytes, LedgerEntry>, messages: seq<Publish>, last: nat): (plan: Plan)
    ensures |plan.positions| == |plan.chosen| <= |messages| == |plan.told|
    decreases |messages|
  {
    if messages == [] then Plan([], [], map[], [])
    else
      var n := |messages| - 1;
      var p := messages[n];
      var before := Schedule(live, messages[..n], last);
      var id := last + 1 + |before.positions|;
      if Takes(live, before.filled.Keys, p) then
        Plan(before.positions + [n], before.chosen + [p], if p.key.Some? then before.filled[p.key.value := id] else before.filled,
             before.told + [Published(id)])
      else
        before.(told := before.told + [Duplicate(if p.key.value in before.filled then before.filled[p.key.value] else live[p.key.value].messageId.value)])
  }

  // ---- The fold follows the plan --------------------------------------------------------

  lemma PurgedFilled(live: map<Bytes, LedgerEntry>, filled: map<Bytes, nat>, now: int, expiresAt: int)
    requires now < expiresAt && forall k | k in live :: now < live[k].expiresAt
    ensures PurgeExpired(Filled(live, filled, expiresAt), now) == Filled(live, filled, expiresAt)
  {
  }

  lemma PurgeLeavesLive(ledger: map<Bytes, LedgerEntry>, now: int)
    ensures forall k | k in PurgeExpired(ledger, now) :: now < PurgeExpired(ledger, now)[k].expiresAt
    ensures PurgeExpired(PurgeExpired(ledger, now), now) == PurgeExpired(ledger, now)
  {
  }

  lemma NothingFilled(live: map<Bytes, LedgerEntry>, expiresAt: int)
    ensures Filled(live, map[], expiresAt) == live
  {
  }

  /** One publish on a ledger that is the plan's so far. */
  lemma PublishFollows(core: Core, p: Publish, live: map<Bytes, LedgerEntry>, filled: map<Bytes, nat>, now: int, window: int)
    requires PurgeExpired(core.ledger, now) == Filled(live, filled, now + window)
    ensures var (after, outcome) := PublishOne(core, p, now, window);
      if Takes(live, filled.Keys, p) then
        && outcome == Published(core.messageSeq + 1)
        && after == InsertMessage(core, p, now).(ledger :=
             if p.key.Some? then Filled(live, filled[p.key.value := core.messageSeq + 1], now + window) else core.ledger)
      else
        && outcome == Duplicate(if p.key.value in filled then filled[p.key.value] else live[p.key.value].messageId.value)
        && after == core.(ledger := Filled(live, filled, now + window))
  {
    if p.key.Some? && Takes(live, filled.Keys, p) {
      var k, id := p.key.value, core.messageSeq + 1;
      var expiresAt := if k in live then live[k].expiresAt else now + window;
      assert Filled(live, filled, now + window)[k := LedgerEntry(Some(id), expiresAt)] == Filled(live, filled[k := id], now + window);
    }
  }

  /** The ledger a prefix of the batch has left: untouched until its first keyed message. */
  function LedgerSoFar(core: Core, messages: seq<Publish>, now: int, window: int): map<Bytes, LedgerEntry> {
    var live := PurgeExpired(core.ledger, now);
    if Keyed(messages) then Filled(live, Schedule(live, messages, core.messageSeq).filled, now + window) else core.ledger
  }

  lemma {:induction false} UnkeyedPlan(live: map<Bytes, LedgerEntry>, messages: seq<Publish>, last: nat)
    requires !Keyed(messages)
    ensures var plan := Schedule(live, messages, last);
      && plan.filled == map[] && plan.chosen == messages && |plan.positions| == |messages|
      && forall i | 0 <= i < |messages| :: plan.told[i] == Published(last + 1 + i)
    decreases |messages|
  {
    if messages != [] {
      KeyedParts(messages);
      UnkeyedPlan(live, messages[..|messages| - 1], last);
    }
  }

  lemma PurgedSoFar(core: Core, messages: seq<Publish>, now: int, window: int)
    requires window > 0
    ensures var live := PurgeExpired(core.ledger, now);
      PurgeExpired(LedgerSoFar(core, messages, now, window), now) == Filled(live, Schedule(live, messages, core.messageSeq).filled, now + window)
  {
    hide PurgeExpired, Filled, Schedule;
    var live := PurgeExpired(core.ledger, now);
    PurgeLeavesLive(core.ledger, now);
    if Keyed(messages) {
      PurgedFilled(live, Schedule(live, messages, core.messageSeq).filled, now, now + window);
    } else {
      UnkeyedPlan(live, messages, core.messageSeq);
      NothingFilled(live, now + window);
    }
  }

  /** Publishing one message after another is: insert what the plan chose, fill what it filled, tell what it told. */
  lemma {:induction false} FoldFollowsPlan(core: Core, messages: seq<Publish>, now: int, window: int)
    requires window > 0
    ensures var plan := Schedule(PurgeExpired(core.ledger, now), messages, core.messageSeq);
      PublishAll(core, messages, now, window) ==
        (InsertAll(core, plan.chosen, now).(ledger := LedgerSoFar(core, messages, now, window)), plan.told)
    decreases |messages|
  {
    hide PurgeExpired, Filled, PublishOne, Complete, Keyed, LedgerSoFar;
    var live := PurgeExpired(core.ledger, now);
    if messages == [] {
      NothingSoFar(core, now, window);
    } else {
      var n := |messages| - 1;
      FoldFollowsPlan(core, messages[..n], now, window);
      PurgedSoFar(core, messages[..n], now, window);
      var before := Schedule(live, messages[..n], core.messageSeq);
      var middle := PublishAll(core, messages[..n], now, window).0;
      PublishFollows(middle, messages[n], live, before.filled, now, window);
      StepsLedger(core, messages, now, window);
      assert (before.chosen + [messages[n]])[..|before.chosen|] == before.chosen;
      InsertIgnoresLedger(InsertAll(core, before.chosen, now), messages[n], now, LedgerSoFar(core, messages[..n], now, window));
    }
  }

  lemma NothingSoFar(core: Core, now: int, window: int)
    ensures LedgerSoFar(core, [], now, window) == core.ledger
  {
  }

  lemma InsertIgnoresLedger(core: Core, p: Publish, now: int, ledger: map<Bytes, LedgerEntry>)
    ensures InsertMessage(core.(ledger := ledger), p, now) == InsertMessage(core, p, now).(ledger := ledger)
  {
  }

  /** How the ledger of a prefix moves with its last message. */
  lemma StepsLedger(core: Core, messages: seq<Publish>, now: int, window: int)
    requires messages != []
    ensures var n, live := |messages| - 1, PurgeExpired(core.ledger, now);
      var before := Schedule(live, messages[..n], core.messageSeq);
      LedgerSoFar(core, messages, now, window) ==
        if messages[n].key.None? then LedgerSoFar(core, messages[..n], now, window)
        else if Takes(live, before.filled.Keys, messages[n]) then
          Filled(live, before.filled[messages[n].key.value := core.messageSeq + 1 + |before.positions|], now + window)
        else Filled(live, before.filled, now + window)
  {
    hide PurgeExpired, Filled, Keyed;
    KeyedParts(messages);
  }

  // ---- What the plan says ---------------------------------------------------------------

  /** A chosen message with a key fills that key with its own id. */
  lemma {:induction false} ChosenIsFilled(live: map<Bytes, LedgerEntry>, messages: seq<Publish>, last: nat, j: nat)
    requires j < |Schedule(live, messages, last).chosen| && Schedule(live, messages, last).chosen[j].key.Some?
    ensures var plan := Schedule(live, messages, last); var k := plan.chosen[j].key.value;
      k in plan.filled && plan.filled[k] == last + 1 + j
    decreases |messages|
  {
    hide Complete;
    var before := Schedule(live, messages[..|messages| - 1], last);
    if j < |before.chosen| {
      ChosenIsFilled(live, messages[..|messages| - 1], last, j);
    }
  }

  /** A key is filled with the id of a chosen message that has it. */
  lemma {:induction false} FilledIsChosen(live: map<Bytes, LedgerEntry>, messages: seq<Publish>, last: nat, k: Bytes)
    requires k in Schedule(live, messages, last).filled
    ensures var plan := Schedule(live, messages, last);
      last < plan.filled[k] <= last + |plan.chosen| && plan.chosen[plan.filled[k] - last - 1].key == Some(k)
    decreases |messages|
  {
    hide Complete;
    var before := Schedule(live, messages[..|messages| - 1], last);
    if k in before.filled {
      FilledIsChosen(live, messages[..|messages| - 1], last, k);
    }
  }

  /** Every key of the batch ends with an id: its own of this batch, or the ledger's. */
  lemma {:induction false} EveryKeyFilled(live: map<Bytes, LedgerEntry>, messages: seq<Publish>, last: nat, x: nat)
    requires x < |messages| && messages[x].key.Some?
    ensures messages[x].key.value in Schedule(live, messages, last).filled || Complete(live, messages[x].key.value)
    decreases |messages|
  {
    if x < |messages| - 1 {
      EveryKeyFilled(live, messages[..|messages| - 1], last, x);
    }
  }

  /** Only keys of the batch are filled, and none the ledger had an id for. */
  lemma {:induction false} FilledWasOpen(live: map<Bytes, LedgerEntry>, messages: seq<Publish>, last: nat, k: Bytes)
    requires k in Schedule(live, messages, last).filled
    ensures !Complete(live, k) && exists x :: 0 <= x < |messages| && messages[x].key == Some(k)
    decreases |messages|
  {
    var n := |messages| - 1;
    if k in Schedule(live, messages[..n], last).filled {
      FilledWasOpen(live, messages[..n], last, k);
      var x :| 0 <= x < n && messages[..n][x].key == Some(k);
      assert messages[x].key == Some(k);
    } else {
      assert messages[n].key == Some(k);
    }
  }

  /** The chosen positions ascend, and hold the chosen messages. */
  lemma {:induction false} PositionsHold(live: map<Bytes, LedgerEntry>, messages: seq<Publish>, last: nat)
    ensures var plan := Schedule(live, messages, last);
      Ascending(plan.positions) && forall j | 0 <= j < |plan.positions| :: plan.positions[j] < |messages| && messages[plan.positions[j]] == plan.chosen[j]
    decreases |messages|
  {
    if messages != [] {
      PositionsHold(live, messages[..|messages| - 1], last);
    }
  }

  /** At a chosen position the caller is told the new id. */
  lemma {:induction false} ChosenTold(live: map<Bytes, LedgerEntry>, messages: seq<Publish>, last: nat, j: nat)
    requires j < |Schedule(live, messages, last).positions|
    ensures var plan := Schedule(live, messages, last);
      plan.positions[j] < |messages| && plan.told[plan.positions[j]] == Published(last + 1 + j)
    decreases |messages|
  {
    var n := |messages| - 1;
    var before := Schedule(live, messages[..n], last);
    if j < |before.positions| {
      ChosenTold(live, messages[..n], last, j);
    }
  }

  /** At any other position it is told the id its key ends with. */
  lemma {:induction false} OthersTold(live: map<Bytes, LedgerEntry>, messages: seq<Publish>, last: nat, x: nat)
    requires x < |messages| && x !in Schedule(live, messages, last).positions
    ensures messages[x].key.Some?
    ensures var plan, k := Schedule(live, messages, last), messages[x].key.value;
      && (k in plan.filled || Complete(live, k))
      && plan.told[x] == Duplicate(if k in plan.filled then plan.filled[k] else live[k].messageId.value)
    decreases |messages|
  {
    var n := |messages| - 1;
    var before := Schedule(live, messages[..n], last);
    if x < n {
      assert x !in before.positions;
      OthersTold(live, messages[..n], last, x);
      assert messages[..n][x] == messages[x];
    } else {
      assert (before.positions + [n])[|before.positions|] == n;
      assert !Takes(live, before.filled.Keys, messages[n]);
    }
  }
}
