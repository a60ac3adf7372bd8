/**
 The store handle: publishing, deletion, retention and inspection, as the sequence of
 statements each runs in its transaction. A transaction works on a copy of the tables that
 becomes the database when it commits.
 */
module Store {
  import opened Prelude
  import opened Ranking
  import opened Schema
  import opened Transactions
  import opened Invariants
  import opened Idempotency
  import opened Storage
  import opened Publishing
  import opened Fanout
  import opened LazyIsEager
  import opened Backlogs
  import opened Time
  import opened Wakeups
  import opened Signals
  import opened Notifying
  import Runs

  // ---- Ledger statements ----------------------------------------------------------------

  /** The ledger with an incomplete entry for each key it lacks. */
  function Reserved(ledger: map<Bytes, LedgerEntry>, keys: set<Bytes>, expiresAt: int): map<Bytes, LedgerEntry> {
    map k | k in ledger.Keys + keys :: if k in ledger then ledger[k] else LedgerEntry(None, expiresAt)
  }

  function KeySet(keys: seq<Bytes>): set<Bytes> {
    set k | k in keys
  }

  /** INSERT INTO litefan_idempotency ... ON CONFLICT DO NOTHING. */
  function InsertKeysStatement(ledger: map<Bytes, LedgerEntry>, keys: seq<Bytes>, expiresAt: int): map<Bytes, LedgerEntry>
    requires 2 * |keys| <= MAX_SQL_VARIABLES
  {
    Reserved(ledger, KeySet(keys), expiresAt)
  }

  lemma ReservedTwice(ledger: map<Bytes, LedgerEntry>, a: set<Bytes>, b: set<Bytes>, expiresAt: int)
    ensures Reserved(Reserved(ledger, a, expiresAt), b, expiresAt) == Reserved(ledger, a + b, expiresAt)
  {
  }

  lemma KeySetJoin(first: seq<Bytes>, second: seq<Bytes>)
    ensures KeySet(first + second) == KeySet(first) + KeySet(second)
  {
  }

  lemma NoneReserved(ledger: map<Bytes, LedgerEntry>, expiresAt: int)
    ensures Reserved(ledger, KeySet([]), expiresAt) == ledger
  {
  }

  method ReserveKeys(ledger: map<Bytes, LedgerEntry>, keys: seq<Bytes>, expiresAt: int) returns (after: map<Bytes, LedgerEntry>)
    ensures after == Reserved(ledger, KeySet(keys), expiresAt)
  {
    hide Reserved, KeySet;
    after := ledger;
    var i := 0;
    NoneReserved(ledger, expiresAt);
    while i < |keys|
      invariant i <= |keys| && after == Reserved(ledger, KeySet(keys[..i]), expiresAt)
    {
      var chunk := Chunk(keys, i, MAX_SQL_VARIABLES / 2);
      ReservedTwice(ledger, KeySet(keys[..i]), KeySet(chunk), expiresAt);
      KeySetJoin(keys[..i], chunk);
      assert keys[..i + |chunk|] == keys[..i] + chunk;
      after := InsertKeysStatement(after, chunk, expiresAt);
      i := i + |chunk|;
    }
    assert keys[..i] == keys;
  }

  /** SELECT key, message_id ... WHERE key IN (...). */
  function SelectKeysStatement(ledger: map<Bytes, LedgerEntry>, keys: seq<Bytes>): map<Bytes, Option<nat>>
    requires |keys| <= MAX_SQL_VARIABLES
  {
    map k | k in ledger && k in keys :: ledger[k].messageId
  }

  method LookUpKeys(ledger: map<Bytes, LedgerEntry>, keys: seq<Bytes>) returns (found: map<Bytes, Option<nat>>)
    ensures found.Keys == ledger.Keys * KeySet(keys)
    ensures forall k | k in found :: found[k] == ledger[k].messageId
  {
    found := map[];
    var i := 0;
    while i < |keys|
      invariant i <= |keys| && found.Keys == ledger.Keys * KeySet(keys[..i])
      invariant forall k | k in found :: found[k] == ledger[k].messageId
    {
      var chunk := Chunk(keys, i, MAX_SQL_VARIABLES);
      found := found + SelectKeysStatement(ledger, chunk);
      assert keys[..i + |chunk|] == keys[..i] + chunk;
      i := i + |chunk|;
    }
    assert keys[..i] == keys;
  }

  predicate Updates(updates: seq<(Bytes, nat)>, k: Bytes) {
    exists j | 0 <= j < |updates| :: updates[j].0 == k
  }

  /** The id the updates hold for a key. */
  function IdFor(updates: seq<(Bytes, nat)>, k: Bytes): (id: nat)
    requires Updates(updates, k)
    ensures (k, id) in updates
  {
    if updates[0].0 == k then updates[0].1
    else
      assert Updates(updates[1..], k) by {
        var j :| 0 <= j < |updates| && updates[j].0 == k;
        assert updates[1..][j - 1].0 == k;
      }
      IdFor(updates[1..], k)
  }

  /** UPDATE litefan_idempotency SET message_id = ... WHERE key IN (...). */
  function FillKeysStatement(ledger: map<Bytes, LedgerEntry>, updates: seq<(Bytes, nat)>): map<Bytes, LedgerEntry>
    requires 2 * |updates| <= MAX_SQL_VARIABLES
  {
    map k | k in ledger :: if Updates(updates, k) then ledger[k].(messageId := Some(IdFor(updates, k))) else ledger[k]
  }

  function WithIds(ledger: map<Bytes, LedgerEntry>, filled: map<Bytes, nat>): map<Bytes, LedgerEntry> {
    map k | k in ledger :: if k in filled then ledger[k].(messageId := Some(filled[k])) else ledger[k]
  }

  /** `updates` is `filled`, as a list. */
  ghost predicate Lists(updates: seq<(Bytes, nat)>, filled: map<Bytes, nat>) {
    && (forall u | u in updates :: u.0 in filled && filled[u.0] == u.1)
    && (forall k | k in filled :: Updates(updates, k))
  }

  function FilledBy(updates: seq<(Bytes, nat)>, filled: map<Bytes, nat>): map<Bytes, nat> {
    map k | k in filled && Updates(updates, k) :: filled[k]
  }

  lemma FilledInTwo(ledger: map<Bytes, LedgerEntry>, first: seq<(Bytes, nat)>, second: seq<(Bytes, nat)>, filled: map<Bytes, nat>)
    requires 2 * |second| <= MAX_SQL_VARIABLES
    requires forall u | u in second :: u.0 in filled && filled[u.0] == u.1
    ensures FillKeysStatement(WithIds(ledger, FilledBy(first, filled)), second) == WithIds(ledger, FilledBy(first + second, filled))
  {
    forall k ensures Updates(first + second, k) <==> Updates(first, k) || Updates(second, k) {
      UpdatesJoin(first, second, k);
    }
    forall k | Updates(second, k) ensures k in filled && IdFor(second, k) == filled[k] {
      assert (k, IdFor(second, k)) in second;
    }
    hide Updates, IdFor;
  }

  lemma UpdatesJoin(first: seq<(Bytes, nat)>, second: seq<(Bytes, nat)>, k: Bytes)
    ensures Updates(first + second, k) <==> Updates(first, k) || Updates(second, k)
  {
    var all := first + second;
    if j :| 0 <= j < |first| && first[j].0 == k { assert all[j].0 == k; }
    if j :| 0 <= j < |second| && second[j].0 == k { assert all[|first| + j].0 == k; }
  }

  lemma NoneFilled(ledger: map<Bytes, LedgerEntry>, filled: map<Bytes, nat>)
    ensures WithIds(ledger, FilledBy([], filled)) == ledger
  {
  }

  lemma AllFilled(updates: seq<(Bytes, nat)>, filled: map<Bytes, nat>)
    requires Lists(updates, filled)
    ensures FilledBy(updates, filled) == filled
  {
  }

  method FillKeys(ledger: map<Bytes, LedgerEntry>, updates: seq<(Bytes, nat)>, ghost filled: map<Bytes, nat>) returns (after: map<Bytes, LedgerEntry>)
    requires Lists(updates, filled)
    ensures after == WithIds(ledger, filled)
  {
    hide Updates, FilledBy, WithIds, FillKeysStatement;
    after := ledger;
    var i := 0;
    NoneFilled(ledger, filled);
    while i < |updates|
      invariant i <= |updates| && after == WithIds(ledger, FilledBy(updates[..i], filled))
    {
      var chunk := Chunk(updates, i, MAX_SQL_VARIABLES / 2);
      assert forall u | u in chunk :: u in updates;
      FilledInTwo(ledger, updates[..i], chunk, filled);
      after := FillKeysStatement(after, chunk);
      assert updates[..i + |chunk|] == updates[..i] + chunk;
      i := i + |chunk|;
    }
    assert updates[..i] == updates;
    AllFilled(updates, filled);
  }

  // ---- The steps of a keyed publish -----------------------------------------------------

  ghost predicate HasKey(messages: seq<Publish>, k: Bytes) {
    exists x | 0 <= x < |messages| :: messages[x].key == Some(k)
  }

  /** The distinct keys of a batch, in whatever order a hash set yields them. */
  method UniqueKeys(messages: seq<Publish>) returns (keys: seq<Bytes>)
    ensures forall k :: k in keys <==> HasKey(messages, k)
    ensures forall i, j | 0 <= i < j < |keys| :: keys[i] != keys[j]
  {
    keys := [];
    for i := 0 to |messages|
      invariant forall k :: k in keys <==> HasKey(messages[..i], k)
      invariant forall a, b | 0 <= a < b < |keys| :: keys[a] != keys[b]
    {
      HasKeyNext(messages, i);
      if messages[i].key.Some? && messages[i].key.value !in keys {
        keys := [messages[i].key.value] + keys;
      }
    }
    assert messages[..|messages|] == messages;
  }

  lemma HasKeyNext(messages: seq<Publish>, i: nat)
    requires i < |messages|
    ensures forall k :: HasKey(messages[..i + 1], k) <==> HasKey(messages[..i], k) || messages[i].key == Some(k)
  {
    var first, longer := messages[..i], messages[..i + 1];
    assert longer[..i] == first && longer[i] == messages[i];
    forall k ensures HasKey(longer, k) <==> HasKey(first, k) || messages[i].key == Some(k) {
      if HasKey(first, k) {
        var x :| 0 <= x < |first| && first[x].key == Some(k);
        assert longer[x].key == Some(k);
      }
      if HasKey(longer, k) {
        var x :| 0 <= x < |longer| && longer[x].key == Some(k);
        assert x < i ==> first[x].key == Some(k);
      }
    }
  }

  lemma NothingScheduled(live: map<Bytes, LedgerEntry>, last: nat)
    ensures Schedule(live, [], last) == Plan([], [], map[], [])
  {
  }

  /** One message more: it is taken, under its key if it has one, or changes nothing but the outcomes told. */
  lemma ScheduleNext(live: map<Bytes, LedgerEntry>, messages: seq<Publish>, i: nat, last: nat)
    requires i < |messages|
    ensures messages[..0] == []
    ensures var before, after := Schedule(live, messages[..i], last), Schedule(live, messages[..i + 1], last);
      if Takes(live, before.filled.Keys, messages[i]) then
        && after.positions == before.positions + [i] && after.chosen == before.chosen + [messages[i]]
        && after.filled.Keys == before.filled.Keys + (if messages[i].key.Some? then {messages[i].key.value} else {})
      else after.positions == before.positions && after.chosen == before.chosen && after.filled == before.filled
  {
    hide Takes;
    var longer := messages[..i + 1];
    assert longer[..i] == messages[..i] && longer[i] == messages[i] && |longer| == i + 1;
  }

  lemma KeyIsThere(messages: seq<Publish>, i: nat)
    requires i < |messages|
    ensures messages[i].key.Some? ==> HasKey(messages, messages[i].key.value)
  {
  }

  /** Decides what to insert, from the looked-up ledger and a set of keys already scheduled. */
  method ScheduleBatch(messages: seq<Publish>, found: map<Bytes, Option<nat>>, ghost live: map<Bytes, LedgerEntry>, ghost last: nat)
    returns (positions: seq<nat>, chosen: seq<Publish>)
    requires forall k | HasKey(messages, k) :: k in found && (found[k].None? <==> !Complete(live, k))
    ensures positions == Schedule(live, messages, last).positions
    ensures chosen == Schedule(live, messages, last).chosen
  {
    hide Schedule, HasKey;
    positions, chosen := [], [];
    var scheduled: set<Bytes> := {};
    NothingScheduled(live, last);
    for i := 0 to |messages|
      invariant positions == Schedule(live, messages[..i], last).positions
      invariant chosen == Schedule(live, messages[..i], last).chosen
      invariant scheduled == Schedule(live, messages[..i], last).filled.Keys
    {
      ScheduleNext(live, messages, i, last);
      KeyIsThere(messages, i);
      var takes := true;
      if messages[i].key.Some? {
        var k := messages[i].key.value;
        takes := k in found && found[k].None? && k !in scheduled;
        if takes {
          scheduled := scheduled + {k};
        }
      }
      if takes {
        positions, chosen := positions + [i], chosen + [messages[i]];
      }
    }
    assert messages[..|messages|] == messages;
  }

  /** The key of each inserted message with the id it got. */
  method CollectUpdates(messages: seq<Publish>, positions: seq<nat>, ids: seq<nat>, ghost live: map<Bytes, LedgerEntry>, ghost last: nat)
    returns (updates: seq<(Bytes, nat)>)
    requires positions == Schedule(live, messages, last).positions
    requires |ids| == |positions| && forall j | 0 <= j < |ids| :: ids[j] == last + 1 + j
    ensures Lists(updates, Schedule(live, messages, last).filled)
  {
    hide Schedule, Updates;
    ghost var plan := Schedule(live, messages, last);
    PositionsHold(live, messages, last);
    updates := [];
    for j := 0 to |positions|
      invariant forall u | u in updates :: u.0 in plan.filled && plan.filled[u.0] == u.1
      invariant forall i | 0 <= i < j && plan.chosen[i].key.Some? :: Updates(updates, plan.chosen[i].key.value)
    {
      var key := messages[positions[j]].key;
      if key.Some? {
        ChosenIsFilled(live, messages, last, j);
        UpdatesMore(updates, (key.value, ids[j]));
        updates := updates + [(key.value, ids[j])];
      }
    }
    forall k | k in plan.filled ensures Updates(updates, k) {
      FilledIsChosen(live, messages, last, k);
      assert plan.chosen[plan.filled[k] - last - 1].key == Some(k);
    }
  }

  lemma UpdatesMore(updates: seq<(Bytes, nat)>, u: (Bytes, nat))
    ensures Updates(updates + [u], u.0)
    ensures forall k | Updates(updates, k) :: Updates(updates + [u], k)
  {
    var more := updates + [u];
    assert more[|updates|].0 == u.0;
    forall k | Updates(updates, k) ensures Updates(more, k) {
      UpdatesJoin(updates, [u], k);
    }
  }

  /** Reserving the batch's keys and filling in the new ids is the plan's ledger. */
  lemma ReservedThenFilled(live: map<Bytes, LedgerEntry>, messages: seq<Publish>, last: nat, keys: seq<Bytes>, expiresAt: int)
    requires forall k :: k in keys <==> HasKey(messages, k)
    ensures var filled := Schedule(live, messages, last).filled;
      WithIds(Reserved(live, KeySet(keys), expiresAt), filled) == Filled(live, filled, expiresAt)
  {
    hide Schedule, Complete;
    var filled := Schedule(live, messages, last).filled;
    forall k | k in filled ensures k in keys {
      FilledWasOpen(live, messages, last, k);
    }
    forall k | k in keys && k !in live ensures k in filled {
      var x :| 0 <= x < |messages| && messages[x].key == Some(k);
      EveryKeyFilled(live, messages, last, x);
      NotComplete(live, k);
    }
  }

  lemma NotComplete(live: map<Bytes, LedgerEntry>, k: Bytes)
    ensures k !in live ==> !Complete(live, k)
  {
  }

  /** The inserted ids by position in the batch. */
  method PublishedIds(positions: seq<nat>, ids: seq<nat>, ghost last: nat) returns (published: map<nat, nat>)
    requires Ascending(positions)
    requires |ids| == |positions| && forall j | 0 <= j < |ids| :: ids[j] == last + 1 + j
    ensures forall x :: x in published <==> x in positions
    ensures forall j | 0 <= j < |positions| :: positions[j] in published && published[positions[j]] == last + 1 + j
  {
    published := map[];
    for j := 0 to |positions|
      invariant forall x :: x in published <==> x in positions[..j]
      invariant forall i | 0 <= i < j :: positions[i] in published && published[positions[i]] == last + 1 + i
    {
      published := published[positions[j] := ids[j]];
    }
    assert positions[..|positions|] == positions;
  }

  /** The id the ledger ends with for a key of the batch. */
  ghost predicate Ends(ledger: map<Bytes, Option<nat>>, live: map<Bytes, LedgerEntry>, filled: map<Bytes, nat>, k: Bytes) {
    k in ledger && ledger[k] == (if k in filled then Some(filled[k]) else if k in live then live[k].messageId else None)
  }

  lemma ToldFromLedger(messages: seq<Publish>, ledger: map<Bytes, Option<nat>>, live: map<Bytes, LedgerEntry>, last: nat, x: nat)
    requires x < |messages| && x !in Schedule(live, messages, last).positions
    requires forall k | HasKey(messages, k) :: Ends(ledger, live, Schedule(live, messages, last).filled, k)
    ensures messages[x].key.Some? && messages[x].key.value in ledger && ledger[messages[x].key.value].Some?
    ensures Schedule(live, messages, last).told[x] == Duplicate(ledger[messages[x].key.value].value)
  {
    hide Schedule;
    OthersTold(live, messages, last, x);
    assert HasKey(messages, messages[x].key.value);
  }

  lemma ToldNewId(messages: seq<Publish>, published: map<nat, nat>, live: map<Bytes, LedgerEntry>, last: nat, x: nat)
    requires var positions := Schedule(live, messages, last).positions;
      && x in positions && (forall j | 0 <= j < |positions| :: positions[j] in published && published[positions[j]] == last + 1 + j)
    ensures x < |messages| && x in published && Schedule(live, messages, last).told[x] == Published(published[x])
  {
    hide Schedule;
    var positions := Schedule(live, messages, last).positions;
    var j :| 0 <= j < |positions| && positions[j] == x;
    ChosenTold(live, messages, last, j);
  }

  /** What each caller is told: its new id, or the id the ledger now holds for its key. */
  method TellAll(messages: seq<Publish>, positions: seq<nat>, ids: seq<nat>, ledger: map<Bytes, Option<nat>>, ghost live: map<Bytes, LedgerEntry>, ghost last: nat)
    returns (r: Result<seq<PublishOutcome>>)
    requires positions == Schedule(live, messages, last).positions
    requires |ids| == |positions| && forall j | 0 <= j < |ids| :: ids[j] == last + 1 + j
    requires forall k | HasKey(messages, k) :: Ends(ledger, live, Schedule(live, messages, last).filled, k)
    ensures r == Ok(Schedule(live, messages, last).told)
  {
    hide Schedule, HasKey, Ends;
    ghost var told := Schedule(live, messages, last).told;
    PositionsHold(live, messages, last);
    var published := PublishedIds(positions, ids, last);
    var outcomes: seq<PublishOutcome> := [];
    for x := 0 to |messages|
      invariant outcomes == told[..x]
    {
      if x in published {
        ToldNewId(messages, published, live, last, x);
        outcomes := outcomes + [Published(published[x])];
      } else {
        ToldFromLedger(messages, ledger, live, last, x);
        var key := messages[x].key;
        if key.None? || key.value !in ledger || ledger[key.value].None? {
          return Err(IncompleteIdempotencyEntry);
        }
        outcomes := outcomes + [Duplicate(ledger[key.value].value)];
      }
      assert told[..x + 1] == told[..x] + [told[x]];
    }
    assert told[..|messages|] == told;
    r := Ok(outcomes);
  }

  lemma KeysFound(messages: seq<Publish>, keys: seq<Bytes>, live: map<Bytes, LedgerEntry>, expiresAt: int, found: map<Bytes, Option<nat>>)
    requires forall k :: k in keys <==> HasKey(messages, k)
    requires var reserved := Reserved(live, KeySet(keys), expiresAt);
      found.Keys == reserved.Keys * KeySet(keys) && forall k | k in found :: found[k] == reserved[k].messageId
    ensures forall k | HasKey(messages, k) :: k in found && (found[k].None? <==> !Complete(live, k))
    ensures forall k | HasKey(messages, k) :: k in found && found[k] == if k in live then live[k].messageId else None
  {
  }

  /** The local copy of the ledger takes the new ids as well. */
  method InsertIds(found: map<Bytes, Option<nat>>, updates: seq<(Bytes, nat)>, ghost filled: map<Bytes, nat>) returns (after: map<Bytes, Option<nat>>)
    requires Lists(updates, filled)
    ensures forall k | k in filled :: k in after && after[k] == Some(filled[k])
    ensures forall k | k in found && k !in filled :: k in after && after[k] == found[k]
  {
    after := found;
    for j := 0 to |updates|
      invariant forall i | 0 <= i < j :: updates[i].0 in after
      invariant forall k | k in filled && k in after :: after[k] == Some(filled[k]) || (k in found && after[k] == found[k])
      invariant forall i | 0 <= i < j :: after[updates[i].0] == Some(filled[updates[i].0])
      invariant forall k | k in found && k !in filled :: k in after && after[k] == found[k]
    {
      assert updates[j] in updates;
      after := after[updates[j].0 := Some(updates[j].1)];
    }
    forall k | k in filled ensures k in after && after[k] == Some(filled[k]) {
      assert Updates(updates, k);
    }
  }

  lemma EndsFilled(messages: seq<Publish>, found: map<Bytes, Option<nat>>, live: map<Bytes, LedgerEntry>, filled: map<Bytes, nat>, final: map<Bytes, Option<nat>>)
    requires forall k | HasKey(messages, k) :: k in found && found[k] == if k in live then live[k].messageId else None
    requires forall k | k in filled :: k in final && final[k] == Some(filled[k])
    requires forall k | k in found && k !in filled :: k in final && final[k] == found[k]
    ensures forall k | HasKey(messages, k) :: Ends(final, live, filled, k)
  {
  }

  lemma {:induction false} InsertAllIgnoresLedger(core: Core, messages: seq<Publish>, publishedAt: int, ledger: map<Bytes, LedgerEntry>)
    ensures InsertAll(core.(ledger := ledger), messages, publishedAt) == InsertAll(core, messages, publishedAt).(ledger := ledger)
    decreases |messages|
  {
    if messages != [] {
      InsertAllIgnoresLedger(core, messages[..|messages| - 1], publishedAt, ledger);
    }
  }

  function TopicsOf(chosen: seq<Publish>): set<Option<string>> {
    set p | p in chosen :: p.topic
  }

  /** The topics notified are those of the messages that were inserted. */
  lemma {:induction false} ChosenTopics(live: map<Bytes, LedgerEntry>, messages: seq<Publish>, last: nat)
    ensures var plan := Schedule(live, messages, last);
      PublishedTopics(messages, plan.told) == TopicsOf(plan.chosen) && (plan.chosen == [] <==> TopicsOf(plan.chosen) == {})
    decreases |messages|
  {
    hide Takes;
    var plan := Schedule(live, messages, last);
    if messages != [] {
      var n := |messages| - 1;
      var before := Schedule(live, messages[..n], last);
      ChosenTopics(live, messages[..n], last);
      TopicsGrow(messages, before.told, plan.told[n]);
      ChosenGrow(before.chosen, messages[n]);
    }
  }

  lemma TopicsGrow(messages: seq<Publish>, told: seq<PublishOutcome>, next: PublishOutcome)
    requires |messages| == |told| + 1
    ensures PublishedTopics(messages, told + [next]) ==
      PublishedTopics(messages[..|told|], told) + (if next.Published? then {messages[|told|].topic} else {})
  {
    var n := |told|;
    var all := told + [next];
    forall t | t in PublishedTopics(messages[..n], told) ensures t in PublishedTopics(messages, all) {
      var i :| 0 <= i < n && told[i].Published? && messages[..n][i].topic == t;
      assert all[i].Published? && messages[i].topic == t;
    }
    forall t | t in PublishedTopics(messages, all) ensures t in PublishedTopics(messages[..n], told) || (next.Published? && t == messages[n].topic) {
      var i :| 0 <= i < |messages| && all[i].Published? && messages[i].topic == t;
      if i < n {
        assert told[i].Published? && messages[..n][i].topic == t;
      }
    }
    if next.Published? {
      assert all[n].Published?;
    }
  }

  lemma ChosenGrow(chosen: seq<Publish>, p: Publish)
    ensures TopicsOf(chosen + [p]) == TopicsOf(chosen) + {p.topic}
    ensures chosen != [] ==> TopicsOf(chosen) != {}
  {
    assert p in chosen + [p];
    if chosen != [] {
      assert chosen[0].topic in TopicsOf(chosen);
    }
    forall t | t in TopicsOf(chosen) ensures t in TopicsOf(chosen + [p]) {
      var q :| q in chosen && q.topic == t;
      assert q in chosen + [p];
    }
  }

  lemma UnkeyedLedger(core: Core, messages: seq<Publish>, now: int, window: int)
    requires !Keyed(messages)
    ensures LedgerSoFar(core, messages, now, window) == core.ledger
  {
  }

  // ---- Deletion and inspection ----------------------------------------------------------

  /** DELETE FROM litefan_consumers: cascades to deliveries, and is refused while archives refer to the row. */
  function DropConsumerStatement(core: Core, id: nat): (Core, bool) {
    if ArchivesOf(core, id) != {} then (core, false)
    else (core.(consumers := core.consumers - {id}, deliveries := map s | s in core.deliveries && s.consumer != id :: core.deliveries[s]), true)
  }

  /** A deletion by its guards: the answer, and the tables without the consumer if it is Ok. */
  lemma DeleteByGuards(db: Db, name: string, mode: DeleteMode)
    requires Wf(db)
    ensures FindConsumer(db.core, name).None? ==> Transactions.DeleteConsumer(db, name, mode) == (db, Err(ConsumerNotFound))
    ensures FindConsumer(db.core, name).Some? ==>
      var id := FindConsumer(db.core, name).value;
      && id in db.core.consumers && id in db.cursors
      && var answer := DeleteAnswer(mode, db.core.consumers[id].drainingAt.Some?,
           |Inbox(db.core.deliveries, id).Keys| + |Backlog(db, id)|, |ArchivesOf(db.core, id)|);
         Transactions.DeleteConsumer(db, name, mode) == (if answer.Ok? then Db(Without(db.core, id), db.cursors - {id}) else db, answer)
  {
    hide Wf, FindConsumer, Inbox, ArchivesOf, Unseen, Without, DeleteAnswer;
    CursorKeys(db);
  }

  /** A deletion that leaves the archives to themselves has found none. */
  lemma ArchivesGuarded(mode: DeleteMode, draining: bool, outstanding: nat, core: Core, id: nat)
    requires DeleteAnswer(mode, draining, outstanding, |ArchivesOf(core, id)|).Ok?
    ensures mode.DiscardAll? || ArchivesOf(core, id) == {}
  {
    hide ArchivesOf;
  }

  /** Deleting the archives when the mode says so, and then the row, leaves the tables without the consumer. */
  lemma DroppedIsWithout(core: Core, id: nat, discardAll: bool)
    requires discardAll || ArchivesOf(core, id) == {}
    ensures var tx := if discardAll then core.(archives := core.archives - ArchivesOf(core, id)) else core;
      DropConsumerStatement(tx, id) == (Without(core, id), true)
  {
    NoArchivesLeft(core, id);
    hide ArchivesOf;
  }

  /** The copies outstanding for some consumers. */
  ghost function OutstandingSlots(db: Db, cs: set<nat>): set<Slot>
    requires cs <= db.core.consumers.Keys && cs <= db.cursors.Keys
  {
    set c, m | c in cs && m in Outstanding(db, c) :: Slot(c, m)
  }

  ghost function SlotsFor(c: nat, ms: set<nat>): set<Slot> {
    set m | m in ms :: Slot(c, m)
  }

  lemma {:induction false} SlotsForSize(c: nat, ms: set<nat>)
    ensures |SlotsFor(c, ms)| == |ms|
    decreases |ms|
  {
    if ms != {} {
      var m :| m in ms;
      SlotsForSize(c, ms - {m});
      assert SlotsFor(c, ms) == SlotsFor(c, ms - {m}) + {Slot(c, m)};
    }
  }

  lemma OneMoreConsumer(db: Db, cs: set<nat>, c: nat)
    requires cs + {c} <= db.core.consumers.Keys && cs + {c} <= db.cursors.Keys && c !in cs
    ensures |OutstandingSlots(db, cs + {c})| == |OutstandingSlots(db, cs)| + |Outstanding(db, c)|
  {
    hide Outstanding;
    assert OutstandingSlots(db, cs + {c}) == OutstandingSlots(db, cs) + SlotsFor(c, Outstanding(db, c));
    assert OutstandingSlots(db, cs) !! SlotsFor(c, Outstanding(db, c));
    SlotsForSize(c, Outstanding(db, c));
  }

  ghost function ArchivesFor(core: Core, cs: set<nat>): set<nat> {
    set a | a in core.archives && core.archives[a].slot.consumer in cs
  }

  lemma OneMoreArchive(core: Core, cs: set<nat>, c: nat)
    requires c !in cs
    ensures |ArchivesFor(core, cs + {c})| == |ArchivesFor(core, cs)| + |ArchivesOf(core, c)|
  {
    assert ArchivesFor(core, cs + {c}) == ArchivesFor(core, cs) + ArchivesOf(core, c);
    assert ArchivesFor(core, cs) !! ArchivesOf(core, c);
  }

  lemma NoArchivesLeft(core: Core, id: nat)
    ensures ArchivesOf(core.(archives := core.archives - ArchivesOf(core, id)), id) == {}
    ensures |ArchivesOf(core, id)| == 0 <==> ArchivesOf(core, id) == {}
    ensures ArchivesOf(core, id) == {} ==> core.archives - ArchivesOf(core, id) == core.archives
  {
  }

  lemma PruneNothing(db: Db, before: int)
    requires Wf(db)
    ensures Transactions.PruneMessages(db, before, 0) == (db, Ok(0))
  {
    hide CoreOk, Prunable, DropMessages, Referenced, Lowest;
    assert Lowest(Prunable(db, before), 0) == {};
    DropKept(db.core, {});
    assert db.core.messages - {} == db.core.messages;
  }

  lemma AllArchives(db: Db)
    requires Wf(db)
    ensures ArchivesFor(db.core, db.core.consumers.Keys) == db.core.archives.Keys
  {
    forall a | a in db.core.archives ensures db.core.archives[a].slot.consumer in db.core.consumers {
      assert SlotOk(db.core, db.core.archives[a].slot);
    }
  }

  function Sum(counts: seq<nat>): nat {
    if counts == [] then 0 else Sum(counts[..|counts| - 1]) + counts[|counts| - 1]
  }

  lemma {:induction false} SumGrows(counts: seq<nat>, i: nat)
    requires i <= |counts|
    ensures Sum(counts[..i]) <= Sum(counts)
    decreases |counts|
  {
    if i == |counts| {
      assert counts[..i] == counts;
    } else {
      assert counts[..|counts| - 1][..i] == counts[..i];
      SumGrows(counts[..|counts| - 1], i);
    }
  }

  /** Adds counts up, refusing a total that does not fit. */
  method TryFold(counts: seq<nat>) returns (r: Result<nat>)
    ensures r == if Sum(counts) >= U64_RANGE then Err(CounterOutOfRange) else Ok(Sum(counts))
  {
    var total := 0;
    for i := 0 to |counts|
      invariant total == Sum(counts[..i]) && total < U64_RANGE
    {
      assert counts[..i + 1][..i] == counts[..i];
      SumGrows(counts, i + 1);
      if total + counts[i] >= U64_RANGE {
        return Err(CounterOutOfRange);
      }
      total := total + counts[i];
    }
    assert counts[..|counts|] == counts;
    r := Ok(total);
  }

  function OutstandingCounts(consumers: seq<ConsumerSnapshot>): seq<nat> {
    seq(|consumers|, i requires 0 <= i < |consumers| => consumers[i].outstanding)
  }

  function ArchivedCounts(consumers: seq<ConsumerSnapshot>): seq<nat> {
    seq(|consumers|, i requires 0 <= i < |consumers| => consumers[i].archived)
  }

  function IdSet(order: seq<nat>): set<nat> {
    set c | c in order
  }

  /** The counts of the consumers add up to their copies, each counted once. */
  lemma {:induction false} TotalsAre(db: Db, order: seq<nat>, consumers: seq<ConsumerSnapshot>, now: int)
    requires Wf(db) && Distinct(order) && |order| == |consumers| && forall c | c in order :: c in db.core.consumers
    requires forall i | 0 <= i < |order| :: Transactions.Snapshot(db, order[i], now) == Ok(consumers[i])
    ensures db.cursors.Keys == db.core.consumers.Keys
    ensures Sum(OutstandingCounts(consumers)) == |OutstandingSlots(db, IdSet(order))|
    ensures Sum(ArchivedCounts(consumers)) == |ArchivesFor(db.core, IdSet(order))|
    decreases |order|
  {
    hide Wf, OutstandingSlots, ArchivesFor, Outstanding, ArchivesOf, Transactions.Snapshot, LaterVisible, Visible, Backlog, Minimum;
    CursorKeys(db);
    if order == [] {
      NoCopies(db);
      assert IdSet(order) == {};
    } else {
      var n := |order| - 1;
      var fewer, c := consumers[..n], order[n];
      TotalsAre(db, order[..n], fewer, now);
      SnapshotCounts(db, c, now);
      assert IdSet(order) == IdSet(order[..n]) + {c};
      OneMoreConsumer(db, IdSet(order[..n]), c);
      OneMoreArchive(db.core, IdSet(order[..n]), c);
      assert OutstandingCounts(consumers)[..n] == OutstandingCounts(fewer);
      assert ArchivedCounts(consumers)[..n] == ArchivedCounts(fewer);
    }
  }

  /** The list holds the snapshot of every consumer and nothing else, in the order of their names. */
  ghost predicate ListsByName(db: Db, consumers: seq<ConsumerSnapshot>, now: int) {
    && |consumers| == |db.core.consumers|
    && (forall c | c in db.core.consumers :: Transactions.Snapshot(db, c, now).Ok? && Transactions.Snapshot(db, c, now).value in consumers)
    && (forall s | s in consumers :: exists c :: c in db.core.consumers && Transactions.Snapshot(db, c, now) == Ok(s))
    && (forall i, j | 0 <= i < j < |consumers| :: NameBefore(consumers[i].name, consumers[j].name))
  }

  /** What the rows read in the order `order` say of each consumer. */
  ghost predicate ReadInOrder(db: Db, order: seq<nat>, consumers: seq<ConsumerSnapshot>, now: int) {
    && |consumers| <= |order| && (forall c | c in order :: c in db.core.consumers)
    && forall i | 0 <= i < |consumers| ::
         Transactions.Snapshot(db, order[i], now) == Ok(consumers[i]) && consumers[i].name == db.core.consumers[order[i]].name
  }

  lemma OneMoreRead(db: Db, order: seq<nat>, consumers: seq<ConsumerSnapshot>, now: int)
    requires Wf(db) && ReadInOrder(db, order, consumers, now) && |consumers| < |order|
    ensures Transactions.Snapshot(db, order[|consumers|], now).Ok?
    ensures ReadInOrder(db, order, consumers + [Transactions.Snapshot(db, order[|consumers|], now).value], now)
  {
    hide Wf, Transactions.Snapshot;
    var c := order[|consumers|];
    assert c in order;
    CursorKeys(db);
    SnapshotNamed(db, c, now);
  }

  lemma Listed(db: Db, order: seq<nat>, consumers: seq<ConsumerSnapshot>, now: int)
    requires |order| == |consumers| == |db.core.consumers| && forall c :: c in order <==> c in db.core.consumers
    requires ReadInOrder(db, order, consumers, now)
    requires NamesAscending(map c | c in db.core.consumers :: db.core.consumers[c].name, order)
    ensures ListsByName(db, consumers, now)
  {
    hide Transactions.Snapshot, NameBefore;
    forall c | c in db.core.consumers ensures Transactions.Snapshot(db, c, now).Ok? && Transactions.Snapshot(db, c, now).value in consumers {
      var i :| 0 <= i < |order| && order[i] == c;
      assert consumers[i] in consumers;
    }
    forall s | s in consumers ensures exists c :: c in db.core.consumers && Transactions.Snapshot(db, c, now) == Ok(s) {
      var i :| 0 <= i < |consumers| && consumers[i] == s;
      assert order[i] in order && Transactions.Snapshot(db, order[i], now) == Ok(s);
    }
    forall i, j | 0 <= i < j < |consumers| ensures NameBefore(consumers[i].name, consumers[j].name) {
      assert order[i] in order && order[j] in order;
    }
  }

  /** The rows of the snapshot query: ORDER BY name. */
  method ConsumersByName(db: Db, now: int) returns (order: seq<nat>, consumers: seq<ConsumerSnapshot>)
    requires Wf(db)
    ensures Distinct(order) && |order| == |consumers| && IdSet(order) == db.core.consumers.Keys
    ensures forall c | c in order :: c in db.core.consumers
    ensures forall i | 0 <= i < |order| :: Transactions.Snapshot(db, order[i], now) == Ok(consumers[i])
    ensures ListsByName(db, consumers, now)
  {
    hide Wf, Transactions.Snapshot, NamesAscending, Distinct, ListsByName;
    var names := map c | c in db.core.consumers :: db.core.consumers[c].name;
    NamesDiffer(db);
    order := SortByName(names);
    OrderedByNameIsDistinct(names, order);
    assert names.Keys == db.core.consumers.Keys;
    consumers := [];
    for i := 0 to |order|
      invariant |consumers| == i && ReadInOrder(db, order, consumers, now)
    {
      OneMoreRead(db, order, consumers, now);
      consumers := consumers + [Transactions.Snapshot(db, order[i], now).value];
    }
    Listed(db, order, consumers, now);
  }

  lemma NamesDiffer(db: Db)
    requires Wf(db)
    ensures forall c, d | c in db.core.consumers && d in db.core.consumers && db.core.consumers[c].name == db.core.consumers[d].name :: c == d
  {
  }

  lemma SnapshotNamed(db: Db, c: nat, now: int)
    requires c in db.core.consumers && c in db.cursors
    ensures Transactions.Snapshot(db, c, now).Ok? && Transactions.Snapshot(db, c, now).value.name == db.core.consumers[c].name
  {
  }

  lemma NoCopies(db: Db)
    ensures OutstandingSlots(db, {}) == {} && ArchivesFor(db.core, {}) == {}
  {
  }

  // ---- Whole transactions ---------------------------------------------------------------

  /**
   A batch with keys. The statements work on sets of keys and chunks of rows; the outcome is
   that of publishing the messages one after another.
   */
  method PublishKeyed(db: Db, messages: seq<Publish>, now: Clock, windowMs: int)
    returns (tx: Core, r: Result<seq<PublishOutcome>>, notice: Option<Notice>)
    requires Wf(db) && Keyed(messages) && windowMs > 0 && now + windowMs <= I64_MAX
    ensures (tx, r) == (PublishAll(db.core, messages, now, windowMs).0, Ok(PublishAll(db.core, messages, now, windowMs).1))
    ensures notice == Announces(db, Runs.PublishOp(messages, now, windowMs))
  {
    hide Wf, PublishAll, Schedule, InsertAll, Filled, PurgeExpired, Keyed, HasKey, Reserved, KeySet, WithIds;
    PublishStepKept(db, messages, now, windowMs);
    FoldFollowsPlan(db.core, messages, now, windowMs);
    var expiresAt := now + windowMs;
    var live := PurgeExpired(db.core.ledger, now);
    var keys := UniqueKeys(messages);
    var reserved := ReserveKeys(live, keys, expiresAt);
    var found := LookUpKeys(reserved, keys);
    ghost var last := db.core.messageSeq;
    KeysFound(messages, keys, live, expiresAt, found);
    var positions, chosen := ScheduleBatch(messages, found, live, last);
    var ids;
    tx, ids := InsertMessageRows(db.core.(ledger := reserved), chosen, now);
    InsertAllIgnoresLedger(db.core, chosen, now, reserved);
    var updates := CollectUpdates(messages, positions, ids, live, last);
    var ledger := FillKeys(reserved, updates, Schedule(live, messages, last).filled);
    ReservedThenFilled(live, messages, last, keys, expiresAt);
    tx := tx.(ledger := ledger);
    var final := InsertIds(found, updates, Schedule(live, messages, last).filled);
    EndsFilled(messages, found, live, Schedule(live, messages, last).filled, final);
    r := TellAll(messages, positions, ids, final, live, last);
    notice := if chosen != [] then Some(PublishNotice(TopicsOf(chosen))) else None;
    ChosenTopics(live, messages, last);
  }

  /** A batch without keys is inserted as it is. */
  method PublishUnkeyed(db: Db, messages: seq<Publish>, now: Clock, windowMs: int)
    returns (tx: Core, r: Result<seq<PublishOutcome>>, notice: Option<Notice>)
    requires Wf(db) && messages != [] && !Keyed(messages) && windowMs > 0
    ensures (tx, r) == (PublishAll(db.core, messages, now, windowMs).0, Ok(PublishAll(db.core, messages, now, windowMs).1))
    ensures notice == Announces(db, Runs.PublishOp(messages, now, windowMs))
  {
    hide Wf, PublishAll, Schedule, InsertAll, Filled, PurgeExpired, Keyed;
    PublishStepKept(db, messages, now, windowMs);
    FoldFollowsPlan(db.core, messages, now, windowMs);
    UnkeyedLedger(db.core, messages, now, windowMs);
    UnkeyedPlan(PurgeExpired(db.core.ledger, now), messages, db.core.messageSeq);
    ChosenTopics(PurgeExpired(db.core.ledger, now), messages, db.core.messageSeq);
    var ids;
    tx, ids := InsertMessageRows(db.core, messages, now);
    var outcomes := seq(|ids|, i requires 0 <= i < |ids| => Published(ids[i]));
    assert outcomes == PublishAll(db.core, messages, now, windowMs).1;
    r, notice := Ok(outcomes), Some(PublishNotice(TopicsOf(messages)));
  }

  /** The guards of a deletion, in their order. */
  method CheckGuards(mode: DeleteMode, draining: bool, outstanding: nat, archived: nat) returns (refusal: Option<Error>)
    ensures Decides(mode, draining, outstanding, archived, if refusal.Some? then Err(refusal.value) else Ok(DeleteOutcome(outstanding, archived)))
    ensures DeleteAnswer(mode, draining, outstanding, archived) == if refusal.Some? then Err(refusal.value) else Ok(DeleteOutcome(outstanding, archived))
  {
    if mode.DrainedOnly? {
      if !draining {
        return Some(ConsumerNotDraining);
      }
      if outstanding > 0 {
        return Some(ConsumerNotEmpty(outstanding));
      }
    }
    if !mode.DiscardAll? && archived > 0 {
      return Some(ConsumerHasArchives(archived));
    }
    refusal := None;
  }

  lemma DeleteAnnounces(db: Db, name: string, mode: DeleteMode)
    ensures Announces(db, Runs.DeleteOp(name, mode)) ==
      if Transactions.DeleteConsumer(db, name, mode).1.Ok? && FindConsumer(db.core, name).Some? then Some(ConsumerNotice(FindConsumer(db.core, name).value)) else None
  {
    hide Transactions.DeleteConsumer, FindConsumer;
  }

  /** The statements of a deletion; a refused one leaves the tables as they were. */
  method DeleteRows(db: Db, name: string, mode: DeleteMode) returns (tx: Db, r: Result<DeleteOutcome>, notice: Option<Notice>)
    requires Wf(db)
    ensures (tx, r) == Transactions.DeleteConsumer(db, name, mode)
    ensures notice == Announces(db, Runs.DeleteOp(name, mode))
  {
    hide Wf, FindConsumer, Inbox, ArchivesOf, Unseen, Without, Transactions.DeleteConsumer, DropConsumerStatement, DeleteAnswer, Announces;
    DeleteKept(db, name, mode);
    DeleteByGuards(db, name, mode);
    DeleteAnnounces(db, name, mode);
    tx, notice := db, None;
    var found := FindConsumer(db.core, name);
    if found.None? {
      return tx, Err(ConsumerNotFound), notice;
    }
    var id := found.value;
    var row := db.core.consumers[id];
    var outstanding := |Inbox(db.core.deliveries, id).Keys| + |Unseen(db.core.messages, row.filter, db.cursors[id])|;
    var archived := |ArchivesOf(db.core, id)|;
    var refusal := CheckGuards(mode, row.drainingAt.Some?, outstanding, archived);
    if refusal.Some? {
      return tx, Err(refusal.value), notice;
    }
    ArchivesGuarded(mode, row.drainingAt.Some?, outstanding, db.core, id);
    var core := db.core;
    if mode.DiscardAll? {
      core := core.(archives := core.archives - ArchivesOf(core, id));
    }
    DroppedIsWithout(db.core, id, mode.DiscardAll?);
    var (left, dropped) := DropConsumerStatement(core, id);
    if !dropped {
      return tx, Err(ConstraintViolation), notice;
    }
    tx := Db(left, db.cursors - {id});
    r, notice := Ok(DeleteOutcome(outstanding, archived)), Some(ConsumerNotice(id));
  }

  // ---- The handle -----------------------------------------------------------------------

  datatype StoreSnapshot = StoreSnapshot(
    retainedMessages: nat, idempotencyKeys: nat, outstandingDeliveries: nat, archivedDeliveries: nat,
    consumers: seq<ConsumerSnapshot>)

  // ---- Opening --------------------------------------------------------------------------

  const SCHEMA_VERSION := 2

  /** The settings that are checked; the others are SQLite's. */
  datatype Config = Config(maxConnections: nat, maxBatchSize: nat, pollInterval: Duration, window: Duration)

  /** What a file holds under the names of the schema: nothing, the tables of this schema, or some without the columns probed. */
  datatype Tables = Absent | Present(db: Db) | Others

  datatype File = File(version: int, tables: Tables)

  /** The settings a store can be opened with. */
  predicate ConfigOk(config: Config) {
    && config.maxConnections > 0 && 0 < config.maxBatchSize <= I64_MAX && config.pollInterval > 0
    && NANOS_PER_MILLI <= config.window < (I64_MAX + 1) * NANOS_PER_MILLI
  }

  /** The checks of the settings, in their order; each failure has the same error but for its text. */
  method ValidateConfig(config: Config) returns (refusal: Option<Error>)
    ensures refusal == if ConfigOk(config) then None else Some(InvalidConfig)
  {
    if config.maxConnections == 0 {
      return Some(InvalidConfig);
    }
    if config.maxBatchSize == 0 {
      return Some(InvalidConfig);
    }
    if config.maxBatchSize > I64_MAX {
      return Some(InvalidConfig);
    }
    if config.pollInterval == 0 {
      return Some(InvalidConfig);
    }
    if config.window / NANOS_PER_MILLI == 0 {
      return Some(InvalidConfig);
    }
    if DurationMs(config.window).Err? {
      return Some(InvalidConfig);
    }
    refusal := None;
  }

  lemma EmptyIsWf()
    ensures Wf(EMPTY_DB)
  {
    ReachableWf([]);
  }

  /** Notices one call adds to those already sent. */
  function Sent(sent: seq<Notice>, announced: Option<Notice>): seq<Notice> {
    if announced.Some? then sent + [announced.value] else sent
  }

  /** The notice by which the notices sent have grown, if they have. */
  function Added(before: seq<Notice>, after: seq<Notice>): Option<Notice> {
    if after == before || after == [] then None else Some(after[|after| - 1])
  }

  lemma AddedIs(before: seq<Notice>, notice: Option<Notice>)
    ensures Added(before, Sent(before, notice)) == notice
  {
  }

  class LiteFan {
    var db: Db
    /** The notices sent to in-process listeners, in order. */
    var sent: seq<Notice>
    const maxBatchSize: nat
    const windowMs: i64
    const pollInterval: Duration
    /** The signals of this process. */
    const hub: Hub

    ghost predicate Valid()
      reads this
    {
      Wf(db) && windowMs > 0
    }

    /** A handle over the tables found in the file, with signals of its own. */
    constructor (stored: Db, maxBatchSize: nat, windowMs: i64, pollInterval: Duration)
      requires Wf(stored) && maxBatchSize > 0 && windowMs > 0 && pollInterval > 0
      ensures Valid() && db == stored && sent == []
      ensures this.maxBatchSize == maxBatchSize && this.windowMs == windowMs && this.pollInterval == pollInterval
      ensures fresh(hub) && fresh(hub.allPublishes) && fresh(hub.topics) && fresh(hub.consumers)
      ensures hub.Valid() && hub.topics.made == map[] && hub.consumers.made == map[]
    {
      hide Wf;
      db, sent := stored, [];
      this.maxBatchSize, this.windowMs, this.pollInterval := maxBatchSize, windowMs, pollInterval;
      hub := new Hub();
    }

    /**
     Opens a file: the settings are checked first, then the version; missing tables are created,
     and others under the same names are refused. The window is the setting in whole milliseconds.
     */
    static method OpenWithConfig(file: File, config: Config) returns (fan: LiteFan?, r: Result<File>)
      requires file.tables.Present? ==> Wf(file.tables.db)
      ensures if !ConfigOk(config) then r == Err(InvalidConfig)
              else if file.version > SCHEMA_VERSION then r == Err(UnsupportedSchemaVersion(file.version, SCHEMA_VERSION))
              else if file.tables.Others? then r == Err(IncompatibleSchema)
              else r == Ok(File(SCHEMA_VERSION, Present(if file.tables.Present? then file.tables.db else EMPTY_DB)))
      ensures r.Ok? <==> fan != null
      ensures r.Ok? ==> fresh(fan) && fan.Valid() && r.value.tables == Present(fan.db) && fan.sent == []
      ensures r.Ok? ==> fan.maxBatchSize == config.maxBatchSize && fan.pollInterval == config.pollInterval
      ensures r.Ok? ==> fan.windowMs * NANOS_PER_MILLI <= config.window < (fan.windowMs + 1) * NANOS_PER_MILLI
      ensures r.Ok? ==> fresh(fan.hub) && fresh(fan.hub.allPublishes) && fresh(fan.hub.topics) && fresh(fan.hub.consumers)
      ensures r.Ok? ==> fan.hub.Valid() && fan.hub.topics.made == map[] && fan.hub.consumers.made == map[]
    {
      hide Wf, EMPTY_DB;
      fan := null;
      var refusal := ValidateConfig(config);
      if refusal.Some? {
        return null, Err(refusal.value);
      }
      if file.version > SCHEMA_VERSION {
        return null, Err(UnsupportedSchemaVersion(file.version, SCHEMA_VERSION));
      }
      if file.tables.Others? {
        return null, Err(IncompatibleSchema);
      }
      EmptyIsWf();
      var stored := if file.tables.Present? then file.tables.db else EMPTY_DB;
      fan := new LiteFan(stored, config.maxBatchSize, DurationMs(config.window).value, config.pollInterval);
      r := Ok(File(if file.version < SCHEMA_VERSION then SCHEMA_VERSION else file.version, Present(stored)));
    }

    function EnsureBatchSize(requested: nat): Option<Error> {
      if requested > maxBatchSize then Some(BatchTooLarge(requested, maxBatchSize)) else None
    }

    /** Commits, and then sends the notice to the live signals it is for. */
    method Conclude(tx: Db, notice: Option<Notice>)
      requires Wf(tx) && Valid() && hub.Valid()
      modifies this, hub.allPublishes`version, hub.topics`entries, hub.topics.made.Keys, hub.consumers`entries, hub.consumers.made.Keys
      ensures Valid() && db == tx && sent == Sent(old(sent), notice)
      ensures hub.Valid() && Heard(hub, Added(old(sent), sent))
    {
      hide Wf, Sent, Added, Hub.Valid, Hub.Listens;
      AddedIs(sent, notice);
      db, sent := tx, Sent(sent, notice);
      Broadcast(hub, notice);
    }

    /**
     Publishes a batch in one transaction. The statements work on sets of keys and chunks of
     rows; the outcome is that of publishing the messages one after another.
     */
    method PublishBatch(messages: seq<Publish>, now: Clock) returns (r: Result<seq<PublishOutcome>>)
      requires Valid() && hub.Valid()
      modifies this, hub.allPublishes`version, hub.topics`entries, hub.topics.made.Keys, hub.consumers`entries, hub.consumers.made.Keys
      ensures Valid() && hub.Valid() && Heard(hub, Added(old(sent), sent))
      ensures if messages == [] then r == Ok([]) && db == old(db) && sent == old(sent)
              else if |messages| > maxBatchSize then r == Err(BatchTooLarge(|messages|, maxBatchSize)) && db == old(db) && sent == old(sent)
              else if Keyed(messages) && now + windowMs > I64_MAX then r == Err(DurationOutOfRange) && db == old(db) && sent == old(sent)
              else
                && (db.core, r) == (PublishAll(old(db.core), messages, now, windowMs).0, Ok(PublishAll(old(db.core), messages, now, windowMs).1))
                && db.cursors == old(db.cursors)
                && sent == Sent(old(sent), Announces(old(db), Runs.PublishOp(messages, now, windowMs)))
    {
      hide Wf, PublishAll, Keyed, Announces;
      if messages == [] {
        return Ok([]);
      }
      if EnsureBatchSize(|messages|).Some? {
        return Err(EnsureBatchSize(|messages|).value);
      }
      if !Keyed(messages) {
        r := PublishUnkeyedBatch(messages, now);
        return;
      }
      if now + windowMs > I64_MAX {
        return Err(DurationOutOfRange);
      }
      PublishStepKept(db, messages, now, windowMs);
      var tx, outcomes, notice := PublishKeyed(db, messages, now, windowMs);
      Conclude(Db(tx, db.cursors), notice);
      r := outcomes;
    }

    /** No keys, no ledger: the batch is inserted as it is. */
    method PublishUnkeyedBatch(messages: seq<Publish>, now: Clock) returns (r: Result<seq<PublishOutcome>>)
      requires Valid() && hub.Valid() && messages != [] && !Keyed(messages)
      modifies this, hub.allPublishes`version, hub.topics`entries, hub.topics.made.Keys, hub.consumers`entries, hub.consumers.made.Keys
      ensures Valid() && hub.Valid() && Heard(hub, Added(old(sent), sent))
      ensures (db.core, r) == (PublishAll(old(db.core), messages, now, windowMs).0, Ok(PublishAll(old(db.core), messages, now, windowMs).1))
      ensures db.cursors == old(db.cursors)
      ensures sent == Sent(old(sent), Announces(old(db), Runs.PublishOp(messages, now, windowMs)))
    {
      hide Wf, PublishAll, Keyed, Announces;
      PublishStepKept(db, messages, now, windowMs);
      var tx, outcomes, notice := PublishUnkeyed(db, messages, now, windowMs);
      Conclude(Db(tx, db.cursors), notice);
      r := outcomes;
    }

    /** Deletes a consumer under the guards of the mode, in one transaction. */
    method DeleteConsumer(name: string, mode: DeleteMode) returns (r: Result<DeleteOutcome>)
      requires Valid() && hub.Valid()
      modifies this, hub.allPublishes`version, hub.topics`entries, hub.topics.made.Keys, hub.consumers`entries, hub.consumers.made.Keys
      ensures Valid() && hub.Valid() && Heard(hub, Added(old(sent), sent))
      ensures (db, r) == Transactions.DeleteConsumer(old(db), name, mode)
      ensures sent == Sent(old(sent), Announces(old(db), Runs.DeleteOp(name, mode)))
    {
      hide Wf, Transactions.DeleteConsumer, Announces;
      DeleteKept(db, name, mode);
      var tx, outcome, notice := DeleteRows(db, name, mode);
      Conclude(tx, notice);
      r := outcome;
    }

    /** Deletes a bounded number of old messages nobody needs. */
    method PruneMessages(before: int, max: nat) returns (r: Result<nat>)
      requires Valid()
      modifies this
      ensures Valid() && sent == old(sent)
      ensures if max > maxBatchSize then r == Err(BatchTooLarge(max, maxBatchSize)) && db == old(db)
              else (db, r) == Transactions.PruneMessages(old(db), before, max)
    {
      hide Wf, Prunable, Lowest, DropMessages;
      if max == 0 {
        PruneNothing(db, before);
        return Ok(0);
      }
      if EnsureBatchSize(max).Some? {
        return Err(EnsureBatchSize(max).value);
      }
      PruneKept(db, before, max);
      var victims := Lowest(Prunable(db, before), max);
      var (core, pruned) := DropMessages(db.core, victims);
      db := Db(core, db.cursors);
      r := pruned;
    }

    /**
     The state of every consumer in one read, by name, with totals: each outstanding and each
     archived copy is counted once.
     */
    method Snapshot(now: Clock) returns (r: Result<StoreSnapshot>)
      requires Valid()
      ensures db.cursors.Keys == db.core.consumers.Keys
      ensures var total := |OutstandingSlots(db, db.core.consumers.Keys)|;
        if total >= U64_RANGE || |db.core.archives| >= U64_RANGE then r == Err(CounterOutOfRange)
        else
          && r.Ok? && r.value.outstandingDeliveries == total && r.value.archivedDeliveries == |db.core.archives|
          && r.value.retainedMessages == |db.core.messages| && r.value.idempotencyKeys == |db.core.ledger|
          && ListsByName(db, r.value.consumers, now)
    {
      hide Wf, OutstandingSlots, ArchivesFor, Transactions.Snapshot, ListsByName, IdSet, Distinct, Sum, OutstandingCounts, ArchivedCounts;
      CursorKeys(db);
      AllArchives(db);
      var order, consumers := ConsumersByName(db, now);
      TotalsAre(db, order, consumers, now);
      var outstanding := TryFold(OutstandingCounts(consumers));
      if outstanding.Err? {
        return Err(CounterOutOfRange);
      }
      var archived := TryFold(ArchivedCounts(consumers));
      if archived.Err? {
        return Err(CounterOutOfRange);
      }
      r := Ok(StoreSnapshot(|db.core.messages|, |db.core.ledger|, outstanding.value, archived.value, consumers));
    }

    /** Other processes and other handles commit these transactions meanwhile. */
    method OthersCommit(ops: seq<Runs.Op>)
      requires Valid()
      modifies this
      ensures Valid() && db == Runs.Run(old(db), ops) && sent == old(sent)
    {
      hide Wf, Runs.Run;
      RunKept(db, ops);
      db := Runs.Run(db, ops);
    }
  }
}
