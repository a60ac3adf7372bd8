/**
 A poll as the events of the wakeup protocol. The world a poll runs in is given turn by turn:
 clock readings, and the events of others around and between the poll's own.
 */
module Polling {
  import opened Prelude
  import opened Schema
  import opened Transactions
  import opened Runs
  import opened Invariants
  import opened Leases
  import opened Time
  import opened Claims
  import opened Wakeups
  import Draining

  /**
   One turn: what others do around the locked half of its claim, how much of the wait is left
   after it, the clock reading its sleep is computed from, and what others do during the sleep.
   */
  datatype Turn = Turn(now: Clock, first: seq<Event>, second: seq<Event>, remaining: Duration, wokenAt: Clock, asleep: seq<Event>)

  /**
   What others do: commits and notices of this process, its claims made with a visibility
   timeout, as a poll's are, and commits of other processes.
   */
  predicate OfOthers(e: Event) {
    e.Notify? || e.Foreign? || (e.Commit? && (e.op.ClaimOp? ==> e.op.lease >= 0))
  }

  lemma EventsAre(e: Event)
    requires OfOthers(e)
    ensures e.Notify? || e.Foreign? || e.Commit?
  {
  }

  /** No other process commits. */
  predicate NoForeign(events: seq<Event>) {
    forall e | e in events :: !e.Foreign?
  }

  predicate AllOfOthers(events: seq<Event>) {
    forall e | e in events :: OfOthers(e)
  }

  predicate TurnOk(t: Turn) {
    AllOfOthers(t.first) && AllOfOthers(t.second) && AllOfOthers(t.asleep)
  }

  /** The turns of one poll: its wait is over in the last of them. */
  predicate Wait(turns: seq<Turn>) {
    turns != [] && turns[|turns| - 1].remaining == 0 && forall t | t in turns :: TurnOk(t)
  }

  lemma WaitGoesOn(turns: seq<Turn>)
    requires Wait(turns) && turns[0].remaining != 0
    ensures Wait(turns[1..]) && |turns| > 1
  {
    assert |turns| > 1;
    assert turns[1..][|turns| - 2] == turns[|turns| - 1];
  }

  predicate Commits(e: Event) {
    e.Commit? || e.Foreign?
  }

  /** The transactions among some events. */
  function OpsOf(events: seq<Event>): seq<Op> {
    if events == [] then []
    else (if Commits(events[0]) then [events[0].op] else []) + OpsOf(events[1..])
  }

  // ---- What happens to the protocol's state ---------------------------------------------

  /** One event; a notice nobody owes any more is not sent. */
  function Act(p: Poller, cid: nat, filter: Option<string>, e: Event): Poller {
    if Enabled(p, e) then Next(p, cid, filter, e) else p
  }

  function Acts(p: Poller, cid: nat, filter: Option<string>, events: seq<Event>): Poller
    decreases |events|
  {
    if events == [] then p else Acts(Act(p, cid, filter, events[0]), cid, filter, events[1..])
  }

  lemma {:induction false} ActsAppend(p: Poller, cid: nat, filter: Option<string>, first: seq<Event>, second: seq<Event>)
    ensures Acts(p, cid, filter, first + second) == Acts(Acts(p, cid, filter, first), cid, filter, second)
    decreases |first|
  {
    hide Act;
    if first == [] {
      assert first + second == second;
    } else {
      assert (first + second)[1..] == first[1..] + second;
      ActsAppend(Act(p, cid, filter, first[0]), cid, filter, first[1..], second);
    }
  }

  lemma {:induction false} ActsOk(p: Poller, cid: nat, filter: Option<string>, events: seq<Event>)
    requires PollerOk(p, cid, filter)
    ensures PollerOk(Acts(p, cid, filter, events), cid, filter)
    decreases |events|
  {
    hide PollerOk, Next, Enabled;
    if events != [] {
      if Enabled(p, events[0]) {
        PollerStepOk(p, cid, filter, events[0]);
      }
      ActsOk(Act(p, cid, filter, events[0]), cid, filter, events[1..]);
    }
  }

  lemma OtherActs(p: Poller, cid: nat, filter: Option<string>, e: Event)
    requires OfOthers(e)
    ensures var q := Act(p, cid, filter, e);
      && q.db == (if Commits(e) then Step(p.db, e.op).0 else p.db)
      && q.phase == p.phase && q.seenPublishes == p.seenPublishes && q.seenChanges == p.seenChanges
  {
    hide Step, Announces, Reaches;
  }

  lemma OpsStep(db: Db, events: seq<Event>)
    requires events != []
    ensures Run(db, OpsOf(events)) == Run(if Commits(events[0]) then Step(db, events[0].op).0 else db, OpsOf(events[1..]))
  {
    hide Step;
    var rest := OpsOf(events[1..]);
    if Commits(events[0]) {
      assert OpsOf(events)[1..] == rest;
    } else {
      assert OpsOf(events) == rest;
    }
  }

  /** Others commit their transactions and leave the poller's own part alone. */
  lemma {:induction false} OthersAct(p: Poller, cid: nat, filter: Option<string>, events: seq<Event>)
    requires AllOfOthers(events)
    ensures var q := Acts(p, cid, filter, events);
      && q.db == Run(p.db, OpsOf(events))
      && q.phase == p.phase && q.seenPublishes == p.seenPublishes && q.seenChanges == p.seenChanges
    decreases |events|
  {
    hide Step, Act, OpsOf, OfOthers;
    if events == [] {
      assert OpsOf([]) == [] by { NoOps(); }
    } else {
      assert events[0] in events;
      OtherActs(p, cid, filter, events[0]);
      OthersAct(Act(p, cid, filter, events[0]), cid, filter, events[1..]);
      OpsStep(p.db, events);
    }
  }

  lemma NoOps()
    ensures OpsOf([]) == []
  {
  }

  // ---- The events of a poll -------------------------------------------------------------

  /** What one claim call does: a read, or a transaction among those of others and, if it is empty, a read after it. */
  function ClaimEvents(db: Db, cid: nat, max: nat, lease: int, t: Turn): seq<Event> {
    match ReadConsumer(db, cid)
    case None => []
    case Some(s) =>
      if NothingDue(s, t.now) then [Read]
      else if t.now + lease > I64_MAX then []
      else
        var claimed := Claim(Run(db, OpsOf(t.first)), cid, max, t.now, t.now + lease).1;
        t.first + [Commit(ClaimOp(cid, max, t.now, lease))] + (if claimed == Ok([]) then t.second + [Read] else [])
  }

  function ClaimOf(db: Db, cid: nat, max: nat, lease: int, t: Turn): (Db, Result<ClaimResult>) {
    ClaimCall(db, cid, max, t.now, lease, OpsOf(t.first), OpsOf(t.second))
  }

  /** The claim came back empty, and the poll goes to sleep. */
  predicate Sleeps(claim: Result<ClaimResult>, t: Turn) {
    && claim.Ok? && claim.value.deliveries == []
    && !(claim.value.draining && claim.value.nextVisibleAt.None?)
    && t.remaining != 0
  }

  function PollFrom(db: Db, cid: nat, max: nat, lease: int, turns: seq<Turn>): (Db, Result<seq<Delivery>>)
    requires Wait(turns)
    decreases |turns|
  {
    var (after, claim) := ClaimOf(db, cid, max, lease, turns[0]);
    if Sleeps(claim, turns[0]) then
      WaitGoesOn(turns);
      PollFrom(Run(after, OpsOf(turns[0].asleep)), cid, max, lease, turns[1..])
    else (after, if claim.Err? then Err(claim.error) else Ok(claim.value.deliveries))
  }

  /** How long a poll sleeps at most, sleep by sleep. */
  function PollNaps(db: Db, cid: nat, max: nat, lease: int, interval: Duration, turns: seq<Turn>): seq<Duration>
    requires Wait(turns)
    decreases |turns|
  {
    var t := turns[0];
    var (after, claim) := ClaimOf(db, cid, max, lease, t);
    if Sleeps(claim, t) then
      WaitGoesOn(turns);
      [SleepFor(t.remaining, interval, claim.value.nextVisibleAt, t.wokenAt)]
      + PollNaps(Run(after, OpsOf(t.asleep)), cid, max, lease, interval, turns[1..])
    else []
  }

  /** The events of a whole poll: mark both receivers, claim, sleep, and so on. */
  function PollTrace(db: Db, cid: nat, max: nat, lease: int, turns: seq<Turn>): seq<Event>
    requires Wait(turns)
    decreases |turns|
  {
    var (after, claim) := ClaimOf(db, cid, max, lease, turns[0]);
    [Mark] + ClaimEvents(db, cid, max, lease, turns[0])
    + (if Sleeps(claim, turns[0]) then
         WaitGoesOn(turns);
         turns[0].asleep + [Wake] + PollTrace(Run(after, OpsOf(turns[0].asleep)), cid, max, lease, turns[1..])
       else [])
  }

  /** The machine's state after the marks and the claim of a turn. */
  function AfterClaim(p: Poller, cid: nat, filter: Option<string>, max: nat, lease: int, t: Turn): Poller {
    Acts(p, cid, filter, [Mark] + ClaimEvents(p.db, cid, max, lease, t))
  }

  lemma OneEvent(p: Poller, cid: nat, filter: Option<string>, e: Event)
    ensures Acts(p, cid, filter, [e]) == Act(p, cid, filter, e)
  {
    hide Act;
    assert [e][1..] == [];
  }

  /** A claim changes the tables and owes nobody a notice. */
  lemma ClaimCommits(p: Poller, cid: nat, filter: Option<string>, max: nat, now: int, lease: int)
    requires lease >= 0
    ensures var after := Claim(p.db, cid, max, now, now + lease).0;
      Act(p, cid, filter, Commit(ClaimOp(cid, max, now, lease))) == p.(db := after, since := p.since + {after})
  {
    hide Claim;
  }

  /** The locked half and what surrounds it, event by event. */
  lemma LockedEvents(p: Poller, cid: nat, filter: Option<string>, max: nat, lease: int, t: Turn)
    requires p.phase.Reading? && TurnOk(t) && lease >= 0
    ensures var locked := Run(p.db, OpsOf(t.first));
      var claimed := Acts(p, cid, filter, t.first + [Commit(ClaimOp(cid, max, t.now, lease))]);
      var q := Acts(claimed, cid, filter, t.second + [Read]);
      && claimed.db == Claim(locked, cid, max, t.now, t.now + lease).0 && claimed.phase.Reading?
      && claimed.seenPublishes == p.seenPublishes && claimed.seenChanges == p.seenChanges
      && q.db == Run(claimed.db, OpsOf(t.second)) && q.phase.Sleeping?
      && q.seenPublishes == p.seenPublishes && q.seenChanges == p.seenChanges
  {
    hide Run, Claim, OpsOf, Acts;
    var commit := Commit(ClaimOp(cid, max, t.now, lease));
    OthersAct(p, cid, filter, t.first);
    ActsAppend(p, cid, filter, t.first, [commit]);
    OneEvent(Acts(p, cid, filter, t.first), cid, filter, commit);
    var claimed := Acts(p, cid, filter, t.first + [commit]);
    OthersAct(claimed, cid, filter, t.second);
    ActsAppend(claimed, cid, filter, t.second, [Read]);
    OneEvent(Acts(claimed, cid, filter, t.second), cid, filter, Read);
  }

  /** A claim call does to the tables what its events do, and an empty one ends with the read it answers from. */
  lemma ClaimActs(p: Poller, cid: nat, filter: Option<string>, max: nat, lease: int, t: Turn)
    requires p.phase.Marking? && TurnOk(t) && lease >= 0
    ensures var q := AfterClaim(p, cid, filter, max, lease, t); var (after, claim) := ClaimOf(p.db, cid, max, lease, t);
      && q.db == after
      && q.seenPublishes == p.publishes && q.seenChanges == p.changes
      && (claim.Ok? && claim.value.deliveries == [] ==>
            q.phase.Sleeping? && q.db == LastRead(p.db, cid, max, t.now, lease, OpsOf(t.first), OpsOf(t.second)))
  {
    hide Run, Claim, OpsOf, Acts, ReadConsumer, AfterEmpty;
    var events := ClaimEvents(p.db, cid, max, lease, t);
    ActsAppend(p, cid, filter, [Mark], events);
    OneEvent(p, cid, filter, Mark);
    var marked := Acts(p, cid, filter, [Mark]);
    OneEvent(marked, cid, filter, Read);
    NoEvents(marked, cid, filter);
    LockedEvents(marked, cid, filter, max, lease, t);
    var first := t.first + [Commit(ClaimOp(cid, max, t.now, lease))];
    ActsAppend(marked, cid, filter, first, t.second + [Read]);
    assert first + [] == first;
  }

  lemma NoEvents(p: Poller, cid: nat, filter: Option<string>)
    ensures Acts(p, cid, filter, []) == p
  {
  }

  lemma OneMoreEvent(p: Poller, cid: nat, filter: Option<string>, events: seq<Event>, i: nat)
    requires i < |events|
    ensures Acts(p, cid, filter, events[..i + 1]) == Act(Acts(p, cid, filter, events[..i]), cid, filter, events[i])
  {
    hide Act, Acts;
    assert events[..i + 1] == events[..i] + [events[i]];
    ActsAppend(p, cid, filter, events[..i], [events[i]]);
    OneEvent(Acts(p, cid, filter, events[..i]), cid, filter, events[i]);
  }

  lemma FirstTurn(turns: seq<Turn>)
    requires Wait(turns)
    ensures turns != [] && TurnOk(turns[0]) && AllOfOthers(turns[0].asleep)
  {
  }

  /** Marking the receivers is the machine's mark. */
  lemma ClaimTraced(p: Poller, cid: nat, filter: Option<string>, max: nat, lease: int, t: Turn)
    requires p.phase.Marking?
    ensures var marked := Act(p, cid, filter, Mark);
      && marked.phase.Reading? && marked.db == p.db && marked.pending == p.pending
      && marked.publishes == marked.seenPublishes == p.publishes && marked.changes == marked.seenChanges == p.changes
      && AfterClaim(p, cid, filter, max, lease, t) == Acts(marked, cid, filter, ClaimEvents(p.db, cid, max, lease, t))
  {
    hide Acts, ClaimEvents;
    OneEvent(p, cid, filter, Mark);
    ActsAppend(p, cid, filter, [Mark], ClaimEvents(p.db, cid, max, lease, t));
  }

  /** The events of a poll, turn by turn. */
  lemma TurnTraced(p: Poller, cid: nat, filter: Option<string>, max: nat, lease: int, turns: seq<Turn>)
    requires Wait(turns)
    ensures var t := turns[0]; var asleep := AfterClaim(p, cid, filter, max, lease, t);
      var (after, claim) := ClaimOf(p.db, cid, max, lease, t);
      var end := Acts(p, cid, filter, PollTrace(p.db, cid, max, lease, turns));
      if Sleeps(claim, t) then
        && Wait(turns[1..]) && |turns| > 1
        && PollFrom(p.db, cid, max, lease, turns) == PollFrom(Run(after, OpsOf(t.asleep)), cid, max, lease, turns[1..])
        && end == Acts(Acts(asleep, cid, filter, t.asleep + [Wake]), cid, filter, PollTrace(Run(after, OpsOf(t.asleep)), cid, max, lease, turns[1..]))
      else
        && PollFrom(p.db, cid, max, lease, turns) == (after, if claim.Err? then Err(claim.error) else Ok(claim.value.deliveries))
        && end == asleep
  {
    hide Acts, ClaimEvents, ClaimOf, Run, OpsOf, Wait;
    FirstTurn(turns);
    var t := turns[0];
    var (after, claim) := ClaimOf(p.db, cid, max, lease, t);
    var events := [Mark] + ClaimEvents(p.db, cid, max, lease, t);
    if Sleeps(claim, t) {
      WaitGoesOn(turns);
      var rest := PollTrace(Run(after, OpsOf(t.asleep)), cid, max, lease, turns[1..]);
      ActsAppend(p, cid, filter, events, t.asleep + [Wake] + rest);
      ActsAppend(AfterClaim(p, cid, filter, max, lease, t), cid, filter, t.asleep + [Wake], rest);
    } else {
      assert events + [] == events;
    }
  }

  /** The sleeps of a poll, turn by turn. */
  lemma TurnNaps(db: Db, cid: nat, max: nat, lease: int, interval: Duration, turns: seq<Turn>)
    requires Wait(turns)
    ensures var t := turns[0]; var (after, claim) := ClaimOf(db, cid, max, lease, t); var naps := PollNaps(db, cid, max, lease, interval, turns);
      if Sleeps(claim, t) then
        && Wait(turns[1..])
        && naps == [SleepFor(t.remaining, interval, claim.value.nextVisibleAt, t.wokenAt)] + PollNaps(Run(after, OpsOf(t.asleep)), cid, max, lease, interval, turns[1..])
      else naps == []
  {
    hide ClaimOf, Run, OpsOf, SleepFor;
    if Sleeps(ClaimOf(db, cid, max, lease, turns[0]).1, turns[0]) {
      WaitGoesOn(turns);
    }
  }

  // ---- What a sleep is measured against -------------------------------------------------

  /** The state in which a claim last looked for work: the one its read saw, or the one its transaction left. */
  function LookedAt(db: Db, cid: nat, max: nat, lease: int, t: Turn): Db {
    match ReadConsumer(db, cid)
    case None => db
    case Some(s) =>
      if NothingDue(s, t.now) || t.now + lease > I64_MAX then db
      else Claim(Run(db, OpsOf(t.first)), cid, max, t.now, t.now + lease).0
  }

  /** What others do between that and the end of an empty claim. */
  function AfterLooking(db: Db, cid: nat, t: Turn): seq<Event> {
    match ReadConsumer(db, cid)
    case None => []
    case Some(s) => if NothingDue(s, t.now) then [] else t.second
  }

  /** A state the tables have been in since the marks stays one until another process commits. */
  lemma {:induction false} StaysSince(p: Poller, cid: nat, filter: Option<string>, events: seq<Event>, past: Db)
    requires past in p.since && AllOfOthers(events) && NoForeign(events)
    ensures past in Acts(p, cid, filter, events).since
    decreases |events|
  {
    hide Act, OfOthers;
    if events != [] {
      assert events[0] in events;
      StaysForOne(p, cid, filter, events[0], past);
      StaysSince(Act(p, cid, filter, events[0]), cid, filter, events[1..], past);
    }
  }

  lemma StaysForOne(p: Poller, cid: nat, filter: Option<string>, e: Event, past: Db)
    requires past in p.since && OfOthers(e) && !e.Foreign?
    ensures past in Act(p, cid, filter, e).since
  {
    hide Step, Announces, Reaches;
  }

  lemma CommitLeaves(p: Poller, cid: nat, filter: Option<string>, e: Event)
    requires e.Commit? && OfOthers(e)
    ensures Act(p, cid, filter, e).db in Act(p, cid, filter, e).since
  {
    hide Step, Announces;
  }

  lemma LockedLooks(p: Poller, cid: nat, filter: Option<string>, max: nat, lease: int, t: Turn)
    requires p.phase.Reading? && TurnOk(t) && lease >= 0 && NoForeign(t.second)
    ensures Claim(Run(p.db, OpsOf(t.first)), cid, max, t.now, t.now + lease).0 in
              Acts(p, cid, filter, t.first + [Commit(ClaimOp(cid, max, t.now, lease))] + (t.second + [Read])).since
  {
    hide Run, Claim, OpsOf, Acts, Act;
    var commit := Commit(ClaimOp(cid, max, t.now, lease));
    LockedEvents(p, cid, filter, max, lease, t);
    ActsAppend(p, cid, filter, t.first, [commit]);
    OneEvent(Acts(p, cid, filter, t.first), cid, filter, commit);
    CommitLeaves(Acts(p, cid, filter, t.first), cid, filter, commit);
    var claimed := Acts(p, cid, filter, t.first + [commit]);
    StaysSince(claimed, cid, filter, t.second, claimed.db);
    ActsAppend(claimed, cid, filter, t.second, [Read]);
    OneEvent(Acts(claimed, cid, filter, t.second), cid, filter, Read);
    ReadKeeps(Acts(claimed, cid, filter, t.second), cid, filter);
    ActsAppend(p, cid, filter, t.first + [commit], t.second + [Read]);
  }

  lemma ReadKeeps(p: Poller, cid: nat, filter: Option<string>)
    ensures Act(p, cid, filter, Read).since == p.since
  {
  }

  /** An empty claim goes to sleep on the state it looked at, or on a later one. */
  lemma ClaimLooks(p: Poller, cid: nat, filter: Option<string>, max: nat, lease: int, t: Turn)
    requires p.phase.Marking? && TurnOk(t) && lease >= 0 && Sleeps(ClaimOf(p.db, cid, max, lease, t).1, t)
    requires NoForeign(AfterLooking(p.db, cid, t))
    ensures LookedAt(p.db, cid, max, lease, t) in AfterClaim(p, cid, filter, max, lease, t).since
  {
    hide Run, Claim, OpsOf, Acts, Act, ReadConsumer, AfterEmpty;
    var marked := Act(p, cid, filter, Mark);
    ClaimTraced(p, cid, filter, max, lease, t);
    MarkLeaves(p, cid, filter);
    OneEvent(marked, cid, filter, Read);
    ReadKeeps(marked, cid, filter);
    if NoForeign(t.second) {
      LockedLooks(marked, cid, filter, max, lease, t);
    }
  }

  lemma MarkLeaves(p: Poller, cid: nat, filter: Option<string>)
    requires p.phase.Marking?
    ensures p.db in Act(p, cid, filter, Mark).since
  {
  }

  /** The state a turn starts with. */
  function StartOf(db: Db, cid: nat, max: nat, lease: int, turns: seq<Turn>, k: nat): Db
    requires k < |turns|
    decreases k
  {
    if k == 0 then db
    else StartOf(Run(ClaimOf(db, cid, max, lease, turns[0]).0, OpsOf(turns[0].asleep)), cid, max, lease, turns[1..], k - 1)
  }

  /** The machine's state `n` events into the sleep of turn `k`. */
  function AsleepAt(p: Poller, cid: nat, filter: Option<string>, max: nat, lease: int, turns: seq<Turn>, k: nat, n: nat): Poller
    requires k < |turns| && n <= |turns[k].asleep|
    decreases k
  {
    var t := turns[0];
    var asleep := AfterClaim(p, cid, filter, max, lease, t);
    if k == 0 then Acts(asleep, cid, filter, t.asleep[..n])
    else AsleepAt(Acts(asleep, cid, filter, t.asleep + [Wake]), cid, filter, max, lease, turns[1..], k - 1, n)
  }

  /** The poll comes to turn `k` and sleeps in it. */
  predicate SleepsIn(db: Db, cid: nat, max: nat, lease: int, turns: seq<Turn>, k: nat)
    requires k < |turns|
    decreases k
  {
    var (after, claim) := ClaimOf(db, cid, max, lease, turns[0]);
    Sleeps(claim, turns[0]) && (k == 0 || SleepsIn(Run(after, OpsOf(turns[0].asleep)), cid, max, lease, turns[1..], k - 1))
  }

  /** Waking up brings the machine back to where a turn starts. */
  lemma WokenUp(p: Poller, cid: nat, filter: Option<string>, max: nat, lease: int, t: Turn)
    requires p.phase.Marking? && TurnOk(t) && lease >= 0 && Sleeps(ClaimOf(p.db, cid, max, lease, t).1, t)
    ensures var q := Acts(AfterClaim(p, cid, filter, max, lease, t), cid, filter, t.asleep + [Wake]);
      q.phase.Marking? && q.db == Run(ClaimOf(p.db, cid, max, lease, t).0, OpsOf(t.asleep))
  {
    hide Run, ClaimOf, AfterClaim, OpsOf, Acts;
    ClaimActs(p, cid, filter, max, lease, t);
    var asleep := AfterClaim(p, cid, filter, max, lease, t);
    OthersAct(asleep, cid, filter, t.asleep);
    ActsAppend(asleep, cid, filter, t.asleep, [Wake]);
    OneEvent(Acts(asleep, cid, filter, t.asleep), cid, filter, Wake);
  }

  lemma SomeOfOthers(events: seq<Event>, n: nat)
    requires AllOfOthers(events) && n <= |events|
    ensures AllOfOthers(events[..n])
  {
  }

  /**
   The loop of a poll runs the protocol: whenever it sleeps, and however much others have done
   since it fell asleep, news since its claim last looked for work is still to be announced to
   it or has woken it, unless another process has committed since; then the same holds for the
   news since that.
   */
  lemma {:induction false} PollSleepsThroughNothing(p: Poller, cid: nat, filter: Option<string>, max: nat, lease: int, turns: seq<Turn>, k: nat, n: nat)
    requires PollerOk(p, cid, filter) && p.phase.Marking? && lease >= 0 && (forall t | t in turns :: TurnOk(t))
    requires k < |turns| && n <= |turns[k].asleep| && SleepsIn(p.db, cid, max, lease, turns, k)
    ensures var q := AsleepAt(p, cid, filter, max, lease, turns, k, n);
      q.phase.Sleeping? && (NoNewsSince(q.since, q.db, cid) || NoticeComing(q, cid, filter) || Changed(q))
    ensures var start, t := StartOf(p.db, cid, max, lease, turns, k), turns[k];
      NoForeign(AfterLooking(start, cid, t)) && NoForeign(t.asleep[..n]) ==>
        LookedAt(start, cid, max, lease, t) in AsleepAt(p, cid, filter, max, lease, turns, k, n).since
    decreases k
  {
    hide Run, ClaimOf, AfterClaim, OpsOf, NoNewsSince, NoticeComing, Changed, Wf, Acts, LookedAt, AfterLooking, NoForeign, AllOfOthers;
    var t := turns[0];
    ClaimActs(p, cid, filter, max, lease, t);
    ClaimStaysOk(p, cid, filter, max, lease, t);
    var asleep := AfterClaim(p, cid, filter, max, lease, t);
    if k == 0 {
      SomeOfOthers(t.asleep, n);
      OthersAct(asleep, cid, filter, t.asleep[..n]);
      ActsOk(asleep, cid, filter, t.asleep[..n]);
      if NoForeign(AfterLooking(p.db, cid, t)) && NoForeign(t.asleep[..n]) {
        ClaimLooks(p, cid, filter, max, lease, t);
        StaysSince(asleep, cid, filter, t.asleep[..n], LookedAt(p.db, cid, max, lease, t));
      }
    } else {
      WokenUp(p, cid, filter, max, lease, t);
      ActsOk(asleep, cid, filter, t.asleep + [Wake]);
      PollSleepsThroughNothing(Acts(asleep, cid, filter, t.asleep + [Wake]), cid, filter, max, lease, turns[1..], k - 1, n);
    }
  }

  /** What a poll sleeps through otherwise: a commit of another process reaches none of its signals. */
  lemma ForeignWakesNobody(p: Poller, cid: nat, filter: Option<string>, op: Op)
    ensures var q := Next(p, cid, filter, Foreign(op));
      q.phase == p.phase && (NoticeComing(q, cid, filter) <==> NoticeComing(p, cid, filter)) && (Changed(q) <==> Changed(p))
  {
    hide Step, Reaches;
  }

  lemma ClaimStaysOk(p: Poller, cid: nat, filter: Option<string>, max: nat, lease: int, t: Turn)
    requires PollerOk(p, cid, filter)
    ensures PollerOk(AfterClaim(p, cid, filter, max, lease, t), cid, filter)
  {
    hide PollerOk, ClaimEvents;
    ActsOk(p, cid, filter, [Mark] + ClaimEvents(p.db, cid, max, lease, t));
  }

  // ---- What a poll returns --------------------------------------------------------------

  /** The turn a poll returns in, and the state it began that turn with. */
  function ReturnTurn(db: Db, cid: nat, max: nat, lease: int, turns: seq<Turn>): (r: (nat, Db))
    requires Wait(turns)
    ensures r.0 < |turns|
    decreases |turns|
  {
    var (after, claim) := ClaimOf(db, cid, max, lease, turns[0]);
    if Sleeps(claim, turns[0]) then
      WaitGoesOn(turns);
      var (i, start) := ReturnTurn(Run(after, OpsOf(turns[0].asleep)), cid, max, lease, turns[1..]);
      (i + 1, start)
    else (0, db)
  }

  /**
   A poll that returns deliveries returns those of one locked claim, on a reachable state; one
   that returns nothing has read a drained consumer, or its wait is over.
   */
  lemma {:induction false} PollReturns(db: Db, cid: nat, max: nat, lease: int, turns: seq<Turn>)
    requires Wf(db) && Wait(turns)
    ensures var (end, r) := PollFrom(db, cid, max, lease, turns);
      var (i, start) := ReturnTurn(db, cid, max, lease, turns); var t := turns[i];
      && Wf(start) && Wf(end)
      && (r.Ok? && r.value != [] ==> (end, Ok(r.value)) == Claim(Run(start, OpsOf(t.first)), cid, max, t.now, t.now + lease))
      && (r == Ok([]) ==> t.remaining == 0 || FullyDrained(LastRead(start, cid, max, t.now, lease, OpsOf(t.first), OpsOf(t.second)), cid))
      && (r.Err? ==> r.error == ConsumerDeleted || r.error == DurationOutOfRange)
    decreases |turns|
  {
    hide Wf, ClaimCall, Run, Claim, FullyDrained, LastRead, OpsOf;
    var t := turns[0];
    var (after, claim) := ClaimOf(db, cid, max, lease, t);
    DisturbedClaim(db, cid, max, t.now, lease, OpsOf(t.first), OpsOf(t.second));
    if Sleeps(claim, t) {
      WaitGoesOn(turns);
      RunKept(after, OpsOf(t.asleep));
      PollReturns(Run(after, OpsOf(t.asleep)), cid, max, lease, turns[1..]);
    } else if claim.Ok? && claim.value.deliveries == [] && t.remaining != 0 {
      EarlyExitIsDrained(db, cid, max, t.now, lease, OpsOf(t.first), OpsOf(t.second));
    }
  }

  // ---- When a poll goes on, and when it ends --------------------------------------------

  /** The answer of the claim in turn `k`. */
  function ClaimIn(db: Db, cid: nat, max: nat, lease: int, turns: seq<Turn>, k: nat): Result<ClaimResult>
    requires k < |turns|
  {
    ClaimOf(StartOf(db, cid, max, lease, turns, k), cid, max, lease, turns[k]).1
  }

  /** The state its last read saw. */
  function ReadIn(db: Db, cid: nat, max: nat, lease: int, turns: seq<Turn>, k: nat): Db
    requires k < |turns|
  {
    LastRead(StartOf(db, cid, max, lease, turns, k), cid, max, turns[k].now, lease, OpsOf(turns[k].first), OpsOf(turns[k].second))
  }

  /** What a turn's claim must have come to for the poll to sleep. */
  ghost predicate GoesOn(claim: Result<ClaimResult>, read: Db, cid: nat, t: Turn) {
    claim.Ok? && claim.value.deliveries == [] && !Exhausted(read, cid) && t.remaining != 0
  }

  lemma SleepsExactly(db: Db, cid: nat, max: nat, lease: int, t: Turn)
    requires Wf(db)
    ensures Sleeps(ClaimOf(db, cid, max, lease, t).1, t) <==>
      GoesOn(ClaimOf(db, cid, max, lease, t).1, LastRead(db, cid, max, t.now, lease, OpsOf(t.first), OpsOf(t.second)), cid, t)
  {
    hide Wf, ClaimCall, LastRead, Exhausted, OpsOf;
    var claim := ClaimOf(db, cid, max, lease, t).1;
    if claim.Ok? && claim.value.deliveries == [] {
      NothingToWaitFor(db, cid, max, t.now, lease, OpsOf(t.first), OpsOf(t.second));
    }
  }

  /**
   A poll ends in the first turn whose claim delivers something, fails, or last reads an exhausted
   consumer, or with which the wait is over, and answers what that claim did; and it sleeps in
   every turn before, up to its interval, the rest of its wait, and the time that claim reported.
   */
  lemma {:induction false} PollEndsExactly(db: Db, cid: nat, max: nat, lease: int, interval: Duration, turns: seq<Turn>, k: nat)
    requires Wf(db) && Wait(turns) && k <= ReturnTurn(db, cid, max, lease, turns).0
    ensures var (end, start) := ReturnTurn(db, cid, max, lease, turns); var claim := ClaimIn(db, cid, max, lease, turns, k);
      var naps := PollNaps(db, cid, max, lease, interval, turns);
      && (k < end <==> GoesOn(claim, ReadIn(db, cid, max, lease, turns, k), cid, turns[k]))
      && (k == end ==>
            && start == StartOf(db, cid, max, lease, turns, k)
            && PollFrom(db, cid, max, lease, turns) ==
                 (ClaimOf(start, cid, max, lease, turns[k]).0, if claim.Err? then Err(claim.error) else Ok(claim.value.deliveries)))
      && |naps| == end
      && (k < end ==> naps[k] == SleepFor(turns[k].remaining, interval, claim.value.nextVisibleAt, turns[k].wokenAt))
    decreases k
  {
    hide Wf, ClaimOf, Run, LastRead, OpsOf, Exhausted, Sleeps, SleepFor, Wait, GoesOn;
    var t := turns[0];
    FirstTurn(turns);
    var (after, claim) := ClaimOf(db, cid, max, lease, t);
    SleepsExactly(db, cid, max, lease, t);
    NapsAre(db, cid, max, lease, interval, turns);
    if Sleeps(claim, t) {
      GoesOnIs(claim, LastRead(db, cid, max, t.now, lease, OpsOf(t.first), OpsOf(t.second)), cid, t);
      WaitGoesOn(turns);
      ClaimOfKept(db, cid, max, lease, t);
      RunKept(after, OpsOf(t.asleep));
      if k > 0 {
        PollEndsExactly(Run(after, OpsOf(t.asleep)), cid, max, lease, interval, turns[1..], k - 1);
      }
    }
  }

  lemma GoesOnIs(claim: Result<ClaimResult>, read: Db, cid: nat, t: Turn)
    requires GoesOn(claim, read, cid, t)
    ensures claim.Ok? && t.remaining != 0
  {
  }

  lemma ClaimOfKept(db: Db, cid: nat, max: nat, lease: int, t: Turn)
    requires Wf(db)
    ensures Wf(ClaimOf(db, cid, max, lease, t).0)
  {
    hide Wf, ClaimCall, OpsOf;
    DisturbedClaim(db, cid, max, t.now, lease, OpsOf(t.first), OpsOf(t.second));
  }

  lemma {:induction false} NapsAre(db: Db, cid: nat, max: nat, lease: int, interval: Duration, turns: seq<Turn>)
    requires Wait(turns)
    ensures |PollNaps(db, cid, max, lease, interval, turns)| == ReturnTurn(db, cid, max, lease, turns).0
    decreases |turns|
  {
    hide ClaimOf, Run, OpsOf, SleepFor;
    var (after, claim) := ClaimOf(db, cid, max, lease, turns[0]);
    if Sleeps(claim, turns[0]) {
      WaitGoesOn(turns);
      NapsAre(Run(after, OpsOf(turns[0].asleep)), cid, max, lease, interval, turns[1..]);
    }
  }

  /**
   A poll of a drained consumer returns at once, with nothing and without a sleep, however long its
   wait, and whatever others commit during its claim short of redriving to the consumer; if they
   delete the consumer it may report that instead.
   */
  lemma DrainedPollReturnsAtOnce(db: Db, cid: nat, max: nat, lease: int, interval: Duration, turns: seq<Turn>)
    requires Wf(db) && FullyDrained(db, cid) && max > 0 && Wait(turns) && turns[0].now + lease <= I64_MAX
    requires var t := turns[0];
      && NeverRefilled(db, OpsOf(t.first), cid)
      && NeverRefilled(Claim(Run(db, OpsOf(t.first)), cid, max, t.now, t.now + lease).0, OpsOf(t.second), cid)
    ensures var r := PollFrom(db, cid, max, lease, turns).1;
      && ReturnTurn(db, cid, max, lease, turns) == (0, db) && PollNaps(db, cid, max, lease, interval, turns) == []
      && r == if cid in ReadIn(db, cid, max, lease, turns, 0).core.consumers then Ok([]) else Err(ConsumerDeleted)
  {
    hide Wf, ClaimCall, Run, Claim, FullyDrained, NeverRefilled, OpsOf, LastRead, SleepFor;
    var t := turns[0];
    Draining.ClaimOfDrained(db, cid, max, t.now, lease, OpsOf(t.first), OpsOf(t.second));
  }

  /** With nobody else about, the answer is nothing. */
  lemma QuietDrainedPoll(db: Db, cid: nat, max: nat, lease: int, interval: Duration, turns: seq<Turn>)
    requires Wf(db) && FullyDrained(db, cid) && max > 0 && Wait(turns) && turns[0].now + lease <= I64_MAX
    requires OpsOf(turns[0].first) == [] && OpsOf(turns[0].second) == []
    ensures PollFrom(db, cid, max, lease, turns).1 == Ok([]) && PollNaps(db, cid, max, lease, interval, turns) == []
  {
    hide Wf, Run, Claim, FullyDrained, OpsOf, ReadConsumer, NothingDue, PollFrom, PollNaps, Wait;
    FirstTurn(turns);
    var t := turns[0];
    RunNothing(db);
    RunNothing(Claim(db, cid, max, t.now, t.now + lease).0);
    DrainedHas(db, cid);
    DrainedPollReturnsAtOnce(db, cid, max, lease, interval, turns);
    Draining.DrainedClaim(db, cid, max, t.now, lease);
  }
}
