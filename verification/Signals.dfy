/**
 In-process notification: watch channels shared by the handles of one process, and the
 registry that finds the live channel of a topic or a consumer through weak references.
 */
module Signals {
  import opened Prelude

  /** A watch channel. `version` counts its sends; `strong` counts the handles that keep it alive. */
  class Signal {
    var version: nat
    var strong: nat

    /** A new channel, owned by whoever asked for it. */
    constructor ()
      ensures version == 0 && strong == 1
    {
      version := 0;
      strong := 1;
    }

    method Notify()
      modifies this`version
      ensures version == old(version) + 1
    {
      version := version + 1;
    }
  }

  /** The receiving end: changed when something was sent since it last looked. */
  class Receiver {
    const signal: Signal
    var seen: nat

    constructor (signal: Signal)
      ensures this.signal == signal && seen == signal.version
    {
      this.signal := signal;
      seen := signal.version;
    }

    predicate HasChanged()
      reads this, signal
    {
      seen != signal.version
    }

    method BorrowAndUpdate()
      modifies this
      ensures seen == signal.version && !HasChanged()
    {
      seen := signal.version;
    }
  }

  /** One map of weak references; an entry whose signal has no handle left cannot be upgraded. */
  class Registry<K(==)> {
    var entries: map<K, Signal>
    /** Every signal this registry ever made, with the key it was made for. */
    ghost var made: map<Signal, K>

    /** A live signal of a key is the one the registry holds. */
    ghost predicate Valid()
      reads this, made.Keys
    {
      && (forall k | k in entries :: entries[k] in made && made[entries[k]] == k)
      && (forall s | s in made && s.strong > 0 :: made[s] in entries && entries[made[s]] == s)
    }

    constructor ()
      ensures Valid() && made == map[]
    {
      entries := map[];
      made := map[];
    }

    /** The shared live signal of the key, made if there is none; the caller gets one handle to it. */
    method SignalForKey(key: K) returns (signal: Signal)
      requires Valid()
      modifies this, made.Keys
      ensures Valid() && key in entries && entries[key] == signal && signal in made && made[signal] == key
      ensures forall s | s in old(made) :: s in made && made[s] == old(made[s]) && s.version == old(s.version)
      ensures forall s | s in old(made) && s != signal :: s.strong == old(s.strong)
      ensures forall s | s in made && s !in old(made) :: s == signal && fresh(s)
      ensures if signal in old(made) then old(signal.strong) > 0 && signal.strong == old(signal.strong) + 1
              else signal.strong == 1 && signal.version == 0
      ensures (exists s :: s in old(made) && old(made[s]) == key && old(s.strong) > 0) ==> signal in old(made)
    {
      if key in entries && entries[key].strong > 0 {
        signal := entries[key];
        signal.strong := signal.strong + 1;
      } else {
        signal := new Signal();
        entries := entries[key := signal];
        made := made[signal := key];
      }
    }

    /** A handle of one of its signals goes away. */
    method Release(signal: Signal)
      requires Valid() && signal in made && signal.strong > 0
      modifies signal`strong
      ensures Valid() && signal.strong == old(signal.strong) - 1
    {
      signal.strong := signal.strong - 1;
    }

    /** Reaches every live signal of the key, which is at most one, and forgets a dead entry. */
    method NotifyKey(key: K)
      requires Valid()
      modifies this`entries, made.Keys
      ensures Valid()
      ensures forall s | s in made :: s.strong == old(s.strong)
      ensures forall s | s in made :: s.version == old(s.version) + (if made[s] == key && s.strong > 0 then 1 else 0)
      ensures entries == if key in old(entries) && old(entries[key].strong) > 0 then old(entries) else old(entries) - {key}
    {
      if key in entries && entries[key].strong > 0 {
        entries[key].Notify();
      } else {
        entries := entries - {key};
      }
    }

    /** One notification for each of the keys. */
    method NotifyKeys(keys: set<K>)
      requires Valid()
      modifies this`entries, made.Keys
      ensures Valid()
      ensures forall s | s in made :: s.strong == old(s.strong)
      ensures forall s | s in made :: s.version == old(s.version) + (if made[s] in keys && s.strong > 0 then 1 else 0)
    {
      var left := keys;
      while left != {}
        invariant Valid() && left <= keys
        invariant forall s | s in made :: s.strong == old(s.strong)
        invariant forall s | s in made :: s.version == old(s.version) + (if made[s] in keys - left && s.strong > 0 then 1 else 0)
        decreases |left|
      {
        var key :| key in left;
        NotifyKey(key);
        left := left - {key};
      }
    }
  }

  /** The topics of a publish, without repetitions and without null. */
  method DistinctTopics(published: seq<Option<string>>) returns (distinct: set<string>)
    ensures forall t :: t in distinct <==> Some(t) in published
  {
    distinct := {};
    for i := 0 to |published|
      invariant forall t :: t in distinct <==> Some(t) in published[..i]
    {
      if published[i].Some? {
        distinct := distinct + {published[i].value};
      }
    }
    assert published[..|published|] == published;
  }

  class Hub {
    const allPublishes: Signal
    const topics: Registry<string>
    const consumers: Registry<nat>

    ghost predicate Valid()
      reads this, allPublishes, topics, consumers, topics.made.Keys, consumers.made.Keys
    {
      && topics.Valid() && consumers.Valid()
      && allPublishes !in topics.made && allPublishes !in consumers.made
      && topics.made.Keys !! consumers.made.Keys
    }

    constructor ()
      ensures Valid() && topics.made == map[] && consumers.made == map[]
      ensures fresh(allPublishes) && fresh(topics) && fresh(consumers)
    {
      allPublishes := new Signal();
      topics := new Registry();
      consumers := new Registry();
    }

    /** The signal a handle with this filter listens to: the all-topics one, or its topic's live one. */
    method PublishesFor(filter: Option<string>) returns (signal: Signal)
      requires Valid()
      modifies topics, topics.made.Keys
      ensures Valid() && Listens(filter, signal)
      ensures consumers.made == old(consumers.made) && forall s | s in consumers.made :: s.version == old(s.version) && s.strong == old(s.strong)
      ensures forall s | s in old(topics.made) :: s in topics.made && topics.made[s] == old(topics.made[s]) && s.version == old(s.version) && s.strong >= old(s.strong)
    {
      if filter.None? {
        signal := allPublishes;
      } else {
        signal := topics.SignalForKey(filter.value);
      }
    }

    /** The live signal of one consumer identity. */
    method ConsumerSignal(id: nat) returns (signal: Signal)
      requires Valid()
      modifies consumers, consumers.made.Keys
      ensures Valid() && signal in consumers.made && consumers.made[signal] == id && signal.strong > 0
      ensures topics.made == old(topics.made) && forall s | s in topics.made :: s.version == old(s.version) && s.strong == old(s.strong)
      ensures forall s | s in old(consumers.made) :: s in consumers.made && consumers.made[s] == old(consumers.made[s]) && s.version == old(s.version) && s.strong >= old(s.strong)
    {
      signal := consumers.SignalForKey(id);
    }

    /** A live signal a handle with this filter has. */
    ghost predicate Listens(filter: Option<string>, signal: Signal)
      reads this, allPublishes, topics, topics.made.Keys, signal
    {
      if filter.None? then signal == allPublishes
      else signal in topics.made && topics.made[signal] == filter.value && signal.strong > 0
    }

    /** Every all-topics signal, and the live signals of the topics published to, once each. */
    method NotifyPublishes(published: seq<Option<string>>)
      requires Valid()
      modifies allPublishes`version, topics`entries, topics.made.Keys
      ensures Valid() && topics.made == old(topics.made)
      ensures allPublishes.version == old(allPublishes.version) + 1
      ensures forall s | s in topics.made :: s.strong == old(s.strong)
      ensures forall s | s in topics.made ::
        s.version == old(s.version) + (if Some(topics.made[s]) in published && s.strong > 0 then 1 else 0)
    {
      allPublishes.Notify();
      var distinct := DistinctTopics(published);
      topics.NotifyKeys(distinct);
    }

    method NotifyConsumer(id: nat)
      requires Valid()
      modifies consumers`entries, consumers.made.Keys
      ensures Valid() && consumers.made == old(consumers.made)
      ensures forall s | s in consumers.made :: s.strong == old(s.strong)
      ensures forall s | s in consumers.made :: s.version == old(s.version) + (if consumers.made[s] == id && s.strong > 0 then 1 else 0)
    {
      consumers.NotifyKey(id);
    }
  }
}
