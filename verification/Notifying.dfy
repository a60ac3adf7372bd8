/** Sending a notice of the protocol through the hub: the poller's signals move exactly when it reaches them. */
module Notifying {
  import opened Prelude
  import opened Signals
  import opened Wakeups

  method TopicList(topics: set<Option<string>>) returns (list: seq<Option<string>>)
    ensures forall t :: t in list <==> t in topics
  {
    list := [];
    var left := topics;
    while left != {}
      invariant left <= topics && forall t :: t in list <==> t in topics - left
      decreases |left|
    {
      var t :| t in left;
      list := list + [t];
      left := left - {t};
    }
  }

  /** The live signals the notice is for, and no others, have been sent one change. */
  twostate predicate Heard(hub: Hub, n: Option<Notice>)
    reads hub.allPublishes, hub.topics, hub.consumers, hub.topics.made.Keys, hub.consumers.made.Keys
  {
    && hub.topics.made == old(hub.topics.made) && hub.consumers.made == old(hub.consumers.made)
    && hub.allPublishes.version == old(hub.allPublishes.version) + (if n.Some? && n.value.PublishNotice? then 1 else 0)
    && (forall s | s in hub.topics.made ::
          && s.strong == old(s.strong)
          && s.version == old(s.version) + (if n.Some? && n.value.PublishNotice? && Some(hub.topics.made[s]) in n.value.topics && s.strong > 0 then 1 else 0))
    && (forall s | s in hub.consumers.made ::
          && s.strong == old(s.strong)
          && s.version == old(s.version) + (if n == Some(ConsumerNotice(hub.consumers.made[s])) && s.strong > 0 then 1 else 0))
  }

  /** What a committed writer does with its notice, if it has one. */
  method Broadcast(hub: Hub, n: Option<Notice>)
    requires hub.Valid()
    modifies hub.allPublishes`version, hub.topics`entries, hub.topics.made.Keys, hub.consumers`entries, hub.consumers.made.Keys
    ensures hub.Valid() && Heard(hub, n)
  {
    match n
    case None =>
    case Some(PublishNotice(topics)) =>
      var list := TopicList(topics);
      hub.NotifyPublishes(list);
    case Some(ConsumerNotice(id)) =>
      hub.NotifyConsumer(id);
  }

  /** For any handle: `publishes` and `changes` are the live signals of its filter and consumer id. */
  method Send(hub: Hub, n: Notice, ghost cid: nat, ghost filter: Option<string>, ghost publishes: Signal, ghost changes: Signal)
    requires hub.Valid() && hub.Listens(filter, publishes)
    requires changes in hub.consumers.made && hub.consumers.made[changes] == cid && changes.strong > 0
    modifies hub.allPublishes`version, hub.topics`entries, hub.topics.made.Keys, hub.consumers`entries, hub.consumers.made.Keys
    ensures hub.Valid() && hub.Listens(filter, publishes)
    ensures hub.topics.made == old(hub.topics.made) && hub.consumers.made == old(hub.consumers.made) && changes.strong > 0
    ensures publishes.version == old(publishes.version) + (if n.PublishNotice? && Reaches(n, cid, filter) then 1 else 0)
    ensures changes.version == old(changes.version) + (if n.ConsumerNotice? && Reaches(n, cid, filter) then 1 else 0)
  {
    Broadcast(hub, Some(n));
  }
}
