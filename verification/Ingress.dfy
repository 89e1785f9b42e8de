/** The broker ingress: one publisher per distinct topic, routing by event type, and forwarding one
    verified event. */
module Ingress {
  import opened Options
  import opened CloudEvent

  /** A call of Publish and what its result was. */
  datatype Attempt = Attempt(msg: Message, ok: bool)

  class Publisher {
    const topic: string
    const accepts: nat -> bool       // whether the service takes the n-th message
    var orderingEnabled: bool
    var paused: set<string>          // ordering keys the client has paused
    var published: seq<Message>
    var attempts: seq<Attempt>

    constructor (topic: string, accepts: nat -> bool)
      ensures this.topic == topic && this.accepts == accepts
      ensures !orderingEnabled && paused == {} && published == [] && attempts == []
    {
      this.topic, this.accepts := topic, accepts;
      orderingEnabled, paused, published, attempts := false, {}, [], [];
    }

    /** The client refuses a message with this key without sending it. */
    predicate Rejects(key: string)
      reads this
    {
      key != "" && (!orderingEnabled || key in paused)
    }

    /** Publish and wait for the result.  A message is rejected at once only for a paused key, or for a key without
        ordering enabled; otherwise the service decides.  A message that was sent in vain pauses its key. */
    method Publish(msg: Message) returns (ok: bool)
      modifies this`paused, this`published, this`attempts
      ensures attempts == old(attempts) + [Attempt(msg, ok)]
      ensures ok <==> !old(Rejects(msg.orderingKey)) && accepts(|old(attempts)|)
      ensures published == old(published) + if ok then [msg] else []
      ensures paused ==
              if ok || old(Rejects(msg.orderingKey)) || msg.orderingKey == "" then old(paused)
              else old(paused) + {msg.orderingKey}
    {
      ok := !Rejects(msg.orderingKey) && accepts(|attempts|);
      if ok {
        published := published + [msg];
      } else if !Rejects(msg.orderingKey) && msg.orderingKey != "" {
        paused := paused + {msg.orderingKey};
      }
      attempts := attempts + [Attempt(msg, ok)];
    }

    method ResumePublish(key: string)
      modifies this`paused
      ensures paused == old(paused) - {key}
    {
      paused := paused - {key};
    }
  }

  // ----- Building the publishers -----

  /** One publisher per topic, each with ordering enabled. */
  ghost predicate OnePerTopic(byTopic: map<string, Publisher>)
    reads byTopic.Values
  {
    forall name :: name in byTopic ==> byTopic[name].topic == name && byTopic[name].orderingEnabled
  }

  /** The closure in buildPublishers: reuse the topic's publisher or make one.  `psc` stands for the client: what
      the service will answer on each topic. */
  method PublisherFor(psc: string -> (nat -> bool), byTopic: map<string, Publisher>, name: string)
    returns (p: Publisher, byTopic': map<string, Publisher>)
    requires OnePerTopic(byTopic)
    ensures p.topic == name && OnePerTopic(byTopic')
    ensures name in byTopic ==> byTopic' == byTopic && p == byTopic[name]
    ensures name !in byTopic ==> fresh(p) && byTopic' == byTopic[name := p]
  {
    if name in byTopic {
      return byTopic[name], byTopic;
    }
    p := new Publisher(name, psc(name));
    p.orderingEnabled := true;
    byTopic' := byTopic[name := p];
  }

  /** What buildPublishers hands out on success. */
  ghost predicate Built(
    defaultTopic: string, overrides: map<string, string>, def: Publisher, byType: map<string, Publisher>,
    all: seq<Publisher>)
    reads all
  {
    && def.topic == defaultTopic && def in all
    && byType.Keys == overrides.Keys
    && (forall t :: t in overrides ==> byType[t].topic == overrides[t] && byType[t] in all)
    // Each distinct topic has exactly one publisher in the list, and no other topic has one.
    && (forall i, j :: 0 <= i < j < |all| ==> all[i].topic != all[j].topic)
    && (forall p :: p in all ==> p.orderingEnabled)
    && (forall p :: p in all ==> p.topic == defaultTopic || exists t :: t in overrides && overrides[t] == p.topic)
  }

  /** The closing loop of buildPublishers, which lists the publishers in no particular order. */
  method ListPublishers(byTopic: map<string, Publisher>) returns (all: seq<Publisher>)
    requires forall name :: name in byTopic ==> byTopic[name].topic == name
    ensures forall p :: p in all ==> p.topic in byTopic && byTopic[p.topic] == p
    ensures forall name :: name in byTopic ==> byTopic[name] in all
    ensures forall i, j :: 0 <= i < j < |all| ==> all[i].topic != all[j].topic
  {
    all := [];
    var names := byTopic.Keys;
    while names != {}
      invariant names <= byTopic.Keys
      invariant forall p :: p in all ==> p.topic in byTopic && p.topic !in names && byTopic[p.topic] == p
      invariant forall name :: name in byTopic && name !in names ==> byTopic[name] in all
      invariant forall i, j :: 0 <= i < j < |all| ==> all[i].topic != all[j].topic
    {
      var name :| name in names;
      names := names - {name};
      assert forall i :: 0 <= i < |all| ==> all[i] in all;
      all := all + [byTopic[name]];
    }
  }

  method BuildPublishers(psc: string -> (nat -> bool), defaultTopic: string, overrides: map<string, string>)
    returns (def: Publisher?, byType: map<string, Publisher>, all: seq<Publisher>, failed: bool)
    ensures failed <==> exists t :: t in overrides && overrides[t] == ""
    ensures !failed ==> def != null && fresh(all) && Built(defaultTopic, overrides, def, byType, all)
  {
    var byTopic: map<string, Publisher> := map[];
    def, byTopic := PublisherFor(psc, byTopic, defaultTopic);
    byType := map[];
    var todo := overrides.Keys;
    while todo != {}
      invariant todo <= overrides.Keys && byType.Keys == overrides.Keys - todo
      invariant OnePerTopic(byTopic) && forall name :: name in byTopic ==> fresh(byTopic[name])
      invariant defaultTopic in byTopic && byTopic[defaultTopic] == def
      invariant forall t :: t in byType ==>
                  overrides[t] != "" && overrides[t] in byTopic && byType[t] == byTopic[overrides[t]]
      invariant forall name :: name in byTopic ==>
                  name == defaultTopic || exists t :: t in overrides && overrides[t] == name
    {
      var t :| t in todo;
      if overrides[t] == "" {
        return null, map[], [], true;
      }
      var p;
      p, byTopic := PublisherFor(psc, byTopic, overrides[t]);
      byType := byType[t := p];
      todo := todo - {t};
    }
    all := ListPublishers(byTopic);
    failed := false;
    assert forall p :: p in all ==> p in byTopic.Values;
  }

  function PublisherForType(byType: map<string, Publisher>, def: Publisher, kind: string): Publisher {
    if kind in byType then byType[kind] else def
  }

  /** Routing: an event goes to the publisher of its own override topic, else to the default one, and
      two types share a publisher exactly when they share a topic. */
  lemma RoutingFollowsTopics(
    defaultTopic: string, overrides: map<string, string>, def: Publisher, byType: map<string, Publisher>,
    all: seq<Publisher>, kind: string, other: string)
    requires Built(defaultTopic, overrides, def, byType, all)
    ensures var p, q := PublisherForType(byType, def, kind), PublisherForType(byType, def, other);
            && p in all && q in all
            && p.topic == (if kind in overrides then overrides[kind] else defaultTopic)
            && (p == q <==> p.topic == q.topic)
  {
  }

  // ----- Forwarding one event -----

  /** The message for an event: its own attributes with the authenticated sender stamped on, its data, and
      its ordering key. */
  ghost predicate IsMessageOf(msg: Message, e: Event, actor: string) {
    && (exists a :: Holds(e, e.extensions.Keys, a) && msg.attributes == Stamped(a, actor))
    && msg.data == e.data
    && msg.orderingKey == OrderingKeyOf(e)
  }

  /** So there is one message an event can be published as.  A subscriber reads the event's own fields and
      extensions in it, and an actor that no extension can forge; its ordering key is the partitionkey extension. */
  lemma MessageIsDetermined(msg: Message, other: Message, e: Event, actor: string)
    requires IsMessageOf(msg, e, actor) && IsMessageOf(other, e, actor)
    ensures msg == other
    ensures Read(msg) == Some(AsRead(e).(extensions := Carried(e)["actor" := actor]))
    ensures msg.orderingKey == if "partitionkey" in Carried(e) then Carried(e)["partitionkey"] else ""
  {
    var a :| Holds(e, e.extensions.Keys, a) && msg.attributes == Stamped(a, actor);
    var b :| Holds(e, e.extensions.Keys, b) && other.attributes == Stamped(b, actor);
    AttributesAreUnique(e, a, b);
    StampedMessage(e, a, actor);
  }

  /** Publishes the event with its sender stamped on; after a failure it resumes the event's key. */
  method Forward(p: Publisher, e: Event, actor: string) returns (ok: bool, ghost sent: Message)
    modifies p`paused, p`published, p`attempts
    // Exactly the event's message is published, once, and its outcome reported.
    ensures IsMessageOf(sent, e, actor)
    ensures p.attempts == old(p.attempts) + [Attempt(sent, ok)]
    ensures p.published == old(p.published) + if ok then [sent] else []
    // It fails only if the client refuses the event's key or the service the message.
    ensures ok <==> !old(p.Rejects(OrderingKeyOf(e))) && p.accepts(|old(p.attempts)|)
    // Failure leaves the event's key unpaused, and pauses or resumes no other.
    ensures p.paused == if ok || OrderingKeyOf(e) == "" then old(p.paused) else old(p.paused) - {OrderingKeyOf(e)}
  {
    var msg := FromCloudEvent(e, true);
    msg := msg.(attributes := Stamped(msg.attributes, actor));
    sent := msg;
    ok := p.Publish(msg);
    if !ok {
      if msg.orderingKey != "" {
        p.ResumePublish(msg.orderingKey);
      }
    }
  }
}
