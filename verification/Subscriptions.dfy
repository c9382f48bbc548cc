/**
  The chat context's subscriptions: one handler per topic, and the effect that
  brings them in line with the bootstrap and conversation topics
  (frontend/src/contexts/ChatContext.tsx:155-191, 396-414, 439-447, 510-528).
 */
module Subscriptions {
  import opened Realtime

  /** `active` maps a topic to the handler its `unsubscribe` function removes; handlers from `next` on are unused. */
  datatype Context = Context(client: Client, active: map<string, Handler>, next: Handler)

  const FRESH := Context(IDLE, map[], 0)

  /** The context is the client's only user. */
  ghost predicate Sole(x: Context) {
    && Consistent(x.client)
    && x.client.handlers == (map t | t in x.active :: {x.active[t]})
    && forall t :: t in x.active ==> t != "" && x.active[t] < x.next
  }

  /** `ensureTopicSubscription`, for a user who is signed in and has a bootstrap. */
  function Ensured(x: Context, topic: string, qos: string -> int): Context {
    if topic == "" || topic in x.active then x
    else Context(Subscribed(x.client, topic, x.next, qos(topic)), x.active[topic := x.next], x.next + 1)
  }

  function Dropped(x: Context, topic: string): Context {
    if topic !in x.active then x
    else x.(client := Disposed(x.client, topic, x.active[topic]), active := x.active - {topic})
  }

  /** The topics in `gone` dropped, in whatever order; the others as they were. */
  function DroppedAll(x: Context, gone: set<string>): Context {
    Context(Client(x.client.handlers - gone, x.client.subscriptions - gone, x.client.connected, x.client.broker - gone),
            x.active - gone, x.next)
  }

  lemma DropNone(x: Context)
    ensures DroppedAll(x, {}) == x
  {
  }

  lemma DroppedAllIsSole(x: Context, gone: set<string>)
    requires Sole(x)
    ensures Sole(DroppedAll(x, gone))
  {
  }

  lemma SubtractTwice<V>(m: map<string, V>, gone: set<string>, t: string)
    ensures m - (gone + {t}) == m - gone - {t}
  {
  }

  lemma DropOneMore(x: Context, gone: set<string>, t: string)
    requires Sole(x) && t in x.active && t !in gone
    ensures Dropped(DroppedAll(x, gone), t) == DroppedAll(x, gone + {t})
  {
    var y := DroppedAll(x, gone);
    DroppedAllIsSole(x, gone);
    assert y.client.handlers[t] - {y.active[t]} == {};
    SubtractTwice(x.client.handlers, gone, t);
    SubtractTwice(x.client.subscriptions, gone, t);
    SubtractTwice(x.client.broker, gone, t);
    SubtractTwice(x.active, gone, t);
    assert !x.client.connected ==> x.client.broker - gone - {t} == x.client.broker - gone == map[];
  }

  function EnsuredAll(x: Context, topics: seq<string>, qos: string -> int): Context {
    if |topics| == 0 then x else Ensured(EnsuredAll(x, topics[..|topics| - 1], qos), topics[|topics| - 1], qos)
  }

  function Wanted(topics: seq<string>): set<string> {
    set t | t in topics && t != ""
  }

  /** The effect: subscriptions nobody wants are dropped, missing ones are made. */
  function Reconciled(x: Context, topics: seq<string>, qos: string -> int): Context {
    EnsuredAll(DroppedAll(x, set t | t in x.active && t !in topics), topics, qos)
  }

  function QosOf(x: Context, topic: string): nat {
    if topic in x.client.subscriptions then x.client.subscriptions[topic] else 0
  }

  /** Each topic added has a handler now; topics that had one keep it, and their quality of service with it. */
  ghost predicate Adds(x: Context, topics: set<string>, qos: string -> int, y: Context) {
    && y.client.connected == x.client.connected
    && y.active.Keys == x.active.Keys + topics
    && (forall t :: t in x.active ==> y.active[t] == x.active[t] && QosOf(y, t) == QosOf(x, t))
    && (forall t :: t in topics && t !in x.active ==> QosOf(y, t) == Clamp(qos(t)))
  }

  lemma EnsuredIsSole(x: Context, topic: string, qos: string -> int)
    requires Sole(x)
    ensures Sole(Ensured(x, topic, qos))
  {
    if topic != "" && topic !in x.active {
      assert topic !in x.client.handlers;
      assert {} + {x.next} == {x.next};
      var y := Ensured(x, topic, qos);
      assert y.client.handlers == map t | t in y.active :: {y.active[t]};
    }
  }

  lemma EnsuredAdds(x: Context, topic: string, qos: string -> int)
    requires Sole(x)
    ensures Adds(x, Wanted([topic]), qos, Ensured(x, topic, qos))
  {
    assert Wanted([topic]) == if topic == "" then {} else {topic};
    assert x.client.subscriptions.Keys == x.client.handlers.Keys == x.active.Keys;
  }

  lemma AddsBoth(x: Context, a: set<string>, b: set<string>, qos: string -> int, y: Context, z: Context)
    requires Adds(x, a, qos, y) && Adds(y, b, qos, z)
    ensures Adds(x, a + b, qos, z)
  {
  }

  lemma {:induction false} EnsuredAllAdds(x: Context, topics: seq<string>, qos: string -> int)
    requires Sole(x)
    ensures Sole(EnsuredAll(x, topics, qos)) && Adds(x, Wanted(topics), qos, EnsuredAll(x, topics, qos))
  {
    if |topics| > 0 {
      var init, last := topics[..|topics| - 1], topics[|topics| - 1];
      var y := EnsuredAll(x, init, qos);
      EnsuredAllAdds(x, init, qos);
      EnsuredIsSole(y, last, qos);
      EnsuredAdds(y, last, qos);
      AddsBoth(x, Wanted(init), Wanted([last]), qos, y, Ensured(y, last, qos));
      assert topics == init + [last];
      assert Wanted(topics) == Wanted(init) + Wanted([last]);
    } else {
      assert Wanted(topics) == {};
    }
  }

  /**
    After the effect the context listens to exactly the topics that are not
    empty; what it listened to already it did not touch.
   */
  lemma ReconciledTopics(x: Context, topics: seq<string>, qos: string -> int)
    requires Sole(x)
    ensures var y := Reconciled(x, topics, qos);
            && Sole(y) && y.client.connected == x.client.connected
            && y.active.Keys == Wanted(topics)
            && (forall t :: t in Wanted(topics) && t in x.active ==>
                              y.active[t] == x.active[t] && QosOf(y, t) == QosOf(x, t))
            && (forall t :: t in Wanted(topics) && t !in x.active ==> QosOf(y, t) == Clamp(qos(t)))
  {
    var gone := set t | t in x.active && t !in topics;
    var z := DroppedAll(x, gone);
    DroppedAllIsSole(x, gone);
    EnsuredAllAdds(z, topics, qos);
    assert z.active.Keys + Wanted(topics) == Wanted(topics);
  }

  /** What the broker has follows from what the context listens to. */
  lemma BrokerFollows(x: Context)
    requires Sole(x)
    ensures x.client.handlers.Keys == x.client.subscriptions.Keys == x.active.Keys
    ensures x.client.broker.Keys == if x.client.connected then x.active.Keys else {}
  {
  }

  // ----- Runs.

  /**
    The effect; a call of `ensureTopicSubscription` outside it, by opening a
    conversation or sending (frontend/src/contexts/ChatContext.tsx:310-341); leaving;
    and the connection. The first two stand for calls that have a user and a bootstrap.
   */
  datatype Event =
    | Reconcile(topics: seq<string>, qos: string -> int)
    | Ensure(topic: string, qos: string -> int)
    | Leave
    | Up
    | Down

  function Apply(x: Context, e: Event): Context {
    match e
    case Reconcile(topics, qos) => Reconciled(x, topics, qos)
    case Ensure(topic, qos) => Ensured(x, topic, qos)
    case Leave => DroppedAll(x, x.active.Keys)
    case Up => x.(client := Opened(x.client))
    case Down => x.(client := Closed(x.client))
  }

  function Exec(events: seq<Event>): Context {
    if |events| == 0 then FRESH else Apply(Exec(events[..|events| - 1]), events[|events| - 1])
  }

  predicate AsksFor(e: Event, topic: string) {
    topic != "" && ((e.Reconcile? && topic in e.topics) || (e.Ensure? && e.topic == topic))
  }

  predicate GivesUp(e: Event, topic: string) {
    e.Leave? || (e.Reconcile? && topic !in e.topics)
  }

  /** Some event asked for the topic and none since has given it up. */
  ghost predicate Wished(events: seq<Event>, topic: string) {
    exists k :: 0 <= k < |events| && AsksFor(events[k], topic)
                && forall l :: k < l < |events| ==> !GivesUp(events[l], topic)
  }

  lemma WishedStep(before: seq<Event>, e: Event, topic: string)
    ensures Wished(before + [e], topic) <==> AsksFor(e, topic) || (Wished(before, topic) && !GivesUp(e, topic))
  {
    var events := before + [e];
    assert events[|before|] == e;
    if AsksFor(e, topic) {
      assert AsksFor(events[|before|], topic);
    } else if Wished(before, topic) && !GivesUp(e, topic) {
      var k :| 0 <= k < |before| && AsksFor(before[k], topic)
               && forall l :: k < l < |before| ==> !GivesUp(before[l], topic);
      assert AsksFor(events[k], topic);
    }
    if Wished(events, topic) {
      var k :| 0 <= k < |events| && AsksFor(events[k], topic)
               && forall l :: k < l < |events| ==> !GivesUp(events[l], topic);
      if k < |before| {
        assert AsksFor(before[k], topic);
        forall l | k < l < |before| ensures !GivesUp(before[l], topic) {
          assert events[l] == before[l];
        }
      }
    }
  }

  lemma StepIsSole(x: Context, e: Event, topic: string)
    requires Sole(x)
    ensures Sole(Apply(x, e))
    ensures topic in Apply(x, e).active <==> AsksFor(e, topic) || (topic in x.active && !GivesUp(e, topic))
  {
    match e
    case Reconcile(topics, qos) =>
      ReconciledTopics(x, topics, qos);
      assert topic in Apply(x, e).active.Keys <==> topic in Wanted(topics);
    case Ensure(t, qos) => EnsuredIsSole(x, t, qos);
    case Leave => DroppedAllIsSole(x, x.active.Keys);
    case Up =>
    case Down =>
  }

  lemma {:induction false} ReachableTopics(events: seq<Event>, topic: string)
    ensures Sole(Exec(events))
    ensures topic in Exec(events).active <==> Wished(events, topic)
  {
    if |events| > 0 {
      var before, e := events[..|events| - 1], events[|events| - 1];
      assert events == before + [e];
      ReachableTopics(before, topic);
      StepIsSole(Exec(before), e, topic);
      WishedStep(before, e, topic);
    }
  }

  /**
    In every reachable state, through any number of lost and new connections, the
    client has handlers for exactly the topics that the effect or a call outside
    it has asked for and no later effect has left out; and while connected the
    broker has exactly those.
   */
  lemma ListensToWished(events: seq<Event>, topic: string)
    ensures var c := Exec(events).client;
            && (topic in c.handlers <==> Wished(events, topic))
            && (topic in c.subscriptions <==> Wished(events, topic))
            && (topic in c.broker <==> c.connected && Wished(events, topic))
  {
    ReachableTopics(events, topic);
    BrokerFollows(Exec(events));
    assert topic in Exec(events).client.broker.Keys <==> topic in Exec(events).client.broker;
  }

  function EnsureAll(topics: seq<string>, qos: string -> int): (events: seq<Event>)
    ensures |events| == |topics| && forall i :: 0 <= i < |topics| ==> events[i] == Ensure(topics[i], qos)
  {
    seq(|topics|, i requires 0 <= i < |topics| => Ensure(topics[i], qos))
  }

  lemma LatestWished(before: seq<Event>, topics: seq<string>, since: seq<string>, qos: string -> int, topic: string)
    ensures Wished(before + [Reconcile(topics, qos)] + EnsureAll(since, qos), topic) <==>
            topic in Wanted(topics) + Wanted(since)
  {
    var events := before + [Reconcile(topics, qos)] + EnsureAll(since, qos);
    var at := |before|;
    assert events[at] == Reconcile(topics, qos);
    if topic in Wanted(topics) {
      assert AsksFor(events[at], topic);
    }
    if topic in Wanted(since) {
      var i :| 0 <= i < |since| && since[i] == topic;
      assert events[at + 1 + i] == Ensure(topic, qos);
      assert AsksFor(events[at + 1 + i], topic);
    }
    if Wished(events, topic) {
      var k :| 0 <= k < |events| && AsksFor(events[k], topic)
               && forall l :: k < l < |events| ==> !GivesUp(events[l], topic);
      if k < at {
        assert !GivesUp(events[at], topic);
      } else if k > at {
        assert events[k] == Ensure(since[k - at - 1], qos);
      }
    }
  }

  /** Right after the effect and further calls outside it: the wanted topics, and those ensured since. */
  lemma ListensToLatest(before: seq<Event>, topics: seq<string>, since: seq<string>, qos: string -> int, topic: string)
    ensures topic in Exec(before + [Reconcile(topics, qos)] + EnsureAll(since, qos)).client.handlers <==>
            topic in Wanted(topics) + Wanted(since)
  {
    hide *;
    ListensToWished(before + [Reconcile(topics, qos)] + EnsureAll(since, qos), topic);
    LatestWished(before, topics, since, qos, topic);
  }

  // ----- The context's references as an object.

  class ChatSubscriptions {
    const mqtt: MqttClient
    var subscriptionsRef: map<string, Handler>
    var nextHandler: Handler

    function View(): Context
      reads this, mqtt
    {
      Context(mqtt.View(), subscriptionsRef, nextHandler)
    }

    constructor (mqtt: MqttClient)
      requires mqtt.View() == IDLE
      ensures this.mqtt == mqtt && View() == FRESH
    {
      this.mqtt, subscriptionsRef, nextHandler := mqtt, map[], 0;
    }

    method EnsureTopicSubscription(topic: string, qos: string -> int)
      modifies this, mqtt
      ensures View() == Ensured(old(View()), topic, qos)
    {
      if topic == "" || topic in subscriptionsRef {
        return;
      }
      mqtt.Subscribe(topic, nextHandler, qos(topic));
      subscriptionsRef := subscriptionsRef[topic := nextHandler];
      nextHandler := nextHandler + 1;
    }

    /** Calls the `unsubscribe` functions of the given topics, in any order. */
    method Drop(topics: set<string>)
      requires Sole(View()) && topics <= subscriptionsRef.Keys
      modifies this, mqtt
      ensures View() == DroppedAll(old(View()), topics)
    {
      var left := topics;
      DropNone(View());
      while left != {}
        invariant left <= topics
        invariant View() == DroppedAll(old(View()), topics - left)
        decreases |left|
      {
        var topic :| topic in left;
        DropOneMore(old(View()), topics - left, topic);
        assert topics - left + {topic} == topics - (left - {topic});
        mqtt.Dispose(topic, subscriptionsRef[topic]);
        subscriptionsRef := subscriptionsRef - {topic};
        left := left - {topic};
      }
      assert topics - {} == topics;
    }

    /** The effect that runs when the conversations or the bootstrap change. */
    method Reconcile(topics: seq<string>, qos: string -> int)
      requires Sole(View())
      modifies this, mqtt
      ensures View() == Reconciled(old(View()), topics, qos)
    {
      var gone := set t | t in subscriptionsRef && t !in topics;
      Drop(gone);
      ghost var z := View();
      for i := 0 to |topics|
        invariant View() == EnsuredAll(z, topics[..i], qos)
      {
        assert topics[..i + 1][..i] == topics[..i];
        EnsureTopicSubscription(topics[i], qos);
      }
      assert topics[..|topics|] == topics;
    }

    /** Signing out, or taking the provider down. */
    method UnsubscribeAll()
      requires Sole(View())
      modifies this, mqtt
      ensures View() == DroppedAll(old(View()), old(subscriptionsRef.Keys))
    {
      Drop(subscriptionsRef.Keys);
    }
  }
}
