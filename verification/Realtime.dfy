/**
  The web client's MQTT layer (frontend/src/lib/mqtt.ts:27-67, 208-249): handlers
  and subscriptions per topic, kept through closed connections and asked for
  again on every new one, which the broker starts with an empty session
  (section 3.1.2.4 of MQTT 3.1.1).
 */
module Realtime {

  type Handler = nat

  /** `broker` holds the subscriptions of the current connection, as the broker has them. */
  datatype Client = Client(
    handlers: map<string, set<Handler>>, subscriptions: map<string, nat>, connected: bool, broker: map<string, nat>)

  const IDLE := Client(map[], map[], false, map[])

  function Clamp(qos: int): nat {
    if qos < 0 then 0 else if qos > 1 then 1 else qos
  }

  function HandlersOf(c: Client, topic: string): set<Handler> {
    if topic in c.handlers then c.handlers[topic] else {}
  }

  function Recorded(c: Client, topic: string, qos: int): nat {
    if topic !in c.subscriptions || Clamp(qos) > c.subscriptions[topic] then Clamp(qos) else c.subscriptions[topic]
  }

  function Subscribed(c: Client, topic: string, h: Handler, qos: int): Client {
    var recorded := Recorded(c, topic, qos);
    Client(c.handlers[topic := HandlersOf(c, topic) + {h}], c.subscriptions[topic := recorded], c.connected,
           if c.connected then c.broker[topic := recorded] else c.broker)
  }

  /** What the function returned by `subscribe` does when it is called. */
  function Disposed(c: Client, topic: string, h: Handler): Client {
    if topic !in c.handlers then c
    else if c.handlers[topic] - {h} != {} then c.(handlers := c.handlers[topic := c.handlers[topic] - {h}])
    else Client(c.handlers - {topic}, c.subscriptions - {topic}, c.connected,
                if c.connected then c.broker - {topic} else c.broker)
  }

  function Opened(c: Client): Client {
    c.(connected := true, broker := c.subscriptions)
  }

  function Closed(c: Client): Client {
    c.(connected := false, broker := map[])
  }

  ghost predicate Consistent(c: Client) {
    && c.handlers.Keys == c.subscriptions.Keys
    && (forall t :: t in c.handlers ==> c.handlers[t] != {})
    && (forall t :: t in c.subscriptions ==> c.subscriptions[t] <= 1)
    && c.broker == if c.connected then c.subscriptions else map[]
  }

  // ----- The client as an object.

  class MqttClient {
    var topicHandlers: map<string, set<Handler>>
    var subscriptions: map<string, nat>
    var connected: bool
    var broker: map<string, nat>

    function View(): Client
      reads this
    {
      Client(topicHandlers, subscriptions, connected, broker)
    }

    constructor ()
      ensures View() == IDLE
    {
      topicHandlers, subscriptions, connected, broker := map[], map[], false, map[];
    }

    method Subscribe(topic: string, handler: Handler, qos: int)
      modifies this
      ensures View() == Subscribed(old(View()), topic, handler, qos)
    {
      if topic !in topicHandlers {
        topicHandlers := topicHandlers[topic := {}];
      }
      topicHandlers := topicHandlers[topic := topicHandlers[topic] + {handler}];
      var normalizedQos := Clamp(qos);
      if topic !in subscriptions || normalizedQos > subscriptions[topic] {
        subscriptions := subscriptions[topic := normalizedQos];
      }
      if connected {
        broker := broker[topic := subscriptions[topic]];
      }
      assert subscriptions == old(subscriptions)[topic := Recorded(old(View()), topic, qos)];
    }

    method Dispose(topic: string, handler: Handler)
      modifies this
      ensures View() == Disposed(old(View()), topic, handler)
    {
      if topic !in topicHandlers {
        return;
      }
      topicHandlers := topicHandlers[topic := topicHandlers[topic] - {handler}];
      if topicHandlers[topic] != {} {
        return;
      }
      topicHandlers := topicHandlers - {topic};
      subscriptions := subscriptions - {topic};
      if connected {
        broker := broker - {topic};
      }
      assert topicHandlers == old(topicHandlers) - {topic};
    }

    /** A connection is up: the session is empty, and `subscribeKnownTopics` fills it. */
    method OnConnect()
      modifies this
      ensures View() == Opened(old(View()))
    {
      connected := true;
      broker := map[];
      var left := subscriptions.Keys;
      while left != {}
        invariant left <= subscriptions.Keys
        invariant connected && subscriptions == old(subscriptions) && topicHandlers == old(topicHandlers)
        invariant broker == map t | t in subscriptions && t !in left :: subscriptions[t]
        decreases |left|
      {
        var topic :| topic in left;
        broker := broker[topic := subscriptions[topic]];
        left := left - {topic};
      }
      assert broker == subscriptions;
    }

    method OnClose()
      modifies this
      ensures View() == Closed(old(View()))
    {
      connected := false;
      broker := map[];
    }
  }

  // ----- Runs.

  datatype Event = Subscribe(topic: string, h: Handler, qos: int) | Dispose(topic: string, h: Handler) | Open | Close

  function Apply(c: Client, e: Event): Client {
    match e
    case Subscribe(t, h, q) => Subscribed(c, t, h, q)
    case Dispose(t, h) => Disposed(c, t, h)
    case Open => Opened(c)
    case Close => Closed(c)
  }

  function Exec(events: seq<Event>): Client {
    if |events| == 0 then IDLE else Apply(Exec(events[..|events| - 1]), events[|events| - 1])
  }

  /**
    In every reachable state the two tables have the same topics, and while
    connected the broker has the same. That is so far as this client asks for
    subscriptions itself: the MQTT library, on a reconnect of its own, asks again
    for topics that were dropped while there was no connection.
   */
  lemma {:induction false} ReachableConsistent(events: seq<Event>)
    ensures Consistent(Exec(events))
  {
    if |events| > 0 {
      ReachableConsistent(events[..|events| - 1]);
    }
  }

  /** `h` was subscribed to the topic and not disposed of since. */
  ghost predicate Live(events: seq<Event>, topic: string, h: Handler) {
    exists k :: 0 <= k < |events| && SubscribesAt(events, k, topic, h)
                && forall l :: k < l < |events| ==> events[l] != Dispose(topic, h)
  }

  predicate SubscribesAt(events: seq<Event>, k: nat, topic: string, h: Handler)
    requires k < |events|
  {
    events[k].Subscribe? && events[k].topic == topic && events[k].h == h
  }

  lemma LiveStep(before: seq<Event>, e: Event, topic: string, h: Handler)
    ensures Live(before + [e], topic, h) <==>
            e != Dispose(topic, h) && ((e.Subscribe? && e.topic == topic && e.h == h) || Live(before, topic, h))
  {
    var events := before + [e];
    if e.Subscribe? && e.topic == topic && e.h == h {
      assert SubscribesAt(events, |before|, topic, h);
    } else if e != Dispose(topic, h) && Live(before, topic, h) {
      var k :| 0 <= k < |before| && SubscribesAt(before, k, topic, h)
               && forall l :: k < l < |before| ==> before[l] != Dispose(topic, h);
      assert SubscribesAt(events, k, topic, h);
    }
    if Live(events, topic, h) {
      var k :| 0 <= k < |events| && SubscribesAt(events, k, topic, h)
               && forall l :: k < l < |events| ==> events[l] != Dispose(topic, h);
      assert events[|before|] == e;
      if k < |before| {
        assert SubscribesAt(before, k, topic, h);
        forall l | k < l < |before| ensures before[l] != Dispose(topic, h) {
          assert events[l] == before[l];
        }
      }
    }
  }

  lemma {:induction false} HandlersAreLive(events: seq<Event>, topic: string, h: Handler)
    ensures h in HandlersOf(Exec(events), topic) <==> Live(events, topic, h)
  {
    if |events| > 0 {
      var before, e := events[..|events| - 1], events[|events| - 1];
      HandlersAreLive(before, topic, h);
      LiveStep(before, e, topic, h);
      assert events == before + [e];
    }
  }

  /** A message reaches exactly the handlers subscribed to its topic, or to `*`, and not disposed of since. */
  lemma MessagesReachLiveHandlers(events: seq<Event>, topic: string, h: Handler)
    ensures h in HandlersOf(Exec(events), topic) + HandlersOf(Exec(events), "*") <==>
            Live(events, topic, h) || Live(events, "*", h)
  {
    HandlersAreLive(events, topic, h);
    HandlersAreLive(events, "*", h);
  }

  /** A topic is subscribed exactly while it has a live handler, and at the broker exactly while connected besides. */
  lemma SubscribedIffLive(events: seq<Event>, topic: string)
    ensures topic in Exec(events).subscriptions <==> exists h :: Live(events, topic, h)
    ensures topic in Exec(events).broker <==> Exec(events).connected && exists h :: Live(events, topic, h)
  {
    var c := Exec(events);
    ReachableConsistent(events);
    if topic in c.handlers {
      var h :| h in c.handlers[topic];
      HandlersAreLive(events, topic, h);
    }
    if h :| Live(events, topic, h) {
      HandlersAreLive(events, topic, h);
    }
  }

  /** Before event `from` the topic had no handler, and it has had one after every event from there on. */
  ghost predicate HandledSince(events: seq<Event>, topic: string, from: nat) {
    && from < |events|
    && HandlersOf(Exec(events[..from]), topic) == {}
    && forall i :: from < i <= |events| ==> HandlersOf(Exec(events[..i]), topic) != {}
  }

  ghost predicate Asked(events: seq<Event>, from: nat, topic: string, qos: nat) {
    exists k :: from <= k < |events| && AsksFor(events[k], topic, qos)
  }

  predicate AsksFor(e: Event, topic: string, qos: nat) {
    e.Subscribe? && e.topic == topic && Clamp(e.qos) == qos
  }

  lemma AskedStep(before: seq<Event>, e: Event, from: nat, topic: string, qos: nat)
    requires from <= |before|
    ensures Asked(before + [e], from, topic, qos) <==>
            (from < |before| && Asked(before, from, topic, qos)) || AsksFor(e, topic, qos)
  {
    var events := before + [e];
    assert events[|before|] == e;
    if Asked(before, from, topic, qos) {
      var k :| from <= k < |before| && AsksFor(before[k], topic, qos);
      assert AsksFor(events[k], topic, qos);
    }
  }

  /** What one event makes of the recorded value, where it leaves the topic a handler. */
  lemma RecordedStep(c: Client, e: Event, topic: string)
    requires Consistent(c) && HandlersOf(Apply(c, e), topic) != {}
    ensures topic in Apply(c, e).subscriptions
    ensures var now := Apply(c, e).subscriptions[topic];
            && (forall q: nat :: AsksFor(e, topic, q) ==> q <= now)
            && if HandlersOf(c, topic) == {} then AsksFor(e, topic, now)
               else topic in c.subscriptions
                    && (now == c.subscriptions[topic] || (AsksFor(e, topic, now) && now > c.subscriptions[topic]))
  {
  }

  lemma HandledStep(before: seq<Event>, e: Event, topic: string, from: nat)
    requires HandledSince(before + [e], topic, from)
    ensures from <= |before| && HandlersOf(Apply(Exec(before), e), topic) != {}
    ensures if from == |before| then HandlersOf(Exec(before), topic) == {}
            else HandlersOf(Exec(before), topic) != {} && HandledSince(before, topic, from)
  {
    var events := before + [e];
    hide Apply, HandlersOf;
    assert events[..|events|] == events && events[..|before|] == before && events[..from] == before[..from];
    forall i | from < i <= |before| ensures HandlersOf(Exec(before[..i]), topic) != {} {
      assert events[..i] == before[..i];
    }
    assert before[..|before|] == before;
  }

  lemma SomethingHappened(events: seq<Event>, topic: string, from: nat)
    requires HandledSince(events, topic, from)
    ensures |events| > 0
  {
  }

  lemma ExecStep(before: seq<Event>, e: Event)
    ensures Exec(before + [e]) == Apply(Exec(before), e)
  {
    assert (before + [e])[..|before|] == before;
  }

  /** The recorded quality of service is the highest asked for since the topic last had no handler. */
  lemma {:induction false} RecordedIsHighestAsked(events: seq<Event>, topic: string, from: nat)
    requires HandledSince(events, topic, from)
    ensures topic in Exec(events).subscriptions
    ensures var qos := Exec(events).subscriptions[topic];
            Asked(events, from, topic, qos) && forall q: nat :: Asked(events, from, topic, q) ==> q <= qos
  {
    hide *;
    SomethingHappened(events, topic, from);
    var before, e := events[..|events| - 1], events[|events| - 1];
    assert events == before + [e];
    HandledStep(before, e, topic, from);
    ExecStep(before, e);
    ReachableConsistent(before);
    RecordedStep(Exec(before), e, topic);
    if from < |before| {
      RecordedIsHighestAsked(before, topic, from);
    }
    forall q: nat ensures Asked(events, from, topic, q) <==>
                          (from < |before| && Asked(before, from, topic, q)) || AsksFor(e, topic, q) {
      AskedStep(before, e, from, topic, q);
    }
  }

  /** Somebody asked for the topic, since then, with a quality of service of 1 or more. */
  ghost predicate AskedForOne(events: seq<Event>, from: nat, topic: string) {
    exists k :: from <= k < |events| && AsksForOne(events[k], topic)
  }

  predicate AsksForOne(e: Event, topic: string) {
    e.Subscribe? && e.topic == topic && e.qos >= 1
  }

  /** The client knows two qualities of service: 1 once anybody has asked for 1 or more, else 0. */
  lemma RecordedIsOneIff(events: seq<Event>, topic: string, from: nat)
    requires HandledSince(events, topic, from)
    ensures topic in Exec(events).subscriptions
    ensures Exec(events).subscriptions[topic] == if AskedForOne(events, from, topic) then 1 else 0
  {
    RecordedIsHighestAsked(events, topic, from);
    hide Exec, HandledSince;
    var qos := Exec(events).subscriptions[topic];
    var k :| from <= k < |events| && AsksFor(events[k], topic, qos);
    if AskedForOne(events, from, topic) {
      var l :| from <= l < |events| && AsksForOne(events[l], topic);
      assert AsksFor(events[l], topic, 1);
      assert Asked(events, from, topic, 1);
    } else {
      assert !AsksForOne(events[k], topic);
    }
  }
}
