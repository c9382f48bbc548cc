/**
  A message on its way in and out: how sender and receiver are read off the
  topic and the payload, when the message is accepted, what is stored, and the
  two peers rebuilt from the stored row (backend/internal/service/message_service.go:49-83,
  269-370, 697-742; backend/internal/service/message_acl.go:193-216;
  backend/internal/model/response/message_response.go:205-275).
 */
module Routing {
  import opened MessageLog
  import opened Topics
  import Levels
  import Text

  // ----- What comes in.

  datatype Payload = Payload(
    conversationId: string, topic: string,
    senderType: string, senderId: string, from: Option<Peer>, to: Option<Peer>,
    body: string, botId: string, groupId: string)

  datatype Incoming = Incoming(
    conversationId: string, sender: Peer, receiver: Peer, body: string, botId: string, groupId: string)

  function FirstNonEmpty(trim: string -> string, values: seq<string>): string {
    if |values| == 0 then ""
    else if trim(values[0]) != "" then trim(values[0])
    else FirstNonEmpty(trim, values[1..])
  }

  /** The other side of a direct conversation, if the given peer is one side and the other is named in full. */
  function Counterparty(r: Route, p: Peer): Option<Peer> {
    var other := if r.left == p then r.right else if r.right == p then r.left else NOBODY;
    if (r.left == p || r.right == p) && other.kind != "" && other.id != "" then Some(other) else None
  }

  function SenderOf(trim: string -> string, p: Payload): Peer {
    match p.from
    case None => Peer(p.senderType, p.senderId)
    case Some(f) => Peer(FirstNonEmpty(trim, [f.kind, p.senderType]), FirstNonEmpty(trim, [f.id, p.senderId]))
  }

  /** The receiver named in the payload; left open in part or whole, it is the sender's counterparty if there is one. */
  function ReceiverOf(trim: string -> string, p: Payload, r: Route): Peer {
    var named :=
      match p.to
      case None => NOBODY
      case Some(t) => Peer(FirstNonEmpty(trim, [t.kind, ""]), FirstNonEmpty(trim, [t.id, ""]));
    if named.kind != "" && named.id != "" then named
    else match Counterparty(r, SenderOf(trim, p)) case Some(other) => other case None => named
  }

  function Reference(trim: string -> string, topic: string, p: Payload): string {
    Normalize(trim, FirstNonEmpty(trim, [topic, p.conversationId, p.topic]))
  }

  function OrSystem(kind: string): string {
    if kind == "" then "system" else kind
  }

  function EnsurePeer(p: Peer): Peer {
    Peer(OrSystem(p.kind), p.id)
  }

  /** The bot a message is filed under: the one named, else the sender or receiver if that is a bot. */
  function BotOf(named: string, sender: Peer, receiver: Peer): string {
    if named != "" then named
    else if sender.kind == "bot" then sender.id
    else if receiver.kind == "bot" then receiver.id
    else ""
  }

  function GroupOf(trim: string -> string, named: string, routed: string, receiver: Peer): string {
    var known := FirstNonEmpty(trim, [named, routed]);
    if known == "" && receiver.kind == "group" then receiver.id else known
  }

  function Read(trim: string -> string, topic: string, p: Payload): Incoming {
    var route := ParseRoute(trim, Reference(trim, topic, p));
    var sender, receiver := EnsurePeer(SenderOf(trim, p)), ReceiverOf(trim, p, route);
    Incoming(Reference(trim, topic, p), sender, receiver, p.body,
             BotOf(p.botId, sender, receiver), GroupOf(trim, p.groupId, route.groupId, receiver))
  }

  /** `normalizeIncomingMessage`, field by field. */
  method NormalizeIncomingMessage(trim: string -> string, topic: string, payload: Payload) returns (n: Incoming)
    ensures n == Read(trim, topic, payload)
  {
    var conversationId := Normalize(trim, FirstNonEmpty(trim, [topic, payload.conversationId, payload.topic]));
    var route := ParseRoute(trim, conversationId);
    var senderType, senderId := payload.senderType, payload.senderId;
    var receiverType, receiverId := "", "";
    var botId, groupId := payload.botId, FirstNonEmpty(trim, [payload.groupId, route.groupId]);
    if payload.from.Some? {
      senderType := FirstNonEmpty(trim, [payload.from.value.kind, senderType]);
      senderId := FirstNonEmpty(trim, [payload.from.value.id, senderId]);
    }
    if payload.to.Some? {
      receiverType := FirstNonEmpty(trim, [payload.to.value.kind, receiverType]);
      receiverId := FirstNonEmpty(trim, [payload.to.value.id, receiverId]);
    }
    if receiverType == "" || receiverId == "" {
      var other := Counterparty(route, Peer(senderType, senderId));
      if other.Some? {
        receiverType, receiverId := other.value.kind, other.value.id;
      }
    }
    if senderType == "" {
      senderType := "system";
    }
    if botId == "" {
      if senderType == "bot" {
        botId := senderId;
      } else if receiverType == "bot" {
        botId := receiverId;
      }
    }
    if groupId == "" && receiverType == "group" {
      groupId := receiverId;
    }
    n := Incoming(conversationId, Peer(senderType, senderId), Peer(receiverType, receiverId),
                  payload.body, botId, groupId);
  }

  // ----- What is read, field by field.

  lemma FirstOfTwo(trim: string -> string, a: string, b: string)
    ensures FirstNonEmpty(trim, [a, b]) == if trim(a) != "" then trim(a) else trim(b)
    ensures FirstNonEmpty(trim, [a]) == trim(a)
  {
    assert [a, b][1..] == [b];
    if trim(b) == "" {
      assert FirstNonEmpty(trim, [b]) == FirstNonEmpty(trim, []);
    }
  }

  /**
    Who sent it: each field is that of `from` where it is not blank, else the
    payload's own; without `from` those two are used as they are. A message
    without any kind of sender comes from the system.
   */
  lemma SenderIsRead(trim: string -> string, topic: string, p: Payload)
    ensures var sender := Read(trim, topic, p).sender;
            match p.from
            case None => sender.id == p.senderId && sender.kind == if p.senderType == "" then "system" else p.senderType
            case Some(f) =>
              && (trim(f.id) != "" ==> sender.id == trim(f.id))
              && (trim(f.id) == "" ==> sender.id == trim(p.senderId))
              && (trim(f.kind) != "" ==> sender.kind == trim(f.kind))
              && (trim(f.kind) == "" && trim(p.senderType) != "" ==> sender.kind == trim(p.senderType))
              && (trim(f.kind) == "" && trim(p.senderType) == "" ==> sender.kind == "system")
  {
    hide Normalize, ParseRoute, ReceiverOf, BotOf, GroupOf;
    match p.from
    case None =>
    case Some(f) =>
      FirstOfTwo(trim, f.kind, p.senderType);
      FirstOfTwo(trim, f.id, p.senderId);
  }

  /**
    Whom it is for: the receiver that `to` names in full. One left open in part or
    whole is the other side of a direct topic that the sender is one side of, if
    that is named in full; else it stays as open as it was.
   */
  lemma ReceiverIsRead(trim: string -> string, topic: string, p: Payload)
    requires trim("") == ""
    ensures var n := Read(trim, topic, p);
            var r := ParseRoute(trim, n.conversationId);
            var kind := if p.to.Some? then trim(p.to.value.kind) else "";
            var id := if p.to.Some? then trim(p.to.value.id) else "";
            if kind != "" && id != "" then n.receiver == Peer(kind, id)
            else n.sender.kind != "system" ==>
              && (n.sender == r.left ==>
                    n.receiver == if r.right.kind != "" && r.right.id != "" then r.right else Peer(kind, id))
              && (n.sender == r.right != r.left ==>
                    n.receiver == if r.left.kind != "" && r.left.id != "" then r.left else Peer(kind, id))
              && (n.sender != r.left && n.sender != r.right ==> n.receiver == Peer(kind, id))
  {
    hide Normalize, ParseRoute, BotOf, GroupOf;
    if p.to.Some? {
      FirstOfTwo(trim, p.to.value.kind, "");
      FirstOfTwo(trim, p.to.value.id, "");
    }
  }

  /** Where: the topic it came on, else the conversation the payload names, else its topic. */
  lemma ConversationIsRead(trim: string -> string, topic: string, p: Payload)
    ensures Read(trim, topic, p).conversationId
            == Normalize(trim, if trim(topic) != "" then trim(topic)
                               else if trim(p.conversationId) != "" then trim(p.conversationId)
                               else trim(p.topic))
  {
    hide Normalize, ParseRoute, ReceiverOf, SenderOf, BotOf, GroupOf;
    assert [topic, p.conversationId, p.topic][1..] == [p.conversationId, p.topic];
    FirstOfTwo(trim, p.conversationId, p.topic);
  }

  /**
    The ids a payload brings along stay; missing, they are those of the topic's or
    the receiving group, and of a sending or else a receiving bot. The body is passed on.
   */
  lemma IdsAreRead(trim: string -> string, topic: string, p: Payload)
    ensures var n := Read(trim, topic, p);
            var routed := ParseRoute(trim, n.conversationId).groupId;
            && n.body == p.body
            && (p.botId != "" ==> n.botId == p.botId)
            && (trim(p.groupId) != "" ==> n.groupId == trim(p.groupId))
            && (trim(p.groupId) == "" && trim(routed) != "" ==> n.groupId == trim(routed))
            && (trim(p.groupId) == "" && trim(routed) == "" ==>
                  n.groupId == if n.receiver.kind == "group" then n.receiver.id else "")
            && (p.botId == "" ==> n.botId == if n.sender.kind == "bot" then n.sender.id
                                             else if n.receiver.kind == "bot" then n.receiver.id else "")
  {
    hide Normalize, ParseRoute, ReceiverOf, SenderOf;
    FirstOfTwo(trim, p.groupId, ParseRoute(trim, Reference(trim, topic, p)).groupId);
  }

  // ----- Acceptance.

  datatype Verdict = Accepted | BodyRequired | InvalidRoute | ConversationMismatch

  predicate IsDirect(r: Route) {
    r.left.kind != "" && r.left.id != "" && r.right.kind != "" && r.right.id != ""
  }

  predicate HasParticipant(r: Route, p: Peer) {
    r.left == p || r.right == p
  }

  predicate MatchesDirectedPair(r: Route, sender: Peer, receiver: Peer) {
    IsDirect(r) && sender != receiver && HasParticipant(r, sender) && HasParticipant(r, receiver)
  }

  /** `validateNormalizedMessage`. */
  function Validate(trim: string -> string, n: Incoming): Verdict {
    var route := ParseRoute(trim, n.conversationId);
    if n.body == "" then BodyRequired
    else if route.groupId != "" then
      if n.receiver.kind != "group" || n.receiver.id != route.groupId then InvalidRoute else Accepted
    else if !IsDirect(route) then InvalidRoute
    else if !MatchesDirectedPair(route, n.sender, n.receiver) then InvalidRoute
    else Accepted
  }

  /** A direct message is accepted exactly when sender and receiver are the two different peers of its topic. */
  lemma DirectAcceptedIff(trim: string -> string, n: Incoming)
    requires ParseRoute(trim, n.conversationId).groupId == ""
    ensures var r := ParseRoute(trim, n.conversationId);
            Validate(trim, n) == Accepted <==>
              n.body != "" && IsDirect(r) && r.left != r.right && {n.sender, n.receiver} == {r.left, r.right}
  {
    var r := ParseRoute(trim, n.conversationId);
    if {n.sender, n.receiver} == {r.left, r.right} {
      assert n.sender in {r.left, r.right} && n.receiver in {r.left, r.right};
      assert r.left in {n.sender, n.receiver} && r.right in {n.sender, n.receiver};
    }
  }

  /** A payload without a receiver is enough on a direct topic between two peers, and never on a group's. */
  lemma ReceiverMayBeOpen(trim: string -> string, topic: string, p: Payload)
    requires p.to == None
    ensures var n := Read(trim, topic, p);
            var r := ParseRoute(trim, n.conversationId);
            Validate(trim, n) == Accepted <==>
              && p.body != "" && r.groupId == "" && IsDirect(r)
              && SenderOf(trim, p) in {r.left, r.right} && r.left != r.right
  {
    var n := Read(trim, topic, p);
    var r := ParseRoute(trim, n.conversationId);
    RouteIsDirectOrGroup(Split('/', Normalize(trim, n.conversationId)));
    if r.groupId == "" {
      DirectAcceptedIff(trim, n);
    }
  }

  /** The conversation a payload says it belongs to, if it says so. */
  function Declared(trim: string -> string, p: Payload): string {
    Normalize(trim, FirstNonEmpty(trim, [p.conversationId, p.topic]))
  }

  /** The receiver is the topic's group, or sender and receiver are the two different peers of the topic. */
  ghost predicate PeersMatch(r: Route, sender: Peer, receiver: Peer) {
    if r.groupId != "" then receiver == Peer("group", r.groupId)
    else IsDirect(r) && r.left != r.right && {sender, receiver} == {r.left, r.right}
  }

  lemma AcceptedIff(trim: string -> string, n: Incoming)
    ensures Validate(trim, n) == Accepted <==>
            n.body != "" && PeersMatch(ParseRoute(trim, n.conversationId), n.sender, n.receiver)
    ensures Validate(trim, n) == BodyRequired <==> n.body == ""
    ensures Validate(trim, n) != ConversationMismatch
  {
    if ParseRoute(trim, n.conversationId).groupId == "" {
      DirectAcceptedIff(trim, n);
    }
  }

  /** What becomes of a payload: one that declares another conversation is refused before it is validated. */
  function Handled(trim: string -> string, topic: string, p: Payload): Verdict {
    var n := Read(trim, topic, p);
    if Declared(trim, p) != "" && Declared(trim, p) != n.conversationId then ConversationMismatch else Validate(trim, n)
  }

  /**
    `HandleIncomingMessage` up to the point where the message is enriched and
    saved: accepted are exactly the messages that declare no other conversation,
    have a body, and name the peers of their topic.
   */
  method HandleIncomingMessage(trim: string -> string, topic: string, payload: Payload)
    returns (verdict: Verdict, n: Incoming)
    ensures n == Read(trim, topic, payload) && verdict == Handled(trim, topic, payload)
    ensures var agrees := Declared(trim, payload) == "" || Declared(trim, payload) == n.conversationId;
            && (verdict == Accepted <==>
                  agrees && payload.body != "" && PeersMatch(ParseRoute(trim, n.conversationId), n.sender, n.receiver))
            && (verdict == ConversationMismatch <==> !agrees)
            && (verdict == BodyRequired <==> agrees && payload.body == "")
  {
    n := NormalizeIncomingMessage(trim, topic, payload);
    assert n.body == payload.body;
    hide *;
    AcceptedIff(trim, n);
    var declared := Declared(trim, payload);
    if declared != "" && declared != n.conversationId {
      verdict := ConversationMismatch;
    } else {
      verdict := Validate(trim, n);
    }
    HandledIs(trim, topic, payload);
  }

  lemma HandledIs(trim: string -> string, topic: string, p: Payload)
    ensures var n := Read(trim, topic, p);
            Handled(trim, topic, p) == if Declared(trim, p) != "" && Declared(trim, p) != n.conversationId
                                       then ConversationMismatch else Validate(trim, n)
  {
  }

  /** Naming the conversation in the older form is no mismatch: it means the topic the message came on. */
  lemma LegacyDeclarationAgrees(trim: string -> string, space: char -> bool, topic: string, p: Payload,
                                kind: string, x: string, y: string)
    requires Text.TrimsBy(trim, space) && !space('c') && !space('/') && !space(':')
    requires !space('u') && !space('b') && !space('g')
    requires kind == "user" || kind == "bot"
    requires ':' !in x && ':' !in y && Plain(space, x) && Plain(space, y)
    requires topic == BuildConversation(Peer(kind, x), Peer(kind, y)) && p.conversationId == Legacy(kind, x, y)
    ensures Declared(trim, p) == Read(trim, topic, p).conversationId == topic
  {
    LegacyMeans(trim, space, kind, x, y);
    LegacyStays(trim, space, kind, x, y);
    var (left, right) := Canonical(Peer(kind, x), Peer(kind, y));
    DirectTopicIsPlain(space, left, right);
    assert topic == DirectTopic(left, right);
    PlainTopicStays(trim, space, topic);
    PlainIsTrimmed(trim, space, topic);
    hide Normalize, DirectTopic, BuildConversation, Canonical;
    assert FirstNonEmpty(trim, [topic, p.conversationId, p.topic]) == topic;
    assert FirstNonEmpty(trim, [p.conversationId, p.topic]) == p.conversationId;
  }

  /** Kind and id are there, without outer white space. */
  predicate NamedInFull(trim: string -> string, p: Peer) {
    trim(p.kind) == p.kind != "" && trim(p.id) == p.id != ""
  }

  lemma NamedPeersAreRead(trim: string -> string, topic: string, p: Payload, from: Peer, to: Peer)
    requires trim("") == "" && p.from == Some(from) && p.to == Some(to)
    requires NamedInFull(trim, from) && NamedInFull(trim, to)
    ensures var n := Read(trim, topic, p); n.sender == from && n.receiver == to && n.body == p.body
  {
    hide Read;
    SenderIsRead(trim, topic, p);
    ReceiverIsRead(trim, topic, p);
    IdsAreRead(trim, topic, p);
  }

  lemma FixedTopicIsRead(trim: string -> string, space: char -> bool, topic: string, p: Payload)
    requires Text.TrimsBy(trim, space) && !space('c') && !space('/') && topic != "" && Fixed(trim, topic)
    ensures Read(trim, topic, p).conversationId == topic == Normalize(trim, topic)
  {
    ConversationIsRead(trim, topic, p);
    NormalizeFixedIff(trim, space, topic);
    hide Read;
  }

  /** The route of a printed topic: the canonical pair, or the group. */
  lemma RouteOfBuilt(trim: string -> string, space: char -> bool, from: Peer, to: Peer)
    requires Text.TrimsBy(trim, space) && !space('c') && !space('/')
    requires NoSlash(from) && NoSlash(to) && Fixed(trim, BuildConversation(from, to))
    ensures BuildConversation(from, to) != ""
    ensures ParseRoute(trim, BuildConversation(from, to))
            == if to.kind == "group" then Route(NOBODY, NOBODY, to.id) else DirectRoute(Canonical(from, to))
  {
    if to.kind == "group" {
      ParseOfGroupIff(trim, space, to.id);
    } else {
      ParseOfBuiltIff(trim, space, from, to);
    }
  }

  lemma CanonicalMatches(from: Peer, to: Peer)
    requires from != to && to.kind != "group" && from.kind != "" && from.id != "" && to.kind != "" && to.id != ""
    ensures PeersMatch(DirectRoute(Canonical(from, to)), from, to)
  {
  }

  /**
    From the wire to the verdict: a payload from one peer to another, or to a group,
    on the topic printed for the two, with a body and no other conversation
    declared, is accepted as from the one to the other.
   */
  lemma BuiltTopicIsAccepted(trim: string -> string, space: char -> bool, p: Payload, from: Peer, to: Peer)
    requires Text.TrimsBy(trim, space) && !space('c') && !space('/')
    requires p.from == Some(from) && p.to == Some(to) && from != to && p.body != ""
    requires NamedInFull(trim, from) && NamedInFull(trim, to) && NoSlash(from) && NoSlash(to)
    requires Fixed(trim, BuildConversation(from, to))
    requires Declared(trim, p) == "" || Declared(trim, p) == BuildConversation(from, to)
    ensures var topic := BuildConversation(from, to);
            var n := Read(trim, topic, p);
            && Handled(trim, topic, p) == Accepted
            && n.sender == from && n.receiver == to && n.conversationId == topic
  {
    var topic := BuildConversation(from, to);
    RouteOfBuilt(trim, space, from, to);
    FixedTopicIsRead(trim, space, topic, p);
    NamedPeersAreRead(trim, topic, p, from, to);
    if to.kind != "group" {
      CanonicalMatches(from, to);
    }
    hide Read, Validate, ParseRoute, Canonical, BuildConversation, Normalize, Declared, Fixed, Text.TrimsBy;
    hide DirectRoute;
    AcceptedIff(trim, Read(trim, topic, p));
  }

  /** What the web client sends from a user to a bot (frontend/src/contexts/ChatContext.tsx:361-369). */
  function WebPayload(user: string, bot: string, body: string): Payload {
    var from, to := Peer("user", user), Peer("bot", bot);
    var topic := BuildConversation(from, to);
    Payload(topic, topic, "", "", Some(from), Some(to), body, "", "")
  }

  /**
    It is accepted, filed under the bot and no group, and, where the user's id is a
    canonical UUID, shown again as from the user to the bot.
   */
  lemma WebPayloadIsDelivered<U(!new)>(trim: string -> string, space: char -> bool, parse: string -> Option<U>,
                                       format: U -> string, user: string, bot: string, body: string)
    requires Text.TrimsBy(trim, space) && !space('c') && !space('/') && Codec(parse, format)
    requires Plain(space, "user") && Plain(space, "bot") && Plain(space, user) && Plain(space, bot)
    requires user != "" && bot != "" && '/' !in user && '/' !in bot && body != ""
    ensures var from, to := Peer("user", user), Peer("bot", bot);
            var topic, p := BuildConversation(from, to), WebPayload(user, bot, body);
            && Handled(trim, topic, p) == Accepted
            && Read(trim, topic, p) == Incoming(topic, from, to, body, bot, "")
            && (Peers(format, Store(parse, Read(trim, topic, p))) == (from, to) <==> IsCanonical(parse, format, user))
  {
    var from, to := Peer("user", user), Peer("bot", bot);
    var topic, p := BuildConversation(from, to), WebPayload(user, bot, body);
    PlainPeersAreNamed(trim, space, from, to);
    ParseOfBuiltIff(trim, space, from, to);
    WebDeclares(trim, space, user, bot, body);
    BuiltTopicIsAccepted(trim, space, p, from, to);
    FiledUnderReceiver(trim, topic, p, bot);
    NormalizeFixedIff(trim, space, topic);
    var n := Read(trim, topic, p);
    assert Validate(trim, n) == Accepted;
    hide Read, Validate, Normalize, BuildConversation, Text.TrimsBy, Store, Peers, Fixed;
    FixedTopicPeersIff(trim, parse, format, n);
    IdsAreRead(trim, topic, p);
  }

  lemma PlainPeersAreNamed(trim: string -> string, space: char -> bool, from: Peer, to: Peer)
    requires Text.TrimsBy(trim, space) && Plain(space, from.kind) && Plain(space, from.id)
    requires Plain(space, to.kind) && Plain(space, to.id)
    requires from.kind != "" && from.id != "" && to.kind != "" && to.id != ""
    ensures NamedInFull(trim, from) && NamedInFull(trim, to)
  {
    PlainIsTrimmed(trim, space, from.kind);
    PlainIsTrimmed(trim, space, from.id);
    PlainIsTrimmed(trim, space, to.kind);
    PlainIsTrimmed(trim, space, to.id);
  }

  lemma WebDeclares(trim: string -> string, space: char -> bool, user: string, bot: string, body: string)
    requires Text.TrimsBy(trim, space) && !space('c') && !space('/')
    requires var topic := BuildConversation(Peer("user", user), Peer("bot", bot)); topic != "" && Fixed(trim, topic)
    ensures Declared(trim, WebPayload(user, bot, body)) == BuildConversation(Peer("user", user), Peer("bot", bot))
  {
    var topic := BuildConversation(Peer("user", user), Peer("bot", bot));
    NormalizeFixedIff(trim, space, topic);
    hide Normalize, BuildConversation;
    FirstOfTwo(trim, topic, topic);
  }

  /** Without ids of its own a payload to a bot, from somebody who is none, is filed under that bot. */
  lemma FiledUnderReceiver(trim: string -> string, topic: string, p: Payload, bot: string)
    requires trim("") == "" && p.botId == "" && p.groupId == ""
    requires var n := Read(trim, topic, p); n.sender.kind != "bot" && n.receiver == Peer("bot", bot)
    requires ParseRoute(trim, Read(trim, topic, p).conversationId).groupId == ""
    ensures Read(trim, topic, p).botId == bot && Read(trim, topic, p).groupId == ""
  {
    hide Normalize, ParseRoute, SenderOf, ReceiverOf;
    FirstOfTwo(trim, "", "");
  }

  lemma PlainIsTrimmed(trim: string -> string, space: char -> bool, s: string)
    requires Text.TrimsBy(trim, space) && Plain(space, s)
    ensures trim(s) == s
  {
    assert s <= trim(s);
  }

  lemma BotIsAPeer(sender: Peer, receiver: Peer)
    ensures var bot := BotOf("", sender, receiver);
            && (bot != "" ==> Peer("bot", bot) in {sender, receiver})
            && (sender.id != "" && receiver.id != "" ==>
                  (bot != "" <==> sender.kind == "bot" || receiver.kind == "bot"))
  {
  }

  lemma GroupIsRouted(trim: string -> string, routed: string, receiver: Peer)
    requires trim("") == "" && trim(routed) == routed != ""
    ensures GroupOf(trim, "", routed, receiver) == routed
  {
    assert FirstNonEmpty(trim, [routed]) == routed;
    assert ["", routed][1..] == [routed];
  }

  lemma AcceptedNames(trim: string -> string, n: Incoming)
    requires Validate(trim, n) == Accepted
    ensures var group := ParseRoute(trim, n.conversationId).groupId;
            if group == "" then n.sender.id != "" && n.receiver.id != "" else n.receiver == Peer("group", group)
  {
    if ParseRoute(trim, n.conversationId).groupId == "" {
      DirectAcceptedIff(trim, n);
    }
  }

  /**
    Without ids of its own a payload is filed under a bot exactly when one of its
    peers is one, and under the group of its topic.
   */
  lemma FiledUnderPeers(trim: string -> string, topic: string, p: Payload)
    requires p.botId == "" && p.groupId == "" && trim("") == ""
    ensures var n := Read(trim, topic, p);
            var group := ParseRoute(trim, n.conversationId).groupId;
            Validate(trim, n) == Accepted ==>
            && (group == "" ==> (n.botId != "" <==> n.sender.kind == "bot" || n.receiver.kind == "bot"))
            && (n.botId != "" ==> Peer("bot", n.botId) in {n.sender, n.receiver})
            && (group != "" && trim(group) == group ==> n.groupId == group == n.receiver.id)
  {
    var n := Read(trim, topic, p);
    var group := ParseRoute(trim, n.conversationId).groupId;
    if Validate(trim, n) != Accepted {
      return;
    }
    AcceptedNames(trim, n);
    hide ParseRoute, Validate, BotOf, GroupOf, Reference, SenderOf, ReceiverOf;
    BotIsAPeer(n.sender, n.receiver);
    if group != "" && trim(group) == group {
      GroupIsRouted(trim, group, n.receiver);
    }
  }

  lemma RouteIsDirectOrGroup(parts: seq<string>)
    ensures RouteOf(parts).groupId != "" ==> RouteOf(parts).left == NOBODY && RouteOf(parts).right == NOBODY
  {
  }

  // ----- What is stored, and the peers rebuilt from it.

  /** `uuid.Parse` and `UUID.String`: what is printed can be read back. */
  ghost predicate Codec<U(!new)>(parse: string -> Option<U>, format: U -> string) {
    forall u {:trigger format(u)} :: parse(format(u)) == Some(u) && format(u) != ""
  }

  datatype Stored<U> = Stored(
    conversationId: string, senderType: string, senderId: Option<U>, botId: Option<U>, groupId: Option<U>)

  function ParseOptional<U>(parse: string -> Option<U>, raw: string): Option<U> {
    if raw == "" then None else parse(raw)
  }

  /** `buildMessageModel`, as far as the peers go: ids are kept only where they are UUIDs. */
  function Store<U>(parse: string -> Option<U>, n: Incoming): Stored<U> {
    Stored(n.conversationId, n.sender.kind, ParseOptional(parse, n.sender.id),
           ParseOptional(parse, n.botId), ParseOptional(parse, n.groupId))
  }

  function StoredSender<U>(format: U -> string, row: Stored<U>): Peer {
    Peer(row.senderType,
         if row.senderId.Some? then format(row.senderId.value)
         else if row.botId.Some? && row.senderType == "bot" then format(row.botId.value)
         else "")
  }

  /** The group a row is filed under, or else the bot, unless that is the sender. */
  function FiledPeer<U>(format: U -> string, row: Stored<U>, from: Peer): Peer {
    if row.groupId.Some? then Peer("group", format(row.groupId.value))
    else if row.botId.Some? && from.id != format(row.botId.value) then Peer("bot", format(row.botId.value))
    else NOBODY
  }

  /** The other peer of a direct topic, the right one when the sender is neither; else the group or bot of the row. */
  function StoredReceiver<U>(format: U -> string, row: Stored<U>, from: Peer): Peer {
    var parts := Split('/', row.conversationId);
    if |parts| == 6 && parts[0] == "chat" && parts[1] == "dm" then
      var left, right := Peer(parts[2], parts[3]), Peer(parts[4], parts[5]);
      if from == left then right else if from == right then left else right
    else if |parts| == 3 && parts[0] == "chat" && parts[1] == "group" then Peer("group", parts[2])
    else FiledPeer(format, row, from)
  }

  /** `buildMessagePeers`: who sent the stored message, and to whom. */
  function Peers<U>(format: U -> string, row: Stored<U>): (Peer, Peer) {
    var from := StoredSender(format, row);
    (EnsurePeer(from), StoredReceiver(format, row, from))
  }

  predicate IsCanonical<U(==)>(parse: string -> Option<U>, format: U -> string, id: string) {
    parse(id).Some? && format(parse(id).value) == id
  }

  /** The sender's id is a canonical UUID; or there is none, and no bot id to stand in for it. */
  predicate SenderSurvives<U(==)>(parse: string -> Option<U>, format: U -> string, n: Incoming) {
    || (n.sender.id != "" && IsCanonical(parse, format, n.sender.id))
    || (n.sender.id == "" && (n.sender.kind != "bot" || ParseOptional(parse, n.botId).None?))
  }

  lemma SenderRebuiltIff<U(!new)>(parse: string -> Option<U>, format: U -> string, n: Incoming)
    requires Codec(parse, format) && n.sender.kind != ""
    ensures StoredSender(format, Store(parse, n)) == n.sender <==> SenderSurvives(parse, format, n)
  {
    var row := Store(parse, n);
    if row.senderId.None? && row.botId.Some? {
      assert parse(format(row.botId.value)) == Some(row.botId.value);
    }
  }

  lemma PrefixStays(trim: string -> string, space: char -> bool, head: string, c: string)
    requires Text.TrimsBy(trim, space) && Text.Trimmed(space, head) && !space('c') && !space('/')
    requires "chat/" <= head <= c && '%' !in head
    ensures head <= Normalize(trim, c)
  {
    ChatStaysChat(trim, space, c);
    assert head <= trim(c);
    UnescapeKeepsPlainPrefix(head, trim(c));
  }

  lemma AfterHead(head: string, s: string)
    requires head <= s
    ensures s == head + s[|head|..]
  {
  }

  lemma GroupTopicsDiffer(x: string, y: string)
    ensures GroupTopic(x) == GroupTopic(y) <==> x == y
  {
    assert GroupTopic(x)[|"chat/group/"|..] == x && GroupTopic(y)[|"chat/group/"|..] == y;
  }

  /** A message accepted on a stored group topic is for the group that normalising makes of it. */
  lemma NormalizedGroup(trim: string -> string, space: char -> bool, n: Incoming, id: string) returns (group: string)
    requires Text.TrimsBy(trim, space) && !space('c') && !space('/')
    requires n.conversationId == GroupTopic(id) && Validate(trim, n) == Accepted
    ensures Normalize(trim, n.conversationId) == GroupTopic(group) && n.receiver == Peer("group", group)
  {
    var c, head := n.conversationId, "chat/group/";
    assert head[0] == 'c' && head[10] == '/' && head[..5] == "chat/" && c == head + id;
    PrefixStays(trim, space, head, c);
    AfterHead(head, Normalize(trim, c));
    group := Normalize(trim, c)[|head|..];
    SplitUnderGroup(group);
    RouteUnderGroup(Split('/', group));
    Levels.OneLevel(group);
    AcceptedIff(trim, n);
  }

  lemma StoredGroup<U>(parse: string -> Option<U>, format: U -> string, n: Incoming, id: string)
    requires Split('/', n.conversationId) == ["chat", "group", id]
    ensures StoredReceiver(format, Store(parse, n), n.sender) == Peer("group", id)
    ensures n.conversationId == GroupTopic(id)
  {
    JoinOfSplit('/', n.conversationId);
    GroupTopicIsJoin(id);
  }

  /** On the topic of a group: exactly when normalising leaves the stored topic alone. */
  lemma GroupReceiverIff<U>(trim: string -> string, space: char -> bool, parse: string -> Option<U>,
                            format: U -> string, n: Incoming, id: string)
    requires Text.TrimsBy(trim, space) && !space('c') && !space('/')
    ensures Split('/', n.conversationId) == ["chat", "group", id] && Validate(trim, n) == Accepted ==>
              (StoredReceiver(format, Store(parse, n), n.sender) == n.receiver <==> Fixed(trim, n.conversationId))
  {
    if Split('/', n.conversationId) == ["chat", "group", id] && Validate(trim, n) == Accepted {
      StoredGroup(parse, format, n, id);
      var group := NormalizedGroup(trim, space, n, id);
      GroupTopicsDiffer(id, group);
      NormalizeFixedIff(trim, space, n.conversationId);
      hide *;
    }
  }

  lemma SplitUnderGroup(x: string)
    ensures Split('/', "chat/group/" + x) == ["chat", "group"] + Split('/', x)
  {
    SplitPlain('/', "chat");
    SplitPiece('/', "chat", "group");
    Levels.SplitJoined('/', "chat/group", x);
    assert "chat" + ['/'] + "group" == "chat/group" && "chat/group" + ['/'] + x == "chat/group/" + x;
    assert ["chat"] + ["group"] == ["chat", "group"];
  }

  lemma RouteUnderGroup(rest: seq<string>)
    requires |rest| > 0
    ensures var r := RouteOf(["chat", "group"] + rest);
            if |rest| == 1 then r == Route(NOBODY, NOBODY, rest[0]) else r == NO_ROUTE
  {
    var parts := ["chat", "group"] + rest;
    assert parts[1] == "group" && (|rest| == 1 ==> parts[2] == rest[0]);
  }

  lemma SplitUnderDirect(x: string)
    ensures Split('/', "chat/dm/" + x) == ["chat", "dm"] + Split('/', x)
  {
    SplitPlain('/', "chat");
    SplitPiece('/', "chat", "dm");
    Levels.SplitJoined('/', "chat/dm", x);
    assert "chat" + ['/'] + "dm" == "chat/dm" && "chat/dm" + ['/'] + x == "chat/dm/" + x;
    assert ["chat"] + ["dm"] == ["chat", "dm"];
  }

  lemma RouteUnderDirect(rest: seq<string>)
    requires |rest| > 0
    ensures var r := RouteOf(["chat", "dm"] + rest);
            if |rest| == 4 then r == Route(Peer(rest[0], rest[1]), Peer(rest[2], rest[3]), "") else r == NO_ROUTE
  {
    var parts := ["chat", "dm"] + rest;
    assert parts[1] == "dm";
    assert |rest| == 4 ==> parts[2] == rest[0] && parts[3] == rest[1] && parts[4] == rest[2] && parts[5] == rest[3];
  }

  lemma DirectPrefix(left: Peer, right: Peer) returns (rest: string)
    ensures DirectTopic(left, right) == "chat/dm/" + rest
  {
    rest := left.kind + "/" + left.id + "/" + right.kind + "/" + right.id;
  }

  lemma NormalizedUnderDirect(trim: string -> string, space: char -> bool, x: Peer, y: Peer)
    returns (levels: seq<string>)
    requires Text.TrimsBy(trim, space) && !space('c') && !space('/')
    ensures |levels| > 0 && Split('/', Normalize(trim, DirectTopic(x, y))) == ["chat", "dm"] + levels
  {
    var c, head := DirectTopic(x, y), "chat/dm/";
    var rest := DirectPrefix(x, y);
    assert head[0] == 'c' && head[7] == '/' && head[..5] == "chat/" && c == head + rest;
    PrefixStays(trim, space, head, c);
    hide *;
    AfterHead(head, Normalize(trim, c));
    levels := Split('/', Normalize(trim, c)[|head|..]);
    SplitUnderDirect(Normalize(trim, c)[|head|..]);
  }

  /** A message accepted on a stored direct topic is between the two peers that normalising makes of it. */
  lemma NormalizedDirect(trim: string -> string, space: char -> bool, n: Incoming, x: Peer, y: Peer)
    returns (left: Peer, right: Peer)
    requires Text.TrimsBy(trim, space) && !space('c') && !space('/')
    requires n.conversationId == DirectTopic(x, y) && Validate(trim, n) == Accepted
    ensures Split('/', Normalize(trim, n.conversationId)) == DirectParts(left, right)
    ensures left != right && {n.sender, n.receiver} == {left, right}
  {
    var levels := NormalizedUnderDirect(trim, space, x, y);
    RouteUnderDirect(levels);
    AcceptedIff(trim, n);
    hide Normalize, Split, DirectTopic, Validate;
    left, right := Peer(levels[0], levels[1]), Peer(levels[2], levels[3]);
    assert levels == [levels[0], levels[1], levels[2], levels[3]];
  }

  /** Levels do not grow by decoding, so two peers cannot turn into each other. */
  lemma PeersDoNotSwap(trim: string -> string, space: char -> bool, c: string, x: Peer, y: Peer, left: Peer,
                       right: Peer)
    requires Text.TrimsBy(trim, space) && !space('c') && !space('/') && "chat/" <= c
    requires Split('/', c) == DirectParts(x, y) && Split('/', Normalize(trim, c)) == DirectParts(left, right)
    requires left == y && right == x
    ensures left == right
  {
    Levels.NormalizedLevels(trim, space, c, 2);
    Levels.NormalizedLevels(trim, space, c, 3);
    Levels.NormalizedLevels(trim, space, c, 4);
    Levels.NormalizedLevels(trim, space, c, 5);
    hide *;
    LevelsOfParts(x, y);
    LevelsOfParts(left, right);
  }

  lemma LevelsOfParts(x: Peer, y: Peer)
    ensures var parts := DirectParts(x, y);
            |parts| == 6 && parts[2] == x.kind && parts[3] == x.id && parts[4] == y.kind && parts[5] == y.id
  {
  }

  function OtherOf(from: Peer, x: Peer, y: Peer): Peer {
    if from == x then y else if from == y then x else y
  }

  lemma StoredOther<U>(parse: string -> Option<U>, format: U -> string, n: Incoming, x: Peer, y: Peer)
    requires Split('/', n.conversationId) == DirectParts(x, y)
    ensures StoredReceiver(format, Store(parse, n), n.sender) == OtherOf(n.sender, x, y)
    ensures n.conversationId == DirectTopic(x, y) && "chat/" <= n.conversationId
  {
    JoinOfSplit('/', n.conversationId);
    DirectTopicIsJoin(x, y);
    assert "chat/dm/"[..5] == "chat/" && DirectTopic(x, y)[..5] == "chat/";
  }

  /**
    The stored topic's levels read `x` and `y`, and normalised `left` and `right`.
    A message from the left is given back its receiver exactly when `y` has no
    escape; one from the right, when no peer has one, or when by accident `y` as
    it stands reads like the left one decoded.
   */
  predicate PairSurvives(sender: Peer, x: Peer, y: Peer, left: Peer, right: Peer) {
    if sender == left then y == right
    else if y == right then x == left
    else y == left
  }

  lemma DirectReceiverIff<U>(trim: string -> string, space: char -> bool, parse: string -> Option<U>,
                             format: U -> string, n: Incoming, x: Peer, y: Peer, left: Peer, right: Peer)
    requires Text.TrimsBy(trim, space) && !space('c') && !space('/') && Validate(trim, n) == Accepted
    requires Split('/', n.conversationId) == DirectParts(x, y)
    requires Split('/', Normalize(trim, n.conversationId)) == DirectParts(left, right)
    ensures StoredReceiver(format, Store(parse, n), n.sender) == n.receiver <==>
            PairSurvives(n.sender, x, y, left, right)
  {
    StoredOther(parse, format, n, x, y);
    var l, r := NormalizedDirect(trim, space, n, x, y);
    LevelsOfParts(l, r);
    LevelsOfParts(left, right);
    if left == y && right == x {
      PeersDoNotSwap(trim, space, n.conversationId, x, y, left, right);
    }
    hide Split, Normalize, Validate, Store, StoredReceiver, DirectParts, DirectTopic;
    assert n.sender in {left, right} && n.receiver in {left, right} && left in {n.sender, n.receiver};
    assert right in {n.sender, n.receiver};
  }

  predicate GroupShaped(parts: seq<string>) {
    |parts| == 3 && parts[0] == "chat" && parts[1] == "group"
  }

  predicate DirectShaped(parts: seq<string>) {
    |parts| == 6 && parts[0] == "chat" && parts[1] == "dm"
  }

  /**
    The ids a message is filed under name its receiver: the group id parses and
    prints as the receiver's, or there is none that parses, and the bot id prints as
    the receiver's and not as the sender's. No id names a user.
   */
  predicate FiledNames<U(==)>(parse: string -> Option<U>, format: U -> string, n: Incoming) {
    var group, bot := ParseOptional(parse, n.groupId), ParseOptional(parse, n.botId);
    if n.receiver.kind == "group" then group.Some? && format(group.value) == n.receiver.id
    else n.receiver.kind == "bot" && group.None? && bot.Some? && format(bot.value) == n.receiver.id != n.sender.id
  }

  /** Where the stored topic, not decoded again, has neither shape: exactly when the filed ids name the receiver. */
  lemma FiledReceiverIff<U>(trim: string -> string, parse: string -> Option<U>, format: U -> string, n: Incoming)
    requires var raw := Split('/', n.conversationId); !GroupShaped(raw) && !DirectShaped(raw)
    ensures Validate(trim, n) == Accepted ==>
              (StoredReceiver(format, Store(parse, n), n.sender) == n.receiver <==> FiledNames(parse, format, n))
  {
    if Validate(trim, n) == Accepted {
      AcceptedNames(trim, n);
    }
    hide Split, Validate, ParseRoute;
  }

  /** There a message to a user never comes back as one to that user. */
  lemma HiddenUserIsLost<U>(parse: string -> Option<U>, format: U -> string, n: Incoming)
    requires var raw := Split('/', n.conversationId); !GroupShaped(raw) && !DirectShaped(raw)
    requires n.receiver.kind == "user"
    ensures Peers(format, Store(parse, n)).1 != n.receiver
  {
    hide Split;
  }

  /** What has to hold for the receiver, by the shape of the stored topic before it is decoded again. */
  predicate ReceiverSurvives<U(==)>(trim: string -> string, parse: string -> Option<U>, format: U -> string,
                                    n: Incoming) {
    var raw, levels := Split('/', n.conversationId), Split('/', Normalize(trim, n.conversationId));
    if GroupShaped(raw) then Fixed(trim, n.conversationId)
    else if DirectShaped(raw) then
      |levels| == 6 && PairSurvives(n.sender, Peer(raw[2], raw[3]), Peer(raw[4], raw[5]),
                                    Peer(levels[2], levels[3]), Peer(levels[4], levels[5]))
    else FiledNames(parse, format, n)
  }

  lemma ReceiverRebuiltIff<U>(trim: string -> string, space: char -> bool, parse: string -> Option<U>,
                              format: U -> string, n: Incoming)
    requires Text.TrimsBy(trim, space) && !space('c') && !space('/') && Validate(trim, n) == Accepted
    ensures StoredReceiver(format, Store(parse, n), n.sender) == n.receiver <==>
            ReceiverSurvives(trim, parse, format, n)
  {
    var raw := Split('/', n.conversationId);
    if GroupShaped(raw) {
      assert raw == ["chat", "group", raw[2]];
      GroupReceiverIff(trim, space, parse, format, n, raw[2]);
    } else if DirectShaped(raw) {
      var x, y := Peer(raw[2], raw[3]), Peer(raw[4], raw[5]);
      assert raw == DirectParts(x, y);
      StoredOther(parse, format, n, x, y);
      var left, right := NormalizedDirect(trim, space, n, x, y);
      DirectReceiverIff(trim, space, parse, format, n, x, y, left, right);
    } else {
      FiledReceiverIff(trim, parse, format, n);
    }
  }

  /**
    An accepted message comes back out with the sender and receiver it went in
    with exactly when its sender survives storing and its receiver is still named:
    by the stored topic, read without decoding it again, or, where an escaped slash
    hides a level of that, by the ids the message is filed under.
   */
  lemma PeersRebuiltIff<U(!new)>(trim: string -> string, space: char -> bool, parse: string -> Option<U>,
                                 format: U -> string, n: Incoming)
    requires Text.TrimsBy(trim, space) && !space('c') && !space('/') && Codec(parse, format)
    requires n.sender.kind != "" && Validate(trim, n) == Accepted
    ensures Peers(format, Store(parse, n)) == (n.sender, n.receiver) <==>
            SenderSurvives(parse, format, n) && ReceiverSurvives(trim, parse, format, n)
  {
    SenderRebuiltIff(parse, format, n);
    ReceiverRebuiltIff(trim, space, parse, format, n);
    hide ReceiverSurvives, SenderSurvives, Validate;
  }

  lemma FixedTopicKeepsReceiver<U>(trim: string -> string, parse: string -> Option<U>, format: U -> string, n: Incoming)
    requires Normalize(trim, n.conversationId) == n.conversationId && Validate(trim, n) == Accepted
    ensures StoredReceiver(format, Store(parse, n), n.sender) == n.receiver
  {
  }

  /** On a topic that normalising leaves alone only the sender counts. */
  lemma FixedTopicPeersIff<U(!new)>(trim: string -> string, parse: string -> Option<U>, format: U -> string,
                                    n: Incoming)
    requires Codec(parse, format) && n.sender.kind != ""
    requires Normalize(trim, n.conversationId) == n.conversationId && Validate(trim, n) == Accepted
    ensures Peers(format, Store(parse, n)) == (n.sender, n.receiver) <==> SenderSurvives(parse, format, n)
  {
    SenderRebuiltIff(parse, format, n);
    FixedTopicKeepsReceiver(trim, parse, format, n);
  }

  /** On a direct topic nothing but a canonical UUID will do for the sender. */
  lemma DirectPeersRebuiltIff<U(!new)>(trim: string -> string, space: char -> bool, parse: string -> Option<U>,
                                       format: U -> string, n: Incoming)
    requires Text.TrimsBy(trim, space) && !space('c') && !space('/') && Codec(parse, format)
    requires n.sender.kind != "" && Validate(trim, n) == Accepted && IsDirect(ParseRoute(trim, n.conversationId))
    ensures Peers(format, Store(parse, n)) == (n.sender, n.receiver) <==>
            IsCanonical(parse, format, n.sender.id) && ReceiverSurvives(trim, parse, format, n)
  {
    PeersRebuiltIff(trim, space, parse, format, n);
    RouteIsDirectOrGroup(Split('/', Normalize(trim, n.conversationId)));
    AcceptedNames(trim, n);
    hide ReceiverSurvives, Validate, Peers, Store, ParseRoute;
  }

  /** The topic a message is stored under: the one it came on, with one layer of escapes taken off. */
  lemma StoredTopic(trim: string -> string, space: char -> bool, topic: string, p: Payload)
    requires Text.TrimsBy(trim, space) && !space('c') && !space('/') && "chat/" <= topic
    ensures Read(trim, topic, p).conversationId == Decoded(trim(topic))
  {
    ChatStaysChat(trim, space, topic);
    ChatStaysChat(trim, space, trim(topic));
    assert trim(trim(topic)) == trim(topic);
    assert FirstNonEmpty(trim, [topic, p.conversationId, p.topic]) == trim(topic);
  }

  /** From the wire to the response, on any topic and for any payload. */
  lemma DeliveredPeersIff<U(!new)>(trim: string -> string, space: char -> bool, parse: string -> Option<U>,
                                   format: U -> string, topic: string, p: Payload)
    requires Text.TrimsBy(trim, space) && !space('c') && !space('/') && Codec(parse, format)
    ensures var n := Read(trim, topic, p);
            Validate(trim, n) == Accepted ==>
              (Peers(format, Store(parse, n)) == (n.sender, n.receiver) <==>
               SenderSurvives(parse, format, n) && ReceiverSurvives(trim, parse, format, n))
  {
    var n := Read(trim, topic, p);
    assert n.sender.kind != "";
    hide *;
    if Validate(trim, n) == Accepted {
      PeersRebuiltIff(trim, space, parse, format, n);
    }
  }

  /**
    Where one round takes off all there is to take off the wire topic, as it does
    from every percent-free topic and from every topic escaped once, only the
    sender counts.
   */
  lemma SettledTopicPeersIff<U(!new)>(trim: string -> string, space: char -> bool, parse: string -> Option<U>,
                                      format: U -> string, topic: string, p: Payload)
    requires Text.TrimsBy(trim, space) && !space('c') && !space('/') && Codec(parse, format) && "chat/" <= topic
    requires var d := Decoded(trim(topic)); trim(d) == d && NoEscape(d)
    ensures var n := Read(trim, topic, p);
            Validate(trim, n) == Accepted ==>
              (Peers(format, Store(parse, n)) == (n.sender, n.receiver) <==> SenderSurvives(parse, format, n))
  {
    StoredTopic(trim, space, topic, p);
    ChatStaysChat(trim, space, topic);
    NormalizeFixedIff(trim, space, Decoded(trim(topic)));
    if Validate(trim, Read(trim, topic, p)) == Accepted {
      FixedTopicPeersIff(trim, parse, format, Read(trim, topic, p));
    }
  }

  // ----- A topic escaped twice.

  lemma SplitGroup(id: string)
    requires '/' !in id
    ensures Split('/', GroupTopic(id)) == ["chat", "group", id]
  {
    GroupTopicIsJoin(id);
    SplitOfJoin('/', ["chat", "group", id]);
  }

  lemma EscapesDecode()
    ensures PathUnescape("%31") == Some("1") && PathUnescape("%2531") == Some("%31")
  {
    var escape := "%31";
    assert escape[3..] == "" && HexValue(escape[1]) == Some(3) && HexValue(escape[2]) == Some(1) && 49 as char == '1';
    assert PathUnescape("") == Some("") && "1" == ['1'] + "";
    EscapedPercent("31");
    assert "%25" + "31" == "%2531" && "%" + "31" == "%31";
  }

  lemma GroupTopicIsTrimmed(trim: string -> string, space: char -> bool, id: string)
    requires Text.TrimsBy(trim, space) && !space('c') && !space('/') && (id == "" || !space(id[|id| - 1]))
    ensures "chat/" <= GroupTopic(id) && trim(GroupTopic(id)) == GroupTopic(id)
  {
    var head := "chat/group/";
    assert head[0] == 'c' && head[10] == '/' && head[..5] == "chat/" && GroupTopic(id) == head + id;
    TrimmedStays(trim, space, GroupTopic(id));
  }

  lemma DecodedGroup(id: string, group: string)
    requires PathUnescape(id) == Some(group)
    ensures Decoded(GroupTopic(id)) == GroupTopic(group)
  {
    UnescapeAfter("chat/group/", id);
    assert GroupTopic(group)[0] == 'c';
  }

  lemma GroupDecodes(trim: string -> string, space: char -> bool, id: string, group: string)
    requires Text.TrimsBy(trim, space) && !space('c') && !space('/') && (id == "" || !space(id[|id| - 1]))
    requires PathUnescape(id) == Some(group)
    ensures "chat/" <= GroupTopic(id) && trim(GroupTopic(id)) == GroupTopic(id)
    ensures Decoded(GroupTopic(id)) == GroupTopic(group) == Normalize(trim, GroupTopic(id))
  {
    hide *;
    GroupTopicIsTrimmed(trim, space, id);
    DecodedGroup(id, group);
    ChatStaysChat(trim, space, GroupTopic(id));
  }

  lemma NamedReceiver(trim: string -> string, topic: string, p: Payload, to: Peer)
    requires p.to == Some(to) && trim(to.kind) == to.kind != "" && trim(to.id) == to.id != ""
    ensures Read(trim, topic, p).receiver == to && Read(trim, topic, p).body == p.body
  {
    hide Normalize, ParseRoute;
  }

  lemma RouteOfNormalized(trim: string -> string, topic: string, group: string)
    requires Normalize(trim, topic) == GroupTopic(group) && '/' !in group
    ensures ParseRoute(trim, topic) == Route(NOBODY, NOBODY, group)
  {
    SplitGroup(group);
  }

  /**
    A message to a group on the wire topic of `wire`, which decodes to `stored` and
    that to `group`: it is accepted for `group`, and comes back as one to `stored`.
   */
  lemma EscapedGroupComesBackAs<U>(trim: string -> string, space: char -> bool, parse: string -> Option<U>,
                                   format: U -> string, p: Payload, wire: string, stored: string, group: string)
    requires Text.TrimsBy(trim, space) && !space('c') && !space('/') && !space('g') && !space('p')
    requires PathUnescape(wire) == Some(stored) && PathUnescape(stored) == Some(group)
    requires '/' !in stored && '/' !in group
    requires wire != "" && !space(wire[|wire| - 1]) && stored != "" && !space(stored[|stored| - 1])
    requires group != "" && trim(group) == group && p.to == Some(Peer("group", group)) && p.body != ""
    ensures var n := Read(trim, GroupTopic(wire), p);
            && n.conversationId == GroupTopic(stored) && n.receiver == Peer("group", group)
            && Validate(trim, n) == Accepted
            && Peers(format, Store(parse, n)).1 == Peer("group", stored)
  {
    var n := Read(trim, GroupTopic(wire), p);
    TrimmedStays(trim, space, "group");
    NamedReceiver(trim, GroupTopic(wire), p, Peer("group", group));
    GroupDecodes(trim, space, wire, stored);
    GroupDecodes(trim, space, stored, group);
    hide Normalize, Decoded, PathUnescape, GroupTopic, Split, Read;
    StoredTopic(trim, space, GroupTopic(wire), p);
    RouteOfNormalized(trim, GroupTopic(stored), group);
    AcceptedIff(trim, n);
    SplitGroup(stored);
    ReceiverOnGroup(parse, format, n, stored);
  }

  lemma ReceiverOnGroup<U>(parse: string -> Option<U>, format: U -> string, n: Incoming, id: string)
    requires Split('/', n.conversationId) == ["chat", "group", id]
    ensures Peers(format, Store(parse, n)).1 == Peer("group", id)
  {
  }

  /**
    On the wire topic `chat/group/%2531` a message to the group 1 comes back as one
    to the group %31. Escaped once, on `chat/group/%31`, it comes back unchanged.
   */
  lemma EscapedTopicLosesReceiver<U>(trim: string -> string, space: char -> bool, parse: string -> Option<U>,
                                     format: U -> string, p: Payload)
    requires Text.TrimsBy(trim, space) && !space('c') && !space('/') && !space('1') && !space('g') && !space('p')
    requires p.to == Some(Peer("group", "1")) && p.body != ""
    ensures var twice, once := Read(trim, GroupTopic("%2531"), p), Read(trim, GroupTopic("%31"), p);
            && Validate(trim, twice) == Accepted && Validate(trim, once) == Accepted
            && twice.receiver == once.receiver == Peer("group", "1")
            && Peers(format, Store(parse, twice)).1 == Peer("group", "%31") != twice.receiver
            && Peers(format, Store(parse, once)).1 == once.receiver
  {
    EscapesDecode();
    UnescapePlain("1");
    TrimmedStays(trim, space, "1");
    assert "%31" != "1" && "%2531"[4] == '1' && "%31"[2] == '1';
    hide *;
    EscapedGroupComesBackAs(trim, space, parse, format, p, "%2531", "%31", "1");
    EscapedGroupComesBackAs(trim, space, parse, format, p, "%31", "1", "1");
  }

  // ----- A topic with an escaped slash.

  /** The direct topic of a user and a bot with its second slash escaped. */
  function HiddenTopic(user: string, bot: string): string {
    "chat/dm%2Fuser/" + user + "/bot/" + bot
  }

  lemma HiddenTopicIs(user: string, bot: string)
    ensures HiddenTopic(user, bot) == "chat" + ['/'] + ("dm%2Fuser" + ['/'] + (user + "/bot/" + bot))
    ensures HiddenTopic(user, bot) == "chat/dm" + (['%', '2', 'F'] + ("user/" + user + "/bot/" + bot))
    ensures "chat/dm" + (['/'] + ("user/" + user + "/bot/" + bot)) == DirectTopic(Peer("user", user), Peer("bot", bot))
  {
    var head := "chat/dm%2Fuser/";
    assert head == "chat" + ['/'] + "dm%2Fuser" + ['/'] == "chat/dm" + ['%', '2', 'F'] + "user/";
  }

  lemma HiddenTopicLevels(user: string, bot: string)
    ensures var raw := Split('/', HiddenTopic(user, bot)); !GroupShaped(raw) && !DirectShaped(raw)
    ensures "chat/" <= HiddenTopic(user, bot)
  {
    var head, rest := "dm%2Fuser", user + "/bot/" + bot;
    assert '/' !in head && '/' !in "chat" && |head| == 9;
    assert HiddenTopic(user, bot)[..5] == "chat/";
    HiddenTopicIs(user, bot);
    hide Split, HiddenTopic;
    SplitPlain('/', "chat");
    SplitPlain('/', head);
    Levels.SplitJoined('/', head, rest);
    Levels.SplitJoined('/', "chat", head + ['/'] + rest);
  }

  lemma SlashUnescapes(rest: string)
    requires '%' !in rest
    ensures PathUnescape(['%', '2', 'F'] + rest) == Some(['/'] + rest)
  {
    UnescapePlain(rest);
    Levels.UnescapeEscaped('2', 'F', rest);
    assert HexValue('2') == Some(2) && HexValue('F') == Some(15) && 47 as char == '/';
    hide PathUnescape;
  }

  lemma HiddenTopicDecodes(user: string, bot: string)
    requires '%' !in user && '%' !in bot
    ensures Decoded(HiddenTopic(user, bot)) == DirectTopic(Peer("user", user), Peer("bot", bot))
  {
    hide PathUnescape;
    var rest := "user/" + user + "/bot/" + bot;
    SlashUnescapes(rest);
    UnescapeAfter("chat/dm", ['%', '2', 'F'] + rest);
    HiddenTopicIs(user, bot);
    assert DirectTopic(Peer("user", user), Peer("bot", bot)) != "";
  }

  /** A bot's message to a user on such a stored topic is accepted, and comes back as one to nobody. */
  lemma HiddenSlashLosesUser<U(!new)>(trim: string -> string, space: char -> bool, parse: string -> Option<U>,
                                      format: U -> string, n: Incoming, user: string, bot: string)
    requires Text.TrimsBy(trim, space) && !space('c') && !space('/') && Codec(parse, format)
    requires Plain(space, user) && Plain(space, bot) && user != "" && '/' !in user && '/' !in bot
    requires IsCanonical(parse, format, bot) && bot != ""
    requires n.conversationId == HiddenTopic(user, bot) && n.body != "" && n.botId == bot && n.groupId == ""
    requires n.sender == Peer("bot", bot) && n.receiver == Peer("user", user)
    ensures Validate(trim, n) == Accepted
    ensures Peers(format, Store(parse, n)) == (n.sender, NOBODY)
  {
    HiddenTopicLevels(user, bot);
    HiddenTopicDecodes(user, bot);
    HiddenTopicIsTrimmed(space, user, bot);
    TrimmedStays(trim, space, n.conversationId);
    ChatStaysChat(trim, space, n.conversationId);
    DirectRouteIs(user, bot);
    FiledForNobody(parse, format, n);
    hide Split, DirectTopic, HiddenTopic, Normalize, Text.TrimsBy;
    AcceptedIff(trim, n);
  }

  lemma HiddenTopicIsTrimmed(space: char -> bool, user: string, bot: string)
    requires !space('c') && Plain(space, bot) && bot != ""
    ensures Text.Trimmed(space, HiddenTopic(user, bot))
  {
    assert HiddenTopic(user, bot) == "chat/dm%2Fuser/" + user + "/bot/" + bot && HiddenTopic(user, bot)[0] == 'c';
  }

  lemma DirectRouteIs(user: string, bot: string)
    requires '/' !in user && '/' !in bot
    ensures RouteOf(Split('/', DirectTopic(Peer("user", user), Peer("bot", bot))))
            == Route(Peer("user", user), Peer("bot", bot), "")
  {
    var left, right := Peer("user", user), Peer("bot", bot);
    DirectTopicIsJoin(left, right);
    DirectPartsWhole(left, right);
    SplitOfJoin('/', DirectParts(left, right));
    RouteOfDirect(DirectParts(left, right), left, right);
  }

  lemma FiledForNobody<U>(parse: string -> Option<U>, format: U -> string, n: Incoming)
    requires var raw := Split('/', n.conversationId); !GroupShaped(raw) && !DirectShaped(raw)
    requires n.sender.kind == "bot" && n.botId == n.sender.id != "" && n.groupId == ""
    requires IsCanonical(parse, format, n.sender.id)
    ensures Peers(format, Store(parse, n)) == (n.sender, NOBODY)
  {
    hide Split;
  }

  lemma TrimmedStays(trim: string -> string, space: char -> bool, s: string)
    requires Text.TrimsBy(trim, space) && Text.Trimmed(space, s)
    ensures trim(s) == s
  {
    assert s <= trim(s);
  }
}
