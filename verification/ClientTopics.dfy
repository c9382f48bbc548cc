/**
  The topic builders and parsers of the web client (frontend/src/lib/chat.ts:36-54, 285-327)
  and of the extension (extensions/openclaw-bot-chat/src/runtime.ts:145-212),
  held against the backend's.
 */
module ClientTopics {
  import opened MessageLog
  import opened Topics
  import opened Encodings
  import Text

  // ----- JavaScript compares strings by UTF-16 units.

  predicate WebLess(a: string, b: string) {
    UnitsLess(Units(a), Units(b))
  }

  predicate Astral(c: char) { c >= '\U{10000}' }

  /** The first characters in which the strings differ: one outside the basic plane, the other above the surrogates. */
  predicate Crossing(a: string, b: string) {
    a != "" && b != ""
    && if a[0] == b[0] then Crossing(a[1..], b[1..])
       else (Astral(a[0]) && '\U{E000}' <= b[0] && !Astral(b[0]))
            || (Astral(b[0]) && '\U{E000}' <= a[0] && !Astral(a[0]))
  }

  /** Two different characters, whatever follows. */
  lemma CharOrder(c: char, d: char, a: seq<int>, b: seq<int>)
    requires c != d
    ensures UnitsLess(CharUnits(c) + a, CharUnits(d) + b) <==>
            if Astral(c) && '\U{E000}' <= d && !Astral(d) then true
            else if Astral(d) && '\U{E000}' <= c && !Astral(c) then false
            else c < d
  {
    var u, v := CharUnits(c), CharUnits(d);
    assert (u + a)[0] == u[0] && (v + b)[0] == v[0];
    if Astral(c) && Astral(d) && u[0] == v[0] {
      assert (u + a)[1..][0] == u[1] && (v + b)[1..][0] == v[1];
    }
  }

  /** The order by units is that by characters, turned round exactly where the strings cross. */
  lemma {:induction false} WebLessIff(a: string, b: string)
    ensures WebLess(a, b) <==> if Crossing(a, b) then Text.Less(b, a) else Text.Less(a, b)
  {
    if a != "" && b != "" {
      if a[0] == b[0] {
        WebLessIff(a[1..], b[1..]);
        UnitsBehindPrefix(CharUnits(a[0]), Units(a[1..]), Units(b[1..]));
      } else {
        CharOrder(a[0], b[0], Units(a[1..]), Units(b[1..]));
      }
    }
  }

  lemma {:induction false} CrossingIsSymmetric(a: string, b: string)
    ensures Crossing(a, b) == Crossing(b, a) && (Crossing(a, b) ==> a != b)
  {
    if a != "" && b != "" && a[0] == b[0] {
      CrossingIsSymmetric(a[1..], b[1..]);
    }
  }

  // ----- The web client's builder.

  predicate Ranked(p: Peer) { p.kind == "user" || p.kind == "bot" }

  function WebRank(kind: string): nat {
    if kind == "user" then 0 else 1
  }

  /** `canonicalizeDirectPeers`, and word for word `canonicalizeBotChatDirectPeers`. */
  function WebCanonical(left: Peer, right: Peer): (Peer, Peer) {
    if WebRank(left.kind) != WebRank(right.kind) then
      if WebRank(left.kind) < WebRank(right.kind) then (left, right) else (right, left)
    else if !WebLess(right.id, left.id) then (left, right)
    else (right, left)
  }

  function WebDirectTopic(from: Peer, to: Peer): string {
    var (left, right) := WebCanonical(from, to);
    DirectTopic(left, right)
  }

  lemma CanonicalAgreesIff(a: Peer, b: Peer)
    requires Ranked(a) && Ranked(b)
    ensures WebCanonical(a, b) == Canonical(a, b) <==> a.kind != b.kind || !Crossing(a.id, b.id)
    ensures WebCanonical(a, b) == WebCanonical(b, a)
  {
    WebLessIff(a.id, b.id);
    WebLessIff(b.id, a.id);
    CrossingIsSymmetric(a.id, b.id);
    Text.LessTotal(a.id, b.id);
    if Text.Less(a.id, b.id) {
      Text.LessAsymmetric(a.id, b.id);
    }
    if Text.Less(b.id, a.id) {
      Text.LessAsymmetric(b.id, a.id);
    }
  }

  lemma DirectTopicDeterminesPeers(left: Peer, right: Peer, x: Peer, y: Peer)
    requires NoSlash(left) && NoSlash(right) && NoSlash(x) && NoSlash(y)
    requires DirectTopic(left, right) == DirectTopic(x, y)
    ensures left == x && right == y
  {
    DirectTopicIsJoin(left, right);
    DirectTopicIsJoin(x, y);
    DirectPartsWhole(left, right);
    DirectPartsWhole(x, y);
    SplitOfJoin('/', DirectParts(left, right));
    SplitOfJoin('/', DirectParts(x, y));
    assert DirectParts(left, right) == DirectParts(x, y);
    assert DirectParts(left, right)[2] == DirectParts(x, y)[2] && DirectParts(left, right)[3] == DirectParts(x, y)[3];
    assert DirectParts(left, right)[4] == DirectParts(x, y)[4] && DirectParts(left, right)[5] == DirectParts(x, y)[5];
  }

  /**
    Client and backend print the same topic for two users or bots exactly when
    the two are of different kinds or their ids do not cross.
   */
  lemma BuildersAgreeIff(a: Peer, b: Peer)
    requires Ranked(a) && Ranked(b) && NoSlash(a) && NoSlash(b)
    ensures WebDirectTopic(a, b) == BuildConversation(a, b) <==> a.kind != b.kind || !Crossing(a.id, b.id)
  {
    CanonicalAgreesIff(a, b);
    var x, y := WebCanonical(a, b), Canonical(a, b);
    if DirectTopic(x.0, x.1) == DirectTopic(y.0, y.1) {
      DirectTopicDeterminesPeers(x.0, x.1, y.0, y.1);
    }
  }

  /** Each side prints one topic for two users or bots, whoever is named first. */
  lemma BuildersIgnoreSides(a: Peer, b: Peer)
    requires Ranked(a) && Ranked(b)
    ensures WebDirectTopic(a, b) == WebDirectTopic(b, a) && BuildConversation(a, b) == BuildConversation(b, a)
  {
    CanonicalAgreesIff(a, b);
    SwapInvariantIff(a, b);
  }

  /** ASCII ids never cross. */
  lemma {:induction false} AsciiNeverCrosses(a: string, b: string)
    requires forall c :: c in a + b ==> c < '\U{80}'
    ensures !Crossing(a, b)
  {
    if a != "" && b != "" {
      assert a[0] in a + b && b[0] in a + b;
      forall c | c in a[1..] + b[1..] ensures c in a + b {
        assert c in a[1..] || c in b[1..];
      }
      AsciiNeverCrosses(a[1..], b[1..]);
    }
  }

  /** Two ids that cross: a surrogate unit sorts below U+FF21, the character it belongs to above. */
  lemma AstralIdsPart()
    ensures var a, b := Peer("user", "\U{FF21}"), Peer("user", "\U{1F600}");
            WebDirectTopic(a, b) == DirectTopic(b, a) && BuildConversation(a, b) == DirectTopic(a, b)
  {
    var low, high := "\U{FF21}", "\U{1F600}";
    assert low[0] < high[0] && Crossing(low, high);
    WebLessIff(low, high);
    WebLessIff(high, low);
  }

  // ----- Parsing.

  datatype ChatRoute = DirectChat(left: Peer, right: Peer) | GroupChat(groupId: string) | UnknownChat

  function ParseChatTopic(topic: string): ChatRoute {
    var parts := Split('/', topic);
    if |parts| == 3 && parts[0] == "chat" && parts[1] == "group" then GroupChat(parts[2])
    else if |parts| == 6 && parts[0] == "chat" && parts[1] == "dm" then
      DirectChat(Peer(parts[2], parts[3]), Peer(parts[4], parts[5]))
    else UnknownChat
  }

  function AsRoute(r: ChatRoute): Route {
    match r
    case DirectChat(left, right) => DirectRoute((left, right))
    case GroupChat(id) => Route(NOBODY, NOBODY, id)
    case UnknownChat => NO_ROUTE
  }

  /**
    The client does not normalise: where the backend recognises a topic, the
    client reads the same peers or group exactly if there is nothing to take off.
   */
  lemma ParsersAgreeIff(trim: string -> string, space: char -> bool, topic: string)
    requires Text.TrimsBy(trim, space) && !space('c') && !space('/') && ParseRoute(trim, topic) != NO_ROUTE
    ensures AsRoute(ParseChatTopic(topic)) == ParseRoute(trim, topic) <==> Fixed(trim, topic)
  {
    var parts, levels := Split('/', topic), Split('/', Normalize(trim, topic));
    NormalizeFixedIff(trim, space, topic);
    assert AsRoute(ParseChatTopic(topic)) == RouteOf(parts);
    if RouteOf(parts) == RouteOf(levels) {
      RouteDeterminesParts(parts, levels);
      JoinOfSplit('/', topic);
      JoinOfSplit('/', Normalize(trim, topic));
    }
  }

  /** What the client prints it reads back: the same two peers, in canonical order. */
  lemma WebRoundTrip(a: Peer, b: Peer)
    requires Ranked(a) && Ranked(b)
    ensures var (left, right) := WebCanonical(a, b);
            ParseChatTopic(WebDirectTopic(a, b)) == DirectChat(left, right) <==> NoSlash(a) && NoSlash(b)
  {
    var left, right := WebCanonical(a, b).0, WebCanonical(a, b).1;
    var topic := DirectTopic(left, right);
    assert NoSlash(left) && NoSlash(right) <==> NoSlash(a) && NoSlash(b);
    DirectTopicIsJoin(left, right);
    SplitOfJoinIff('/', DirectParts(left, right));
    DirectPartsWhole(left, right);
    RouteOfDirect(Split('/', topic), left, right);
    assert left != NOBODY;
  }

  /** And the backend reads the same two, exactly when besides normalising finds nothing to take off the topic. */
  lemma BackendReadsWebTopicIff(trim: string -> string, space: char -> bool, a: Peer, b: Peer)
    requires Text.TrimsBy(trim, space) && !space('c') && !space('/') && Ranked(a) && Ranked(b)
    ensures ParseRoute(trim, WebDirectTopic(a, b)) == DirectRoute(WebCanonical(a, b)) <==>
            NoSlash(a) && NoSlash(b) && Fixed(trim, WebDirectTopic(a, b))
  {
    var left, right := WebCanonical(a, b).0, WebCanonical(a, b).1;
    assert NoSlash(left) && NoSlash(right) <==> NoSlash(a) && NoSlash(b);
    assert WebDirectTopic(a, b) == DirectTopic(left, right) && WebCanonical(a, b) == (left, right);
    hide *;
    DirectTopicParsesIff(trim, space, left, right);
    RouteOfPair(left, right);
  }

  // ----- The extension.

  function DropSlashes(s: string): string {
    if s != "" && s[0] == '/' then DropSlashes(s[1..]) else s
  }

  /** `buildBotChatGroupTopic` takes an id or a whole topic. */
  function ExtensionGroupTopic(trim: string -> string, id: string): string {
    var trimmed := DropSlashes(trim(id));
    if "chat/group/" <= trimmed then trimmed else GroupTopic(trimmed)
  }

  /** Id or topic, the result is the topic. */
  lemma ExtensionGroupTopicIsStable(trim: string -> string, id: string)
    requires '/' !in id && trim(id) == id && trim(GroupTopic(id)) == GroupTopic(id)
    ensures ExtensionGroupTopic(trim, id) == GroupTopic(id)
    ensures ExtensionGroupTopic(trim, ExtensionGroupTopic(trim, id)) == GroupTopic(id)
  {
    assert id == "" || id[0] in id;
    assert |id| > 4 ==> id[4] in id && id[4] != "chat/group/"[4];
    assert GroupTopic(id)[0] == 'c';
  }

  lemma DropOneSlash(s: string)
    ensures DropSlashes("/" + s) == DropSlashes(s)
  {
    assert ("/" + s)[1..] == s;
  }

  /** Leading slashes and outer white space do not matter, before an id or a topic. */
  lemma ExtensionIgnoresSlashes(trim: string -> string, raw: string, other: string)
    requires trim(raw) == "/" + trim(other)
    ensures ExtensionGroupTopic(trim, raw) == ExtensionGroupTopic(trim, other)
  {
    DropOneSlash(trim(other));
  }

  /** `inferBotChatDirectUserId`: the user a bot talks to on a topic. */
  function InferUser(topic: string, botId: string): Option<string> {
    match ParseChatTopic(topic)
    case DirectChat(left, right) =>
      if left.kind == "user" && right == Peer("bot", botId) then Some(left.id)
      else if right.kind == "user" && left == Peer("bot", botId) then Some(right.id)
      else None
    case _ => None
  }

  /** In whichever order a topic names two peers: a bot infers the user that is one of them, if it is the other. */
  lemma InferUserEitherWay(left: Peer, right: Peer, botId: string, user: string)
    requires NoSlash(left) && NoSlash(right)
    ensures InferUser(DirectTopic(left, right), botId) == Some(user) <==>
            || (left == Peer("user", user) && right == Peer("bot", botId))
            || (left == Peer("bot", botId) && right == Peer("user", user))
  {
    DirectTopicIsJoin(left, right);
    DirectPartsWhole(left, right);
    SplitOfJoin('/', DirectParts(left, right));
    hide Split, DirectTopic;
  }

  /** On the topic of two peers a bot infers a user exactly when it is one of them and the user the other. */
  lemma InferUserIff(a: Peer, b: Peer, botId: string, user: string)
    requires Ranked(a) && Ranked(b) && NoSlash(a) && NoSlash(b)
    ensures InferUser(WebDirectTopic(a, b), botId) == Some(user) <==>
            multiset{a, b} == multiset{Peer("user", user), Peer("bot", botId)}
  {
    WebRoundTrip(a, b);
    var x, y := Peer("user", user), Peer("bot", botId);
    assert multiset{a, b} == multiset{x, y} <==> (a == x && b == y) || (a == y && b == x) by {
      if multiset{a, b} == multiset{x, y} {
        assert a in multiset{x, y} && b in multiset{x, y} && x in multiset{a, b} && y in multiset{a, b};
      }
    }
  }
}
