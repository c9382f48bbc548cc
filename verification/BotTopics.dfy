/**
  Which topics a bot listens to and may read
  (backend/internal/service/message_acl.go:49-130, 228-249). Filters match level
  by level, with `+` for any one level (section 4.7.1.3 of MQTT 3.1.1).
 */
module BotTopics {
  import opened MessageLog
  import opened Topics
  import opened Routing
  import opened Sorting
  import Levels
  import FlatMaps
  import Mentions
  import Text

  // ----- Filters.

  predicate LevelsMatch(filter: seq<string>, topic: seq<string>) {
    |filter| == |topic| && forall k :: 0 <= k < |filter| ==> filter[k] == "+" || filter[k] == topic[k]
  }

  predicate Matches(filter: string, topic: string) {
    LevelsMatch(Split('/', filter), Split('/', topic))
  }

  function Bot(id: string): Peer { Peer("bot", id) }

  function User(id: string): Peer { Peer("user", id) }

  function BotFilters(botId: string): seq<string> {
    [DirectTopic(User("+"), Bot(botId)), DirectTopic(Bot(botId), Bot("+")), DirectTopic(Bot("+"), Bot(botId))]
  }

  ghost predicate Heard(botId: string, topic: string) {
    exists f :: f in BotFilters(botId) && Matches(f, topic)
  }

  /** An id that can be a level of a filter without being taken for a wildcard; every UUID is one. */
  predicate LevelId(id: string) {
    '/' !in id && id != "+"
  }

  lemma SplitDirect(left: Peer, right: Peer)
    requires NoSlash(left) && NoSlash(right)
    ensures Split('/', DirectTopic(left, right)) == DirectParts(left, right)
  {
    DirectTopicIsJoin(left, right);
    DirectPartsWhole(left, right);
    SplitOfJoin('/', DirectParts(left, right));
  }

  predicate Fits(left: Peer, right: Peer, parts: seq<string>) {
    && |parts| == 6 && parts[0] == "chat" && parts[1] == "dm" && parts[2] == left.kind && parts[4] == right.kind
    && (left.id == "+" || left.id == parts[3]) && (right.id == "+" || right.id == parts[5])
  }

  lemma SixLevels(left: Peer, right: Peer, parts: seq<string>)
    requires left.kind != "+" && right.kind != "+"
    ensures LevelsMatch(DirectParts(left, right), parts) <==> Fits(left, right, parts)
  {
  }

  /** A filter for direct topics: ids may be wildcards, kinds are not. */
  lemma MatchesIff(left: Peer, right: Peer, topic: string)
    requires NoSlash(left) && NoSlash(right) && left.kind != "+" && right.kind != "+"
    ensures Matches(DirectTopic(left, right), topic) <==> Fits(left, right, Split('/', topic))
  {
    SplitDirect(left, right);
    hide *;
    SixLevels(left, right, Split('/', topic));
    MatchesBySplit(DirectTopic(left, right), topic, DirectParts(left, right));
  }

  lemma MatchesBySplit(filter: string, topic: string, levels: seq<string>)
    requires Split('/', filter) == levels
    ensures Matches(filter, topic) <==> LevelsMatch(levels, Split('/', topic))
  {
  }

  /** The topics a bot hears are those with it on the right of a user or bot, or on the left of a bot. */
  predicate HearsParts(botId: string, parts: seq<string>) {
    && |parts| == 6 && parts[0] == "chat" && parts[1] == "dm"
    && ((parts[2] == "user" && Peer(parts[4], parts[5]) == Bot(botId))
        || (parts[4] == "bot" && Peer(parts[2], parts[3]) == Bot(botId))
        || (parts[2] == "bot" && Peer(parts[4], parts[5]) == Bot(botId)))
  }

  lemma HeardIff(botId: string, topic: string)
    requires LevelId(botId)
    ensures Heard(botId, topic) <==> HearsParts(botId, Split('/', topic))
  {
    var f := BotFilters(botId);
    MatchesIff(User("+"), Bot(botId), topic);
    MatchesIff(Bot(botId), Bot("+"), topic);
    MatchesIff(Bot("+"), Bot(botId), topic);
    assert f[0] in f && f[1] in f && f[2] in f;
  }

  /** A bot hears the canonical topic it shares with a peer exactly when the peer is a user or a bot. */
  lemma CanonicalTopicsHeardIff(botId: string, peer: Peer)
    requires LevelId(botId) && NoSlash(peer) && peer.kind != "group"
    ensures Heard(botId, BuildConversation(Bot(botId), peer)) <==> peer.kind == "user" || peer.kind == "bot"
  {
    var left, right := Canonical(Bot(botId), peer).0, Canonical(Bot(botId), peer).1;
    SplitDirect(left, right);
    HeardIff(botId, DirectTopic(left, right));
  }

  /** A topic that names a bot before a user is heard by no bot at all, not even by that one. */
  lemma ReversedTopicIsMissed(botId: string, user: string)
    requires '/' !in botId && '/' !in user
    ensures forall b :: LevelId(b) ==> !Heard(b, DirectTopic(Bot(botId), User(user)))
  {
    SplitDirect(Bot(botId), User(user));
    forall b | LevelId(b) ensures !Heard(b, DirectTopic(Bot(botId), User(user))) {
      HeardIff(b, DirectTopic(Bot(botId), User(user)));
    }
  }

  /** Yet the backend accepts messages between the two on it. */
  lemma ReversedTopicIsAccepted(trim: string -> string, space: char -> bool, botId: string, user: string, n: Incoming)
    requires Text.TrimsBy(trim, space) && !space('c') && !space('/') && '%' !in botId && Plain(space, user)
    requires botId != "" && user != "" && '/' !in botId && '/' !in user
    requires n.conversationId == DirectTopic(Bot(botId), User(user)) && n.body != ""
    ensures Validate(trim, n) == Accepted <==> {n.sender, n.receiver} == {Bot(botId), User(user)}
  {
    DirectTopicIsPlain(space, Bot(botId), User(user));
    PlainTopicStays(trim, space, n.conversationId);
    SplitDirect(Bot(botId), User(user));
    RouteOfDirect(Split('/', n.conversationId), Bot(botId), User(user));
    DirectAcceptedIff(trim, n);
  }

  /** Between two bots the order does not matter: both hear the topic, and nobody else does. */
  lemma BotPairsAreHeardEitherWay(a: string, b: string, listener: string)
    requires '/' !in a && '/' !in b && LevelId(listener)
    ensures Heard(listener, DirectTopic(Bot(a), Bot(b))) <==> listener == a || listener == b
  {
    SplitDirect(Bot(a), Bot(b));
    HeardIff(listener, DirectTopic(Bot(a), Bot(b)));
  }

  // ----- Access.

  datatype Access = Allowed | Denied | BadReference

  /** `CanBotAccessConversation`; `member` says whether a group exists, is active and has the bot. */
  function CanBotAccess<U>(trim: string -> string, parse: string -> Option<U>, member: U -> bool, botId: string,
                           reference: string): Access {
    var route := ParseRoute(trim, reference);
    if route.groupId != "" then
      if parse(route.groupId).None? then BadReference
      else if member(parse(route.groupId).value) then Allowed
      else Denied
    else if !IsDirect(route) then BadReference
    else if HasParticipant(route, Bot(botId)) then Allowed
    else Denied
  }

  lemma SixPartsAreChat(topic: string)
    requires |Split('/', topic)| == 6 && Split('/', topic)[0] == "chat"
    ensures "chat/" <= topic
  {
    var parts := Split('/', topic);
    JoinOfSplit('/', topic);
    JoinBegins(parts);
  }

  lemma {:induction false} JoinBegins(parts: seq<string>)
    requires |parts| > 1 && parts[0] == "chat"
    ensures "chat/" <= Join('/', parts)
  {
    if |parts| == 2 {
      assert Join('/', parts[..1]) == "chat" && "chat" + ['/'] == "chat/";
    } else {
      JoinBegins(parts[..|parts| - 1]);
    }
  }

  /** Of a topic the bot hears, everything but the other peer's id is left alone, as long as that stays one level. */
  lemma HeardLevelsStay(trim: string -> string, space: char -> bool, botId: string, topic: string)
    requires Text.TrimsBy(trim, space) && !space('c') && !space('/') && Plain(space, botId)
    requires Plain(space, "chat") && Plain(space, "dm") && Plain(space, "user") && Plain(space, "bot")
    requires HearsParts(botId, Split('/', topic))
    ensures var levels := Split('/', Normalize(trim, topic));
            |levels| >= 6 && (|levels| == 6 ==> HearsParts(botId, levels))
  {
    var raw, levels := Split('/', topic), Split('/', Normalize(trim, topic));
    SixPartsAreChat(topic);
    Levels.NormalizedLevels(trim, space, topic, 0);
    forall k | 0 <= k < 6 && Plain(space, raw[k]) ensures |levels| == 6 ==> levels[k] == raw[k] {
      Levels.PlainLevelStays(trim, space, topic, k);
    }
    hide Split, Normalize, Plain;
    assert Plain(space, raw[0]) && Plain(space, raw[1]) && Plain(space, raw[2]) && Plain(space, raw[4]);
  }

  lemma HeardRouteIsReadable<U>(trim: string -> string, parse: string -> Option<U>, member: U -> bool,
                                botId: string, topic: string)
    requires botId != ""
    ensures var levels := Split('/', Normalize(trim, topic));
            HearsParts(botId, levels) ==>
              && HasParticipant(ParseRoute(trim, topic), Bot(botId))
              && (CanBotAccess(trim, parse, member, botId, topic) == Allowed <==> levels[3] != "" && levels[5] != "")
    ensures var levels := Split('/', Normalize(trim, topic));
            |levels| > 6 ==> CanBotAccess(trim, parse, member, botId, topic) == BadReference
  {
    hide Split, Normalize;
  }

  /**
    What a bot hears it may read, except where the other peer's id is empty or
    falls into several levels when the topic is normalised.
   */
  lemma HeardTopicsAreReadable<U>(trim: string -> string, space: char -> bool, parse: string -> Option<U>,
                                  member: U -> bool, botId: string, topic: string)
    requires Text.TrimsBy(trim, space) && !space('c') && !space('/') && LevelId(botId) && botId != ""
    requires Plain(space, "chat") && Plain(space, "dm") && Plain(space, "user") && Plain(space, "bot")
    requires Plain(space, botId) && Heard(botId, topic)
    ensures var levels := Split('/', Normalize(trim, topic));
            && |levels| >= 6
            && (|levels| == 6 ==> HasParticipant(ParseRoute(trim, topic), Bot(botId)))
            && (CanBotAccess(trim, parse, member, botId, topic) == Allowed <==>
                  |levels| == 6 && levels[3] != "" && levels[5] != "")
  {
    HeardIff(botId, topic);
    hide *;
    HeardLevelsStay(trim, space, botId, topic);
    HeardRouteIsReadable(trim, parse, member, botId, topic);
  }

  /**
    A bot may read a conversation exactly when accepted messages there come from
    it or go to it, or to a group that it is a member of.
   */
  lemma AccessFollowsAcceptance<U>(trim: string -> string, parse: string -> Option<U>, member: U -> bool,
                                   botId: string, n: Incoming)
    ensures Validate(trim, n) == Accepted ==>
              (CanBotAccess(trim, parse, member, botId, n.conversationId) == Allowed <==>
                if ParseRoute(trim, n.conversationId).groupId == "" then Bot(botId) in {n.sender, n.receiver}
                else n.receiver.kind == "group" && parse(n.receiver.id).Some? && member(parse(n.receiver.id).value))
  {
  }

  /**
    Asked for the topic of a group a bot gets in exactly when the id parses to a
    group it is a member of; a reference whose id does not parse, or is missing, is
    a bad one; anything else is denied.
   */
  lemma GroupAccessIff<U>(trim: string -> string, space: char -> bool, parse: string -> Option<U>, member: U -> bool,
                          botId: string, id: string)
    requires Text.TrimsBy(trim, space) && !space('c') && !space('/')
    requires '/' !in id && Fixed(trim, GroupTopic(id))
    ensures var answer := CanBotAccess(trim, parse, member, botId, GroupTopic(id));
            && (answer == Allowed <==> id != "" && parse(id).Some? && member(parse(id).value))
            && (answer == BadReference <==> id == "" || parse(id).None?)
            && (answer == Denied <==> id != "" && parse(id).Some? && !member(parse(id).value))
  {
    ParseOfGroupIff(trim, space, id);
    hide ParseRoute, Fixed, Text.TrimsBy;
  }

  /** On the topic of two peers, neither of them a group, exactly the two may read. */
  lemma DirectAccessIff<U>(trim: string -> string, space: char -> bool, parse: string -> Option<U>, member: U -> bool,
                           botId: string, a: Peer, b: Peer)
    requires Text.TrimsBy(trim, space) && !space('c') && !space('/') && b.kind != "group"
    requires NoSlash(a) && NoSlash(b) && Fixed(trim, BuildConversation(a, b))
    requires a.kind != "" && a.id != "" && b.kind != "" && b.id != ""
    ensures CanBotAccess(trim, parse, member, botId, BuildConversation(a, b))
            == if a == Bot(botId) || b == Bot(botId) then Allowed else Denied
  {
    ParseOfBuiltIff(trim, space, a, b);
    hide ParseRoute, Fixed, Text.TrimsBy, BuildConversation;
  }

  // ----- The list of topics.

  function Normalizer(trim: string -> string): string -> string {
    (t: string) => Normalize(trim, t)
  }

  /** Normalised, without empty ones and repeats, sorted by bytes. */
  function UniqueSorted(normalize: string -> string, topics: seq<string>): seq<string> {
    SortBy(Text.Less, Mentions.FirstSeen(FlatMaps.Present(normalize, topics)))
  }

  ghost predicate Increasing(list: seq<string>) {
    forall i, j :: 0 <= i < j < |list| ==> Text.Less(list[i], list[j])
  }

  ghost predicate Lists(normalize: string -> string, topics: seq<string>, x: string) {
    x != "" && exists t :: t in topics && normalize(t) == x
  }

  lemma LessIsTotal(list: seq<string>)
    ensures StrictTotal(Text.Less, list)
  {
    forall a, b, c | a in list && b in list && c in list
      ensures Text.Less(a, b) ==> !Text.Less(b, a)
      ensures Text.Less(a, b) && Text.Less(b, c) ==> Text.Less(a, c)
      ensures a != b ==> Text.Less(a, b) || Text.Less(b, a)
    {
      Text.LessTotal(a, b);
      if Text.Less(a, b) {
        Text.LessAsymmetric(a, b);
        if Text.Less(b, c) {
          Text.LessTransitive(a, b, c);
        }
      }
    }
  }

  lemma PresentIff(normalize: string -> string, topics: seq<string>, x: string)
    ensures x in FlatMaps.Present(normalize, topics) <==> Lists(normalize, topics, x)
  {
    FlatMaps.FlatMapMember(FlatMaps.Kept(normalize), topics, x);
    if x in FlatMaps.Present(normalize, topics) {
      var t :| t in topics && x in FlatMaps.Kept(normalize)(t);
    }
    if Lists(normalize, topics, x) {
      var t :| t in topics && normalize(t) == x;
      assert x in FlatMaps.Kept(normalize)(t);
    }
  }

  lemma {:induction false} DistinctMultiset(list: seq<string>, x: string)
    requires Mentions.NoRepeats(list)
    ensures multiset(list)[x] == if x in list then 1 else 0
  {
    if |list| > 0 {
      var init, last := list[..|list| - 1], list[|list| - 1];
      assert list == init + [last];
      DistinctMultiset(init, x);
    }
  }

  lemma SameElementsSameMultiset(a: seq<string>, b: seq<string>)
    requires Mentions.NoRepeats(a) && Mentions.NoRepeats(b) && forall x :: x in a <==> x in b
    ensures multiset(a) == multiset(b)
  {
    forall x ensures multiset(a)[x] == multiset(b)[x] {
      DistinctMultiset(a, x);
      DistinctMultiset(b, x);
    }
  }

  lemma IncreasingHasNoRepeats(list: seq<string>)
    requires Increasing(list)
    ensures Mentions.NoRepeats(list) && Sorted(Text.Less, list)
  {
    forall i, j | 0 <= i < j < |list| ensures list[i] != list[j] && !Text.Less(list[j], list[i]) {
      Text.LessAsymmetric(list[i], list[j]);
    }
  }

  lemma RepeatCountsTwice(list: seq<string>, i: nat, j: nat)
    requires i < j < |list| && list[i] == list[j]
    ensures multiset(list)[list[i]] >= 2
  {
    var x := list[i];
    assert list == list[..i + 1] + list[i + 1..];
    assert list[..i + 1][i] == x && list[i + 1..][j - i - 1] == x;
    assert x in multiset(list[..i + 1]) && x in multiset(list[i + 1..]);
  }

  lemma SortOfDistinct(list: seq<string>)
    requires Mentions.NoRepeats(list)
    ensures Increasing(SortBy(Text.Less, list))
  {
    var r := SortBy(Text.Less, list);
    LessIsTotal(list);
    StrictTotalIsWeak(Text.Less, list);
    SortSorts(Text.Less, list);
    SortKeeps(Text.Less, list);
    forall i, j | 0 <= i < j < |r| ensures Text.Less(r[i], r[j]) {
      DistinctMultiset(list, r[i]);
      if r[i] == r[j] {
        RepeatCountsTwice(r, i, j);
      }
      Text.LessTotal(r[i], r[j]);
    }
  }

  lemma UniqueSortedContents(normalize: string -> string, topics: seq<string>)
    ensures Increasing(UniqueSorted(normalize, topics))
    ensures forall x :: x in UniqueSorted(normalize, topics) <==> Lists(normalize, topics, x)
  {
    var list := Mentions.FirstSeen(FlatMaps.Present(normalize, topics));
    Mentions.FirstSeenKeepsFirsts(FlatMaps.Present(normalize, topics));
    SortOfDistinct(list);
    SortSameElements(Text.Less, list);
    forall x ensures x in UniqueSorted(normalize, topics) <==> Lists(normalize, topics, x) {
      PresentIff(normalize, topics, x);
    }
  }

  /** The list is fixed by its contents: the normalised topics that are not empty, in strictly increasing order. */
  lemma UniqueSortedIff(normalize: string -> string, topics: seq<string>, r: seq<string>)
    ensures r == UniqueSorted(normalize, topics) <==>
            Increasing(r) && forall x :: x in r <==> Lists(normalize, topics, x)
  {
    var s := UniqueSorted(normalize, topics);
    UniqueSortedContents(normalize, topics);
    if Increasing(r) && forall x :: x in r <==> Lists(normalize, topics, x) {
      IncreasingHasNoRepeats(r);
      IncreasingHasNoRepeats(s);
      SameElementsSameMultiset(r, s);
      LessIsTotal(r);
      SortedUnique(Text.Less, r, s);
    }
  }

  method UniqueSortedTopics(normalize: string -> string, topics: seq<string>) returns (r: seq<string>)
    ensures r == UniqueSorted(normalize, topics)
  {
    hide *;
    var seen: set<string> := {};
    var unique: seq<string> := [];
    NoTopics(normalize, topics);
    for i := 0 to |topics|
      invariant unique == Mentions.FirstSeen(FlatMaps.Present(normalize, topics[..i]))
      invariant forall x :: x in seen <==> x in unique
    {
      var topic := normalize(topics[i]);
      NextTopic(normalize, topics[..i], topics[i]);
      assert topics[..i] + [topics[i]] == topics[..i + 1];
      if topic != "" && topic !in seen {
        seen := seen + {topic};
        unique := unique + [topic];
      }
    }
    assert topics[..|topics|] == topics;
    r := SortBy(Text.Less, unique);
    SortOfUnique(normalize, topics);
  }

  lemma NoTopics(normalize: string -> string, topics: seq<string>)
    ensures Mentions.FirstSeen(FlatMaps.Present(normalize, topics[..0])) == []
  {
  }

  lemma SortOfUnique(normalize: string -> string, topics: seq<string>)
    ensures UniqueSorted(normalize, topics)
            == SortBy(Text.Less, Mentions.FirstSeen(FlatMaps.Present(normalize, topics)))
  {
  }

  lemma NextTopic(normalize: string -> string, before: seq<string>, topic: string)
    ensures var unique := Mentions.FirstSeen(FlatMaps.Present(normalize, before));
            Mentions.FirstSeen(FlatMaps.Present(normalize, before + [topic]))
            == if normalize(topic) == "" || normalize(topic) in unique then unique else unique + [normalize(topic)]
  {
    FlatMaps.FlatMapAppend(FlatMaps.Kept(normalize), before, topic);
    var present := FlatMaps.Present(normalize, before);
    Mentions.FirstSeenAppend(present, normalize(topic));
    assert present + [] == present;
  }

  // ----- A bot's list.

  datatype Group = Group(id: string, active: bool)

  function Direct(trim: string -> string): string -> bool {
    (c: string) => IsDirect(ParseRoute(trim, c))
  }

  function IfNot(direct: string -> bool): string -> seq<string> {
    (c: string) => if direct(c) then [] else [c]
  }

  function IfActive(): Group -> seq<string> {
    (g: Group) => if g.active then [GroupTopic(g.id)] else []
  }

  /** The filters, the conversations that are not direct, and the active groups. */
  function Candidates(direct: string -> bool, botId: string, conversations: seq<string>,
                      groups: seq<Group>): seq<string> {
    BotFilters(botId) + FlatMaps.FlatMap(IfNot(direct), conversations) + FlatMaps.FlatMap(IfActive(), groups)
  }

  function BotTopicList(trim: string -> string, botId: string, conversations: seq<string>,
                        groups: seq<Group>): seq<string> {
    UniqueSorted(Normalizer(trim), Candidates(Direct(trim), botId, conversations, groups))
  }

  method ListBotRealtimeTopics(trim: string -> string, botId: string, conversations: seq<string>, groups: seq<Group>)
    returns (r: seq<string>)
    ensures r == BotTopicList(trim, botId, conversations, groups)
  {
    var topics := AppendIndirect(Direct(trim), BotFilters(botId), conversations);
    topics := AppendActive(topics, groups);
    r := UniqueSortedTopics(Normalizer(trim), topics);
  }

  method AppendIndirect(direct: string -> bool, known: seq<string>, conversations: seq<string>)
    returns (topics: seq<string>)
    ensures topics == known + FlatMaps.FlatMap(IfNot(direct), conversations)
  {
    topics := known;
    for i := 0 to |conversations|
      invariant topics == known + FlatMaps.FlatMap(IfNot(direct), conversations[..i])
    {
      FlatMaps.FlatMapAppend(IfNot(direct), conversations[..i], conversations[i]);
      assert conversations[..i] + [conversations[i]] == conversations[..i + 1];
      if !direct(conversations[i]) {
        topics := topics + [conversations[i]];
      }
    }
    assert conversations[..|conversations|] == conversations;
  }

  method AppendActive(known: seq<string>, groups: seq<Group>) returns (topics: seq<string>)
    ensures topics == known + FlatMaps.FlatMap(IfActive(), groups)
  {
    topics := known;
    for i := 0 to |groups|
      invariant topics == known + FlatMaps.FlatMap(IfActive(), groups[..i])
    {
      FlatMaps.FlatMapAppend(IfActive(), groups[..i], groups[i]);
      assert groups[..i] + [groups[i]] == groups[..i + 1];
      if groups[i].active {
        topics := topics + [GroupTopic(groups[i].id)];
      }
    }
    assert groups[..|groups|] == groups;
  }

  /** Some topic of the list normalises to `x`. */
  ghost predicate Gives(normalize: string -> string, topics: seq<string>, x: string) {
    exists t :: t in topics && normalize(t) == x
  }

  lemma GivesParts(normalize: string -> string, a: seq<string>, b: seq<string>, c: seq<string>, x: string)
    ensures Gives(normalize, a + b + c, x) <==>
            Gives(normalize, a, x) || Gives(normalize, b, x) || Gives(normalize, c, x)
  {
    assert forall t :: t in a + b + c <==> t in a || t in b || t in c;
  }

  lemma IndirectGives(normalize: string -> string, direct: string -> bool, conversations: seq<string>, x: string)
    ensures Gives(normalize, FlatMaps.FlatMap(IfNot(direct), conversations), x) <==>
            exists c :: c in conversations && !direct(c) && normalize(c) == x
  {
    forall t ensures t in FlatMaps.FlatMap(IfNot(direct), conversations) <==> t in conversations && !direct(t) {
      FlatMaps.FlatMapMember(IfNot(direct), conversations, t);
      assert t in conversations && !direct(t) ==> t in IfNot(direct)(t);
    }
  }

  lemma ActiveGives(normalize: string -> string, groups: seq<Group>, x: string)
    ensures Gives(normalize, FlatMaps.FlatMap(IfActive(), groups), x) <==>
            exists g :: g in groups && g.active && normalize(GroupTopic(g.id)) == x
  {
    var topics := FlatMaps.FlatMap(IfActive(), groups);
    if g :| g in groups && g.active && normalize(GroupTopic(g.id)) == x {
      FlatMaps.FlatMapMember(IfActive(), groups, GroupTopic(g.id));
      assert GroupTopic(g.id) in IfActive()(g);
    }
    if Gives(normalize, topics, x) {
      var t :| t in topics && normalize(t) == x;
      FlatMaps.FlatMapMember(IfActive(), groups, t);
    }
  }

  lemma ListIs(trim: string -> string, botId: string, conversations: seq<string>, groups: seq<Group>, x: string)
    ensures x in BotTopicList(trim, botId, conversations, groups) <==>
            x != "" && Gives(Normalizer(trim), BotFilters(botId)
                                               + FlatMaps.FlatMap(IfNot(Direct(trim)), conversations)
                                               + FlatMaps.FlatMap(IfActive(), groups), x)
  {
    UniqueSortedContents(Normalizer(trim), Candidates(Direct(trim), botId, conversations, groups));
    hide BotFilters, FlatMaps.FlatMap, UniqueSorted;
  }

  lemma AppliedIs(trim: string -> string, x: string)
    ensures Normalizer(trim)(x) == Normalize(trim, x) && Direct(trim)(x) == IsDirect(ParseRoute(trim, x))
  {
  }

  /** A bot's list holds, normalised, its filters, its conversations with no direct route, and its active groups. */
  lemma ListHoldsIff(trim: string -> string, botId: string, conversations: seq<string>, groups: seq<Group>, x: string)
    ensures x in BotTopicList(trim, botId, conversations, groups) <==>
            && x != ""
            && (|| (exists f :: f in BotFilters(botId) && Normalize(trim, f) == x)
                || (exists c :: c in conversations && !IsDirect(ParseRoute(trim, c)) && Normalize(trim, c) == x)
                || (exists g :: g in groups && g.active && Normalize(trim, GroupTopic(g.id)) == x))
  {
    hide *;
    forall t: string
      ensures Normalizer(trim)(t) == Normalize(trim, t) && Direct(trim)(t) == IsDirect(ParseRoute(trim, t))
    {
      AppliedIs(trim, t);
    }
    ListIs(trim, botId, conversations, groups, x);
    GivesParts(Normalizer(trim), BotFilters(botId), FlatMaps.FlatMap(IfNot(Direct(trim)), conversations),
               FlatMaps.FlatMap(IfActive(), groups), x);
    GivesOfFilters(Normalizer(trim), BotFilters(botId), x);
    IndirectGives(Normalizer(trim), Direct(trim), conversations, x);
    ActiveGives(Normalizer(trim), groups, x);
  }

  lemma GivesOfFilters(normalize: string -> string, filters: seq<string>, x: string)
    ensures Gives(normalize, filters, x) <==> exists f :: f in filters && normalize(f) == x
  {
  }

  lemma FilterStays(trim: string -> string, space: char -> bool, botId: string, f: string)
    requires Text.TrimsBy(trim, space) && !space('c') && !space('/') && !space('+') && Plain(space, botId)
    requires f in BotFilters(botId)
    ensures Normalizer(trim)(f) == f && f != ""
  {
    assert Plain(space, "+");
    DirectTopicIsPlain(space, User("+"), Bot(botId));
    DirectTopicIsPlain(space, Bot(botId), Bot("+"));
    DirectTopicIsPlain(space, Bot("+"), Bot(botId));
    PlainTopicStays(trim, space, f);
  }

  lemma FilterIsListed(normalize: string -> string, direct: string -> bool, botId: string, conversations: seq<string>,
                       groups: seq<Group>, f: string)
    requires f in BotFilters(botId) && normalize(f) == f && f != ""
    ensures f in UniqueSorted(normalize, Candidates(direct, botId, conversations, groups))
  {
    UniqueSortedContents(normalize, Candidates(direct, botId, conversations, groups));
    assert f in Candidates(direct, botId, conversations, groups);
  }

  lemma ListedFilter(trim: string -> string, space: char -> bool, botId: string, conversations: seq<string>,
                     groups: seq<Group>, f: string)
    requires Text.TrimsBy(trim, space) && !space('c') && !space('/') && !space('+') && Plain(space, botId)
    requires f in BotFilters(botId)
    ensures f in BotTopicList(trim, botId, conversations, groups)
  {
    FilterStays(trim, space, botId, f);
    FilterIsListed(Normalizer(trim), Direct(trim), botId, conversations, groups, f);
  }

  /** Whatever else a bot's list holds, it covers every canonical topic the bot shares with a user or a bot. */
  lemma ListCovers(trim: string -> string, space: char -> bool, botId: string, conversations: seq<string>,
                   groups: seq<Group>, peer: Peer)
    requires Text.TrimsBy(trim, space) && !space('c') && !space('/') && !space('+') && Plain(space, botId)
    requires LevelId(botId) && NoSlash(peer) && (peer.kind == "user" || peer.kind == "bot")
    ensures exists f :: f in BotTopicList(trim, botId, conversations, groups)
                        && Matches(f, BuildConversation(Bot(botId), peer))
  {
    CanonicalTopicsHeardIff(botId, peer);
    var f :| f in BotFilters(botId) && Matches(f, BuildConversation(Bot(botId), peer));
    ListedFilter(trim, space, botId, conversations, groups, f);
  }
}
