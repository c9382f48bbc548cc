/**
  Conversation topics: splitting and printing them, normalising a reference to a
  conversation, and the canonical order of the two peers of a direct one
  (backend/internal/service/message_service.go:240-267, 593-687, 751-762).
 */
module Topics {
  import opened MessageLog
  import Text

  // ----- Splitting and joining.

  /** The pieces between separators; always at least one. */
  function Split(sep: char, s: string): (parts: seq<string>)
    ensures |parts| > 0
  {
    if s == "" then [""]
    else
      var init, c := Split(sep, s[..|s| - 1]), s[|s| - 1];
      if c == sep then init + [""] else init[|init| - 1 := init[|init| - 1] + [c]]
  }

  function Join(sep: char, parts: seq<string>): string
    requires |parts| > 0
  {
    if |parts| == 1 then parts[0] else Join(sep, parts[..|parts| - 1]) + [sep] + parts[|parts| - 1]
  }

  lemma JoinExtended(sep: char, parts: seq<string>, c: char)
    requires |parts| > 0
    ensures Join(sep, parts[|parts| - 1 := parts[|parts| - 1] + [c]]) == Join(sep, parts) + [c]
  {
  }

  lemma {:induction false} JoinOfSplit(sep: char, s: string)
    ensures Join(sep, Split(sep, s)) == s
  {
    if s != "" {
      var init, c := Split(sep, s[..|s| - 1]), s[|s| - 1];
      JoinOfSplit(sep, s[..|s| - 1]);
      JoinExtended(sep, init, c);
      assert (init + [""])[..|init|] == init;
      assert s == s[..|s| - 1] + [c];
    }
  }

  lemma {:induction false} SplitLeavesNoSeparator(sep: char, s: string, k: nat)
    requires k < |Split(sep, s)|
    ensures sep !in Split(sep, s)[k]
  {
    if s != "" {
      var init := Split(sep, s[..|s| - 1]);
      if k < |init| {
        SplitLeavesNoSeparator(sep, s[..|s| - 1], k);
      }
    }
  }

  lemma {:induction false} SplitExtended(sep: char, s: string, t: string)
    requires sep !in t
    ensures var parts := Split(sep, s); Split(sep, s + t) == parts[|parts| - 1 := parts[|parts| - 1] + t]
  {
    var parts := Split(sep, s);
    if t == "" {
      assert s + t == s && parts[|parts| - 1] + t == parts[|parts| - 1];
    } else {
      var shorter, c := t[..|t| - 1], t[|t| - 1];
      SplitExtended(sep, s, shorter);
      assert (s + t)[..|s + t| - 1] == s + shorter;
      assert parts[|parts| - 1] + t == parts[|parts| - 1] + shorter + [c];
    }
  }

  lemma SplitPlain(sep: char, t: string)
    requires sep !in t
    ensures Split(sep, t) == [t]
  {
    SplitExtended(sep, "", t);
    assert "" + t == t;
  }

  lemma SplitStep(sep: char, s: string, c: char)
    ensures var parts := Split(sep, s);
            Split(sep, s + [c]) == if c == sep then parts + [""] else parts[|parts| - 1 := parts[|parts| - 1] + [c]]
  {
  }

  lemma SplitPiece(sep: char, s: string, t: string)
    requires sep !in t
    ensures Split(sep, s + [sep] + t) == Split(sep, s) + [t]
  {
    SplitStep(sep, s, sep);
    SplitExtended(sep, s + [sep], t);
    assert "" + t == t;
  }

  lemma {:induction false} SplitOfJoin(sep: char, parts: seq<string>)
    requires |parts| > 0 && forall k :: 0 <= k < |parts| ==> sep !in parts[k]
    ensures Split(sep, Join(sep, parts)) == parts
  {
    if |parts| == 1 {
      SplitPlain(sep, parts[0]);
      assert parts == [parts[0]];
    } else {
      var init, last := parts[..|parts| - 1], parts[|parts| - 1];
      SplitOfJoin(sep, init);
      SplitPiece(sep, Join(sep, init), last);
      assert parts == init + [last];
    }
  }

  /** Joining gives back exactly the lists whose pieces hold no separator. */
  lemma SplitOfJoinIff(sep: char, parts: seq<string>)
    requires |parts| > 0
    ensures Split(sep, Join(sep, parts)) == parts <==> forall k :: 0 <= k < |parts| ==> sep !in parts[k]
  {
    if Split(sep, Join(sep, parts)) == parts {
      forall k | 0 <= k < |parts| ensures sep !in parts[k] {
        SplitLeavesNoSeparator(sep, Join(sep, parts), k);
      }
    } else if forall k :: 0 <= k < |parts| ==> sep !in parts[k] {
      SplitOfJoin(sep, parts);
    }
  }

  /** The loop of `splitMessageTopic` (and of `splitTopic` in message_response.go). */
  method SplitTopic(topic: string) returns (parts: seq<string>)
    ensures parts == Split('/', topic)
  {
    parts := [];
    var start := 0;
    assert topic[..0] == "";
    for i := 0 to |topic|
      invariant start <= i
      invariant parts + [topic[start..i]] == Split('/', topic[..i])
    {
      SplitStep('/', topic[..i], topic[i]);
      assert topic[..i] + [topic[i]] == topic[..i + 1];
      ghost var so := parts + [topic[start..i]];
      if topic[i] == '/' {
        parts := parts + [topic[start..i]];
        start := i + 1;
        assert topic[start..i + 1] == "";
      } else {
        assert topic[start..i] + [topic[i]] == topic[start..i + 1];
        assert so[|so| - 1 := topic[start..i + 1]] == parts + [topic[start..i + 1]];
      }
    }
    assert topic[..|topic|] == topic && topic[start..|topic|] == topic[start..];
    parts := parts + [topic[start..]];
  }

  // ----- Percent-decoding (section 2.1 of RFC 3986), byte by byte.

  function HexValue(c: char): Option<nat> {
    if '0' <= c <= '9' then Some((c - '0') as int)
    else if 'a' <= c <= 'f' then Some((c - 'a') as int + 10)
    else if 'A' <= c <= 'F' then Some((c - 'A') as int + 10)
    else None
  }

  /** `url.PathUnescape`: nothing when a percent sign is not followed by two hexadecimal digits. */
  function PathUnescape(s: string): (r: Option<string>)
    ensures r.Some? ==> |r.value| <= |s|
    ensures r.Some? && '%' in s ==> |r.value| < |s|
    ensures r.Some? && s != "" ==> r.value != ""
  {
    if s == "" then Some("")
    else if s[0] != '%' then
      match PathUnescape(s[1..])
      case None => None
      case Some(t) => Some([s[0]] + t)
    else if |s| < 3 || HexValue(s[1]).None? || HexValue(s[2]).None? then None
    else
      match PathUnescape(s[3..])
      case None => None
      case Some(t) => Some([(16 * HexValue(s[1]).value + HexValue(s[2]).value) as char] + t)
  }

  lemma {:induction false} UnescapePlain(s: string)
    requires '%' !in s
    ensures PathUnescape(s) == Some(s)
  {
    if s != "" {
      assert s[0] in s;
      UnescapePlain(s[1..]);
      assert s == [s[0]] + s[1..];
    }
  }

  function HexDigit(n: nat, lower: bool): char
    requires n < 16
  {
    if n < 10 then '0' + n as char else if lower then 'a' + (n - 10) as char else 'A' + (n - 10) as char
  }

  predicate IsByte(c: char) { c < '\U{100}' }

  function EscapedByte(c: char, lower: bool): string
    requires IsByte(c)
  {
    ['%', HexDigit(c as int / 16, lower), HexDigit(c as int % 16, lower)]
  }

  /** Every byte as a percent sign and two hexadecimal digits, in lower or upper case. */
  function Escaped(s: string, lower: bool): string
    requires forall c :: c in s ==> IsByte(c)
  {
    if s == "" then ""
    else
      assert s[0] in s && forall c :: c in s[1..] ==> c in s;
      EscapedByte(s[0], lower) + Escaped(s[1..], lower)
  }

  lemma HexDigitValue(n: nat, lower: bool)
    requires n < 16
    ensures HexValue(HexDigit(n, lower)) == Some(n)
  {
  }

  lemma UnescapeByte(c: char, lower: bool, rest: string)
    requires IsByte(c)
    ensures PathUnescape(EscapedByte(c, lower) + rest)
            == match PathUnescape(rest) { case None => None case Some(t) => Some([c] + t) }
  {
    var high, low := c as int / 16, c as int % 16;
    HexDigitValue(high, lower);
    HexDigitValue(low, lower);
    hide HexDigit, HexValue;
    assert (EscapedByte(c, lower) + rest)[3..] == rest;
    assert 16 * high + low == c as int;
  }

  /** Decoding undoes escaping, in either case of the digits. */
  lemma {:induction false} UnescapeEscapes(s: string, lower: bool)
    requires forall c :: c in s ==> IsByte(c)
    ensures PathUnescape(Escaped(s, lower)) == Some(s)
  {
    if s != "" {
      assert s[0] in s && forall c :: c in s[1..] ==> c in s;
      UnescapeEscapes(s[1..], lower);
      hide PathUnescape;
      UnescapeByte(s[0], lower, Escaped(s[1..], lower));
      assert s == [s[0]] + s[1..];
    }
  }

  // ----- The two peers of a direct conversation.

  datatype Peer = Peer(kind: string, id: string)

  function DirectPeerRank(kind: string): nat {
    if kind == "user" then 0
    else if kind == "bot" then 1
    else if kind == "channel" then 2
    else if kind == "system" then 3
    else 4
  }

  /** The lower rank stands left; among equal ranks the lower id, by bytes. */
  function Canonical(left: Peer, right: Peer): (Peer, Peer) {
    var leftRank, rightRank := DirectPeerRank(left.kind), DirectPeerRank(right.kind);
    if leftRank != rightRank then
      if leftRank < rightRank then (left, right) else (right, left)
    else if !Text.Less(right.id, left.id) then (left, right)
    else (right, left)
  }

  /** Kinds stand in this order, and all others behind them, whatever the ids. */
  const KINDS := ["user", "bot", "channel", "system"]

  lemma KindsInOrder(i: nat, kind: string, x: string, y: string)
    requires i < |KINDS| && kind !in KINDS[..i + 1]
    ensures Canonical(Peer(KINDS[i], x), Peer(kind, y)) == (Peer(KINDS[i], x), Peer(kind, y))
    ensures Canonical(Peer(kind, y), Peer(KINDS[i], x)) == (Peer(KINDS[i], x), Peer(kind, y))
  {
    RanksAreKinds(kind);
    forall k | 0 <= k <= i ensures KINDS[k] in KINDS[..i + 1] {
      assert KINDS[..i + 1][k] == KINDS[k];
    }
  }

  lemma RanksAreKinds(kind: string)
    ensures DirectPeerRank(kind) < 4 ==> kind == KINDS[DirectPeerRank(kind)]
    ensures forall i :: 0 <= i < 4 ==> DirectPeerRank(KINDS[i]) == i
  {
    assert KINDS[0] == "user" && KINDS[1] == "bot" && KINDS[2] == "channel" && KINDS[3] == "system";
    assert "user"[0] != "bot"[0] && "user"[0] != "channel"[0] && "user"[0] != "system"[0];
    assert "bot"[0] != "channel"[0] && "bot"[0] != "system"[0] && "channel"[0] != "system"[0];
  }

  /** Among peers of one kind the lower id stands left. */
  lemma IdsInOrder(kind: string, x: string, y: string)
    requires Text.Less(x, y)
    ensures Canonical(Peer(kind, x), Peer(kind, y)) == (Peer(kind, x), Peer(kind, y))
    ensures Canonical(Peer(kind, y), Peer(kind, x)) == (Peer(kind, x), Peer(kind, y))
  {
    Text.LessAsymmetric(x, y);
  }

  lemma LessIrreflexive(a: string)
    ensures !Text.Less(a, a)
  {
  }

  /** Both peers are kept, in an order that a second time does not change. */
  lemma CanonicalKeepsPeers(a: Peer, b: Peer)
    ensures var (left, right) := Canonical(a, b);
            && multiset{left, right} == multiset{a, b}
            && Canonical(left, right) == (left, right)
  {
    if Text.Less(b.id, a.id) {
      Text.LessAsymmetric(b.id, a.id);
    }
  }

  /**
    Who is named first does not matter, except for two peers with one id and
    different kinds of the same rank, which only unranked kinds can be.
   */
  lemma SwapInvariantIff(a: Peer, b: Peer)
    ensures Canonical(a, b) == Canonical(b, a) <==>
            DirectPeerRank(a.kind) != DirectPeerRank(b.kind) || a.id != b.id || a.kind == b.kind
  {
    Text.LessTotal(a.id, b.id);
    LessIrreflexive(a.id);
    if Text.Less(a.id, b.id) {
      Text.LessAsymmetric(a.id, b.id);
    }
    if Text.Less(b.id, a.id) {
      Text.LessAsymmetric(b.id, a.id);
    }
  }

  // ----- Printing.

  function DirectTopic(left: Peer, right: Peer): string {
    "chat/dm/" + left.kind + "/" + left.id + "/" + right.kind + "/" + right.id
  }

  function GroupTopic(id: string): string {
    "chat/group/" + id
  }

  /** `buildRealtimeConversationID`. */
  function BuildConversation(sender: Peer, receiver: Peer): string {
    if receiver.kind == "group" then GroupTopic(receiver.id)
    else var (left, right) := Canonical(sender, receiver); DirectTopic(left, right)
  }

  function DirectParts(left: Peer, right: Peer): seq<string> {
    ["chat", "dm", left.kind, left.id, right.kind, right.id]
  }

  lemma JoinOne(sep: char, parts: seq<string>, more: string)
    requires |parts| > 0
    ensures Join(sep, parts + [more]) == Join(sep, parts) + [sep] + more
  {
  }

  lemma DirectTopicIsJoin(left: Peer, right: Peer)
    ensures DirectTopic(left, right) == Join('/', DirectParts(left, right))
  {
    var p := DirectParts(left, right);
    JoinOne('/', p[..1], p[1]);
    JoinOne('/', p[..2], p[2]);
    JoinOne('/', p[..3], p[3]);
    JoinOne('/', p[..4], p[4]);
    JoinOne('/', p[..5], p[5]);
    assert p[..2] == p[..1] + [p[1]] && p[..3] == p[..2] + [p[2]] && p[..4] == p[..3] + [p[3]];
    assert p[..5] == p[..4] + [p[4]] && p == p[..5] + [p[5]] && p[..1] == ["chat"];
    assert "chat" + ['/'] + "dm" + ['/'] == "chat/dm/";
  }

  lemma GroupTopicIsJoin(id: string)
    ensures GroupTopic(id) == Join('/', ["chat", "group", id])
  {
    JoinOne('/', ["chat"], "group");
    JoinOne('/', ["chat", "group"], id);
    assert ["chat"] + ["group"] == ["chat", "group"] && ["chat", "group"] + [id] == ["chat", "group", id];
    assert "chat" + ['/'] + "group" + ['/'] == "chat/group/";
  }

  // ----- Normalising a reference.

  function Decoded(s: string): string {
    match PathUnescape(s)
    case None => s
    case Some(d) => if d == "" then s else d
  }

  /** The reference without one leading slash, outer white space and one layer of escapes. */
  function Stripped(trim: string -> string, raw: string): string {
    Decoded(trim(Text.TrimPrefix(raw, '/')))
  }

  /** Three parts with colons, the first of them a known kind. */
  predicate OldForm(s: string) {
    var parts := Split(':', s);
    |parts| == 3 && (parts[0] == "bot" || parts[0] == "group" || parts[0] == "user")
  }

  function FromOldForm(s: string): string
    requires OldForm(s)
  {
    var parts := Split(':', s);
    if parts[0] == "group" then GroupTopic(parts[2])
    else BuildConversation(Peer(parts[0], parts[1]), Peer(parts[0], parts[2]))
  }

  /** `NormalizeConversationReference`. */
  function Normalize(trim: string -> string, raw: string): string {
    var reference := Stripped(trim, raw);
    if "chat/" <= reference || !OldForm(reference) then reference else FromOldForm(reference)
  }

  lemma {:induction false} UnescapeKeepsPlainPrefix(p: string, s: string)
    requires p <= s && '%' !in p
    ensures PathUnescape(s).Some? ==> p <= PathUnescape(s).value
  {
    if p != "" {
      assert s[0] == p[0] && p[0] in p;
      UnescapeKeepsPlainPrefix(p[1..], s[1..]);
    }
  }

  /** Well-formed escapes are all that decoding changes. */
  predicate NoEscape(s: string) {
    '%' !in s || PathUnescape(s).None?
  }

  lemma DecodedFixedIff(s: string)
    ensures Decoded(s) == s <==> NoEscape(s)
    ensures |Decoded(s)| <= |s| && (|Decoded(s)| == |s| ==> Decoded(s) == s)
  {
    if '%' !in s {
      UnescapePlain(s);
    }
  }

  lemma OldFormGivesTopic(s: string)
    requires OldForm(s)
    ensures "chat/" <= FromOldForm(s)
  {
    var t := FromOldForm(s);
    assert "chat/group/"[..5] == "chat/" && "chat/dm/"[..5] == "chat/";
    assert t[..5] == "chat/";
  }

  lemma ChatStaysChat(trim: string -> string, space: char -> bool, s: string)
    requires Text.TrimsBy(trim, space) && !space('c') && !space('/') && "chat/" <= s
    ensures "chat/" <= trim(s) && "chat/" <= Stripped(trim, s) == Decoded(trim(s)) == Normalize(trim, s)
  {
    assert Text.Trimmed(space, "chat/") && Text.TrimPrefix(s, '/') == s;
    UnescapeKeepsPlainPrefix("chat/", trim(s));
  }

  lemma StrippingShortens(trim: string -> string, s: string)
    requires Text.Trims(trim)
    ensures |Stripped(trim, s)| <= |s|
    ensures Stripped(trim, s) == s <==> s == "" || (s[0] != '/' && trim(s) == s && NoEscape(s))
  {
    DecodedFixedIff(trim(Text.TrimPrefix(s, '/')));
    DecodedFixedIff(s);
  }

  /** What normalising leaves alone. */
  predicate Fixed(trim: string -> string, s: string) {
    s == "" || (s[0] != '/' && trim(s) == s && NoEscape(s) && ("chat/" <= s || !OldForm(s)))
  }

  /** Normalising leaves a reference alone exactly when there is no slash, no white space and no escape to take off. */
  lemma NormalizeFixedIff(trim: string -> string, space: char -> bool, s: string)
    requires Text.TrimsBy(trim, space) && !space('c') && !space('/')
    ensures Normalize(trim, s) == s <==> Fixed(trim, s)
  {
    StrippingShortens(trim, s);
    var reference := Stripped(trim, s);
    if "chat/" <= s {
      ChatStaysChat(trim, space, s);
    } else if OldForm(reference) {
      OldFormGivesTopic(reference);
    }
    assert "" != "chat/" && |Split(':', "")| == 1;
  }

  /**
    Normalising is idempotent on a reference exactly when what is left of it
    after one round has nothing more to take off. (A reference in the older form
    is another case, the next lemma.)
   */
  lemma NormalizeIdempotentIff(trim: string -> string, space: char -> bool, s: string)
    requires Text.TrimsBy(trim, space) && !space('c') && !space('/')
    requires "chat/" <= Stripped(trim, s) || !OldForm(Stripped(trim, s))
    ensures var d := Stripped(trim, s);
            Normalize(trim, Normalize(trim, s)) == Normalize(trim, s) <==>
            d == "" || (d[0] != '/' && trim(d) == d && NoEscape(d))
  {
    NormalizeFixedIff(trim, space, Stripped(trim, s));
  }

  lemma OldFormIdempotentIff(trim: string -> string, space: char -> bool, s: string)
    requires Text.TrimsBy(trim, space) && !space('c') && !space('/')
    requires OldForm(Stripped(trim, s)) && !("chat/" <= Stripped(trim, s))
    ensures var topic := FromOldForm(Stripped(trim, s));
            Normalize(trim, Normalize(trim, s)) == Normalize(trim, s) <==> trim(topic) == topic && NoEscape(topic)
  {
    OldFormGivesTopic(Stripped(trim, s));
    NormalizeFixedIff(trim, space, FromOldForm(Stripped(trim, s)));
  }

  lemma PrefixJoins(p: string, t: string)
    requires p != ""
    ensures [p[0]] + (p[1..] + t) == p + t
  {
  }

  lemma {:induction false} UnescapeAfter(p: string, s: string)
    requires '%' !in p
    ensures PathUnescape(p + s) == match PathUnescape(s) { case None => None case Some(t) => Some(p + t) }
  {
    if p == "" {
      assert p + s == s;
      assert PathUnescape(s).Some? ==> p + PathUnescape(s).value == PathUnescape(s).value;
    } else {
      assert p[0] in p && forall c :: c in p[1..] ==> c in p;
      var whole := p + s;
      UnescapeAfter(p[1..], s);
      assert whole[1..] == p[1..] + s && whole[0] == p[0];
      if PathUnescape(s).Some? {
        PrefixJoins(p, PathUnescape(s).value);
      }
    }
  }

  lemma EscapedPercent(w: string)
    requires '%' !in w
    ensures PathUnescape("%25" + w) == Some("%" + w)
  {
    UnescapePlain(w);
    assert ("%25" + w)[3..] == w;
    assert HexValue('2') == Some(2) && HexValue('5') == Some(5) && 37 as char == '%';
  }

  lemma NormalizeEscape(trim: string -> string, w: string)
    requires '%' !in w && trim("chat/%25" + w) == "chat/%25" + w
    ensures Normalize(trim, "chat/%25" + w) == "chat/%" + w
  {
    EscapedPercent(w);
    UnescapeAfter("chat/", "%25" + w);
    assert "chat/" + ("%25" + w) == "chat/%25" + w && "chat/" + ("%" + w) == "chat/%" + w;
    assert (("chat/%" + w)[..5]) == "chat/";
  }

  /** Normalising is not idempotent: each round takes one layer of escapes off. */
  lemma NormalizeTwice(trim: string -> string, w: string)
    requires '%' !in w && trim("chat/%2525" + w) == "chat/%2525" + w && trim("chat/%25" + w) == "chat/%25" + w
    ensures Normalize(trim, "chat/%2525" + w) == "chat/%25" + w
    ensures Normalize(trim, Normalize(trim, "chat/%2525" + w)) == "chat/%" + w
  {
    assert "chat/%25" + ("25" + w) == "chat/%2525" + w && "chat/%" + ("25" + w) == "chat/%25" + w;
    NormalizeEscape(trim, "25" + w);
    NormalizeEscape(trim, w);
  }

  // ----- References in the older form with colons.

  function Legacy(kind: string, x: string, y: string): string {
    kind + ":" + x + ":" + y
  }

  lemma SplitLegacy(kind: string, x: string, y: string)
    requires ':' !in kind && ':' !in x && ':' !in y
    ensures Split(':', Legacy(kind, x, y)) == [kind, x, y]
  {
    SplitPlain(':', kind);
    SplitPiece(':', kind, x);
    SplitPiece(':', kind + [':'] + x, y);
    assert kind + [':'] + x + [':'] + y == Legacy(kind, x, y);
  }

  lemma LegacyStays(trim: string -> string, space: char -> bool, kind: string, x: string, y: string)
    requires Text.TrimsBy(trim, space) && !space(':') && Plain(space, y) && '%' !in x && '%' !in kind
    requires kind != "" && kind[0] != '/' && !space(kind[0])
    ensures trim(Text.TrimPrefix(Legacy(kind, x, y), '/')) == Legacy(kind, x, y) == Decoded(Legacy(kind, x, y))
  {
    var s, head := Legacy(kind, x, y), kind + ":" + x + ":";
    assert s == head + y && head[|head| - 1] == ':' && s[0] == kind[0];
    assert Text.Trimmed(space, s) && s <= trim(s);
    assert '%' !in head;
    DecodedFixedIff(s);
  }

  /** A reference `user:x:y` or `bot:x:y` means the direct topic of the two, `group:x:y` the topic of the group `y`. */
  lemma LegacyMeans(trim: string -> string, space: char -> bool, kind: string, x: string, y: string)
    requires Text.TrimsBy(trim, space) && !space(':') && !space('u') && !space('b') && !space('g')
    requires ':' !in x && ':' !in y && '%' !in x && Plain(space, y)
    requires kind == "user" || kind == "bot" || kind == "group"
    ensures Normalize(trim, Legacy(kind, x, y)) ==
            if kind == "group" then GroupTopic(y) else BuildConversation(Peer(kind, x), Peer(kind, y))
  {
    SplitLegacy(kind, x, y);
    LegacyStays(trim, space, kind, x, y);
    assert Legacy(kind, x, y)[0] != "chat/"[0];
    assert OldForm(Legacy(kind, x, y));
  }

  /**
    One round takes off one slash, and before it trims: white space in front of a
    slash keeps the slash.
   */
  lemma OneSlashPerRound(trim: string -> string, space: char -> bool, w: string, raw: string)
    requires Text.TrimsBy(trim, space) && !space('c') && !space('/')
    requires Plain(space, w) && "chat/" <= w
    ensures Normalize(trim, "/" + w) == w && Normalize(trim, "//" + w) == "/" + w
    ensures raw != "" && raw[0] != '/' && trim(raw) == "/" + w ==> Normalize(trim, raw) == "/" + w
  {
    PlainTopicStays(trim, space, w);
    SlashedStays(trim, space, w);
    assert ("/" + w)[1..] == w && ("//" + w)[1..] == "/" + w;
    assert w[0] == "chat/"[0];
    hide OldForm, PathUnescape;
  }

  lemma SlashedStays(trim: string -> string, space: char -> bool, w: string)
    requires Text.TrimsBy(trim, space) && !space('/') && Plain(space, w) && "chat/" <= w
    ensures trim("/" + w) == "/" + w && Decoded("/" + w) == "/" + w && !OldForm("/" + w) && !("chat/" <= "/" + w)
  {
    var s := "/" + w;
    assert s[0] == '/' && s[|s| - 1] == w[|w| - 1] && Text.Trimmed(space, s) && s <= trim(s);
    DecodedFixedIff("/" + w);
    assert ("/" + w)[0] == '/' && "chat/"[0] == 'c';
    FirstPiece(':', "/" + w);
  }

  /** The first piece begins as the whole does, unless that begins with the separator. */
  lemma {:induction false} FirstPiece(sep: char, s: string)
    requires s != "" && s[0] != sep
    ensures Split(sep, s)[0] != "" && Split(sep, s)[0][0] == s[0]
  {
    if |s| == 1 {
      assert s == [s[0]];
      SplitPlain(sep, s);
    } else {
      FirstPiece(sep, s[..|s| - 1]);
    }
  }

  // ----- Parsing.

  datatype Route = Route(left: Peer, right: Peer, groupId: string)

  const NOBODY := Peer("", "")

  function RouteOf(parts: seq<string>): Route {
    if |parts| == 6 && parts[0] == "chat" && parts[1] == "dm" then
      Route(Peer(parts[2], parts[3]), Peer(parts[4], parts[5]), "")
    else if |parts| == 3 && parts[0] == "chat" && parts[1] == "group" then Route(NOBODY, NOBODY, parts[2])
    else NO_ROUTE
  }

  /** `parseMessageRoute`, which normalises what it is given. */
  function ParseRoute(trim: string -> string, topic: string): Route {
    RouteOf(Split('/', Normalize(trim, topic)))
  }

  const NO_ROUTE := Route(NOBODY, NOBODY, "")

  lemma RouteDeterminesParts(p: seq<string>, q: seq<string>)
    requires RouteOf(p) == RouteOf(q) != NO_ROUTE
    ensures p == q
  {
  }

  /**
    A route read from the normalised reference is the one read from the reference
    itself exactly where normalising is idempotent.
   */
  lemma ParseOfNormalizedIff(trim: string -> string, s: string)
    requires ParseRoute(trim, s) != NO_ROUTE
    ensures var n := Normalize(trim, s);
            ParseRoute(trim, n) == ParseRoute(trim, s) <==> Normalize(trim, n) == n
  {
    var n := Normalize(trim, s);
    if ParseRoute(trim, n) == ParseRoute(trim, s) {
      RouteDeterminesParts(Split('/', n), Split('/', Normalize(trim, n)));
      JoinOfSplit('/', n);
      JoinOfSplit('/', Normalize(trim, n));
    }
  }

  function DirectRoute(peers: (Peer, Peer)): Route {
    Route(peers.0, peers.1, "")
  }

  /** Neither percent signs nor white space at the ends. */
  predicate Plain(space: char -> bool, s: string) {
    '%' !in s && Text.Trimmed(space, s)
  }

  predicate NoSlash(p: Peer) {
    '/' !in p.kind && '/' !in p.id
  }

  lemma PlainTopicStays(trim: string -> string, space: char -> bool, topic: string)
    requires Text.TrimsBy(trim, space) && !space('c') && !space('/') && "chat/" <= topic && Plain(space, topic)
    ensures Normalize(trim, topic) == topic
  {
    NormalizeFixedIff(trim, space, topic);
    assert topic <= trim(topic);
  }

  lemma DirectTopicIsPlain(space: char -> bool, left: Peer, right: Peer)
    requires !space('c') && !space('/')
    requires '%' !in left.kind && '%' !in left.id && '%' !in right.kind && Plain(space, right.id)
    ensures Plain(space, DirectTopic(left, right)) && "chat/" <= DirectTopic(left, right)
  {
  }

  lemma RouteOfDirect(parts: seq<string>, left: Peer, right: Peer)
    ensures parts == DirectParts(left, right) ==> RouteOf(parts) == Route(left, right, "")
    ensures RouteOf(parts) == Route(left, right, "") && parts != DirectParts(left, right) ==> left == right == NOBODY
  {
  }

  lemma DirectPartsWhole(left: Peer, right: Peer)
    ensures (forall k :: 0 <= k < 6 ==> '/' !in DirectParts(left, right)[k]) <==> NoSlash(left) && NoSlash(right)
  {
    var parts := DirectParts(left, right);
    assert parts[0] == "chat" && parts[1] == "dm";
    assert parts[2] == left.kind && parts[3] == left.id && parts[4] == right.kind && parts[5] == right.id;
  }

  /** The topic of nobody and nobody, whose route is that of no topic at all. */
  lemma EmptyPeersTopic(trim: string -> string, space: char -> bool)
    requires Text.TrimsBy(trim, space) && !space('c') && !space('/')
    ensures Fixed(trim, DirectTopic(NOBODY, NOBODY))
  {
    DirectTopicIsPlain(space, NOBODY, NOBODY);
    PlainTopicStays(trim, space, DirectTopic(NOBODY, NOBODY));
    NormalizeFixedIff(trim, space, DirectTopic(NOBODY, NOBODY));
  }

  /** Reading two peers off a topic that prints them: they are levels of it, and it is what normalising leaves. */
  lemma DirectTopicParsesIff(trim: string -> string, space: char -> bool, left: Peer, right: Peer)
    requires Text.TrimsBy(trim, space) && !space('c') && !space('/')
    ensures ParseRoute(trim, DirectTopic(left, right)) == Route(left, right, "") <==>
            NoSlash(left) && NoSlash(right) && Fixed(trim, DirectTopic(left, right))
  {
    var topic := DirectTopic(left, right);
    var parts := Split('/', Normalize(trim, topic));
    NormalizeFixedIff(trim, space, topic);
    DirectTopicIsJoin(left, right);
    SplitOfJoinIff('/', DirectParts(left, right));
    DirectPartsWhole(left, right);
    RouteOfDirect(parts, left, right);
    if left == right == NOBODY {
      EmptyPeersTopic(trim, space);
    } else if parts == DirectParts(left, right) {
      JoinOfSplit('/', Normalize(trim, topic));
    }
  }

  /**
    A printed direct topic is parsed back to the canonical pair exactly when no
    slash hides in a kind or an id and normalising finds nothing in it to take off,
    as it does not where kinds and ids have no percent sign and ids no outer white space.
   */
  lemma ParseOfBuiltIff(trim: string -> string, space: char -> bool, a: Peer, b: Peer)
    requires Text.TrimsBy(trim, space) && !space('c') && !space('/') && b.kind != "group"
    ensures ParseRoute(trim, BuildConversation(a, b)) == DirectRoute(Canonical(a, b)) <==>
            NoSlash(a) && NoSlash(b) && Fixed(trim, BuildConversation(a, b))
    ensures '%' !in a.kind && '%' !in b.kind && Plain(space, a.id) && Plain(space, b.id) ==>
              Fixed(trim, BuildConversation(a, b))
  {
    var left, right := Canonical(a, b).0, Canonical(a, b).1;
    assert BuildConversation(a, b) == DirectTopic(left, right);
    assert NoSlash(left) && NoSlash(right) <==> NoSlash(a) && NoSlash(b);
    if '%' !in a.kind && '%' !in b.kind && Plain(space, a.id) && Plain(space, b.id) {
      DirectTopicIsPlain(space, left, right);
      PlainTopicStays(trim, space, DirectTopic(left, right));
      NormalizeFixedIff(trim, space, DirectTopic(left, right));
    }
    hide *;
    DirectTopicParsesIff(trim, space, left, right);
    RouteOfPair(left, right);
  }

  lemma RouteOfPair(left: Peer, right: Peer)
    ensures DirectRoute((left, right)) == Route(left, right, "")
  {
  }

  lemma GroupTopicIsPlain(space: char -> bool, id: string)
    requires !space('c') && !space('/') && Plain(space, id)
    ensures Plain(space, GroupTopic(id)) && "chat/" <= GroupTopic(id)
  {
  }

  lemma RouteOfGroup(parts: seq<string>, id: string)
    ensures parts == ["chat", "group", id] ==> RouteOf(parts) == Route(NOBODY, NOBODY, id)
    ensures RouteOf(parts) == Route(NOBODY, NOBODY, id) && parts != ["chat", "group", id] ==> id == ""
  {
  }

  lemma ParseOfGroupIff(trim: string -> string, space: char -> bool, id: string)
    requires Text.TrimsBy(trim, space) && !space('c') && !space('/')
    ensures ParseRoute(trim, GroupTopic(id)) == Route(NOBODY, NOBODY, id) <==>
            '/' !in id && Fixed(trim, GroupTopic(id))
    ensures Plain(space, id) ==> Fixed(trim, GroupTopic(id))
  {
    var topic, parts := GroupTopic(id), ["chat", "group", id];
    var levels := Split('/', Normalize(trim, topic));
    NormalizeFixedIff(trim, space, topic);
    if Plain(space, id) {
      GroupTopicIsPlain(space, id);
      PlainTopicStays(trim, space, topic);
    }
    GroupTopicIsJoin(id);
    SplitOfJoinIff('/', parts);
    RouteOfGroup(levels, id);
    assert '/' !in parts[0] && '/' !in parts[1] && parts[2] == id;
    if levels == parts {
      JoinOfSplit('/', Normalize(trim, topic));
    }
  }
}
