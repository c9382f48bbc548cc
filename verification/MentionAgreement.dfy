/**
  The two mention scanners side by side: the backend's
  (backend/internal/service/message_service.go:492-591) and the web client's
  (frontend/src/components/Chat/ChatInput.tsx:537-635). They sort differently,
  measure aliases differently and build their tables differently.
 */
module MentionAgreement {
  import opened MessageLog
  import opened Mentions
  import opened AliasLists
  import opened FlatMaps
  import opened GoMentions
  import opened Sorting
  import opened WebMentions
  import Text

  // ----- Two passes.

  /** `i` lies within a span, behind its at-sign: the scan does not look there. */
  ghost predicate Inside(spans: seq<Span>, i: nat) {
    exists j :: 0 <= j < |spans| && spans[j].start < i < spans[j].end
  }

  /** The two finders say the same wherever the scan looks. */
  ghost predicate SameVisits(f: nat -> Option<Span>, g: nat -> Option<Span>, n: nat, spans: seq<Span>) {
    forall i: nat {:trigger Inside(spans, i)} :: i < n && !Inside(spans, i) ==> f(i) == g(i)
  }

  lemma StartsAreVisited(f: nat -> Option<Span>, n: nat, spans: seq<Span>, j: nat)
    requires Sound(f, n) && Leftmost(f, n, 0, spans) && j < |spans|
    ensures spans[j].start < n && !Inside(spans, spans[j].start)
  {
    assert f(spans[j].start) == Some(spans[j]);
    forall k | 0 <= k < |spans| ensures !(spans[k].start < spans[j].start < spans[k].end) {
      assert f(spans[k].start) == Some(spans[k]);
      assert k < j || k == j || j < k;
    }
  }

  lemma VisitedMentionsAreSpans(f: nat -> Option<Span>, n: nat, spans: seq<Span>, i: nat)
    requires Leftmost(f, n, 0, spans) && i < n && !Inside(spans, i) && f(i).Some?
    ensures exists j :: 0 <= j < |spans| && spans[j].start == i && f(i) == Some(spans[j])
  {
    assert Covered(spans, i);
    var j :| 0 <= j < |spans| && spans[j].start <= i < spans[j].end;
    assert spans[j].start == i;
  }

  lemma SamePassForward(f: nat -> Option<Span>, g: nat -> Option<Span>, n: nat, spans: seq<Span>)
    requires Leftmost(f, n, 0, spans) && Leftmost(g, n, 0, spans)
    ensures SameVisits(f, g, n, spans)
  {
    forall i: nat | i < n && !Inside(spans, i) ensures f(i) == g(i) {
      if f(i).Some? {
        VisitedMentionsAreSpans(f, n, spans, i);
      } else if g(i).Some? {
        VisitedMentionsAreSpans(g, n, spans, i);
      }
    }
  }

  lemma SamePassBackward(f: nat -> Option<Span>, g: nat -> Option<Span>, n: nat, spans: seq<Span>)
    requires Sound(f, n) && Leftmost(f, n, 0, spans) && SameVisits(f, g, n, spans)
    ensures Leftmost(g, n, 0, spans)
  {
    forall j | 0 <= j < |spans| ensures g(spans[j].start) == Some(spans[j]) {
      StartsAreVisited(f, n, spans, j);
    }
    forall i: nat | i < n && g(i).Some? ensures Covered(spans, i) {
      if Inside(spans, i) {
        var j :| 0 <= j < |spans| && spans[j].start < i < spans[j].end;
        assert spans[j].start <= i;
      } else {
        assert f(i).Some?;
      }
    }
  }

  /** Two passes find the same spans exactly when their finders say the same wherever the first one looks. */
  lemma SamePassIff(f: nat -> Option<Span>, g: nat -> Option<Span>, n: nat)
    requires Sound(f, n) && Sound(g, n)
    ensures Pass(f, n, 0) == Pass(g, n, 0) <==> SameVisits(f, g, n, Pass(f, n, 0))
  {
    var spans := Pass(f, n, 0);
    PassIsLeftmost(f, n, 0);
    PassIsLeftmost(g, n, 0);
    if Pass(g, n, 0) == spans {
      SamePassForward(f, g, n, spans);
    }
    if SameVisits(f, g, n, spans) {
      SamePassBackward(f, g, n, spans);
      LeftmostIsPass(g, n, 0, spans);
    }
  }

  lemma {:induction false} SameBest(a: map<string, BotId>, b: map<string, BotId>, left: char -> bool,
                                    right: char -> bool, rest: string, k: nat)
    requires k <= |rest| && forall l: nat :: l <= k ==> (Eligible(a, left, rest, l) <==> Eligible(b, right, rest, l))
    ensures BestUpTo(a, left, rest, k) == BestUpTo(b, right, rest, k)
  {
  }

  // ----- One table, two boundaries.

  /** The span ends with the text, or before a character of the basic plane. */
  predicate EndsInPlane(text: string, s: Span) {
    s.end < |text| ==> text[s.end] < '\U{10000}'
  }

  /** At one place both see the same mention, or none, unless the client takes half a character for the end. */
  lemma UnitMentionIff(table: map<string, BotId>, boundary: char -> bool, text: string, i: nat)
    ensures var go, web := MentionAt(table, boundary, text, i), MentionAt(table, UnitBoundary(boundary), text, i);
            && (go == web <==> go.None? || EndsInPlane(text, go.value))
  {
    if i < |text| && IsAt(text[i]) {
      var rest, unit := text[i + 1..], UnitBoundary(boundary);
      assert forall k: nat :: Eligible(table, unit, rest, k) ==> Eligible(table, boundary, rest, k);
      var go := Best(table, boundary, rest);
      if go.Some? {
        var k := go.value;
        assert k < |rest| ==> rest[k] == text[i + 1 + k];
        assert Eligible(table, unit, rest, k) <==> EndsInPlane(text, MentionAt(table, boundary, text, i).value);
      }
    }
  }

  /**
    With one table, backend and client find the same mentions exactly when each
    the backend finds ends with the text or before a character of the basic plane.
   */
  lemma SameTableScansIff(table: map<string, BotId>, boundary: char -> bool, text: string)
    ensures Scan(table, boundary, text) == Scan(table, UnitBoundary(boundary), text) <==>
            forall s :: s in Scan(table, boundary, text) ==> EndsInPlane(text, s)
  {
    var f, g, n := Finder(table, boundary, text), Finder(table, UnitBoundary(boundary), text), |text|;
    var spans := Pass(f, n, 0);
    FinderIsSound(table, boundary, text);
    FinderIsSound(table, UnitBoundary(boundary), text);
    SamePassIff(f, g, n);
    PassIsLeftmost(f, n, 0);
    forall i: nat ensures f(i) == g(i) <==> f(i).None? || EndsInPlane(text, f(i).value) {
      UnitMentionIff(table, boundary, text, i);
    }
    EndsDecide(f, g, text, spans);
  }

  lemma EndsDecide(f: nat -> Option<Span>, g: nat -> Option<Span>, text: string, spans: seq<Span>)
    requires Sound(f, |text|) && Leftmost(f, |text|, 0, spans)
    requires forall i: nat {:trigger f(i)} :: f(i) == g(i) <==> f(i).None? || EndsInPlane(text, f(i).value)
    ensures SameVisits(f, g, |text|, spans) <==> forall s :: s in spans ==> EndsInPlane(text, s)
  {
    if SameVisits(f, g, |text|, spans) {
      forall s | s in spans ensures EndsInPlane(text, s) {
        var j :| 0 <= j < |spans| && spans[j] == s;
        StartsAreVisited(f, |text|, spans, j);
        assert f(spans[j].start) == Some(s);
      }
    }
    if forall s :: s in spans ==> EndsInPlane(text, s) {
      forall i: nat | i < |text| && !Inside(spans, i) ensures f(i) == g(i) {
        if f(i).Some? {
          VisitedMentionsAreSpans(f, |text|, spans, i);
        }
      }
    }
  }

  /**
    The loops alone: on alias lists with the same entries, each sorted its own
    way, both find the same mentions exactly under that condition.
   */
  lemma ScannersAgreeIff(boundary: char -> bool, text: string, list: seq<Alias>, other: seq<Alias>)
    requires multiset(list) == multiset(other) && Distinct(list)
    ensures var go, web := SortBy(GoBefore, list), SortBy(WebBefore, other);
            && LongestFirst(Text.Utf8Length, go) && LongestFirst(Text.Utf16Length, web)
            && (Scan(FirstWins(go), boundary, text) == Scan(FirstWins(web), UnitBoundary(boundary), text) <==>
                forall s :: s in Scan(FirstWins(go), boundary, text) ==> EndsInPlane(text, s))
  {
    SortedUsable(list);
    WebSort(other);
    SameEntriesSameTable(list, other);
    SameTableScansIff(FirstWins(list), boundary, text);
    hide *;
  }

  // ----- Tables from lists in which no alias repeats.

  ghost predicate Distinct(list: seq<Alias>) {
    forall i, j :: 0 <= i < j < |list| ==> list[i].alias != list[j].alias
  }

  lemma {:induction false} EntryIsListed(list: seq<Alias>, a: string)
    requires a in FirstWins(list)
    ensures Alias(a, FirstWins(list)[a]) in list
  {
    var init, last := list[..|list| - 1], list[|list| - 1];
    assert list == init + [last];
    if a in FirstWins(init) {
      EntryIsListed(init, a);
    }
  }

  lemma ListedIsEntry(list: seq<Alias>, x: Alias)
    requires Distinct(list) && x in list
    ensures x.alias in FirstWins(list) && FirstWins(list)[x.alias] == x.bot
  {
    var i :| 0 <= i < |list| && list[i] == x;
    FirstWinsEntry(list, i);
  }

  lemma SameEntriesSameTable(a: seq<Alias>, b: seq<Alias>)
    requires multiset(a) == multiset(b) && Distinct(a)
    ensures FirstWins(a) == FirstWins(b)
  {
    forall x ensures x in a <==> x in b {
      assert x in multiset(a) <==> x in multiset(b);
    }
    forall s
      ensures (s in FirstWins(a) <==> s in FirstWins(b)) && (s in FirstWins(a) ==> FirstWins(a)[s] == FirstWins(b)[s])
    {
      if s in FirstWins(b) {
        EntryIsListed(b, s);
        ListedIsEntry(a, Alias(s, FirstWins(b)[s]));
      }
      if s in FirstWins(a) {
        EntryIsListed(a, s);
        FirstWinsKeys(b, s);
      }
    }
  }

  // ----- One group, as both see it.

  function Opt(trim: string -> string, raw: Option<string>): seq<string> {
    if raw.None? || trim(raw.value) == "" then [] else [trim(raw.value)]
  }

  /** The trimmed nickname and name of a member, where there are any. */
  function Names(trim: string -> string, m: Member): seq<string> {
    Opt(trim, m.nickname) + Opt(trim, m.botName)
  }

  /** The trimmed nickname, or else the bot's name as it is. */
  function DisplayName(trim: string -> string, m: Member): string {
    if Opt(trim, m.nickname) != [] then Opt(trim, m.nickname)[0]
    else if m.botName.Some? then m.botName.value
    else ""
  }

  /** The client's candidate for a member; none without an id or any name. */
  function ToMentionBot(trim: string -> string, m: Member): seq<Candidate> {
    if m.botId == "" || DisplayName(trim, m) == "" then []
    else [Candidate(m.botId, DisplayName(trim, m), FirstSeen(Names(trim, m)))]
  }

  function MentionBots(trim: string -> string): Member -> seq<Candidate> {
    (m: Member) => ToMentionBot(trim, m)
  }

  function WebBots(trim: string -> string, members: seq<Member>): seq<Candidate> {
    FlatMap(MentionBots(trim), members)
  }

  /** A candidate is what has an id and some name, if only a blank name of its own. */
  lemma CandidateIff(trim: string -> string, m: Member)
    ensures ToMentionBot(trim, m) != [] <==>
            m.botId != "" && ((m.nickname.Some? && trim(m.nickname.value) != "")
                              || (m.botName.Some? && m.botName.value != ""))
    ensures ToMentionBot(trim, m) != [] ==> ToMentionBot(trim, m)[0].id == m.botId
  {
  }

  lemma PresentIsTrimmed(trim: string -> string, list: seq<string>, a: string)
    ensures a in Present(trim, list) <==> a != "" && exists s :: s in list && trim(s) == a
  {
    FlatMapMember(Kept(trim), list, a);
    if a in Present(trim, list) {
      var s :| s in list && a in Kept(trim)(s);
    }
    if a != "" && exists s :: s in list && trim(s) == a {
      var s :| s in list && trim(s) == a;
      assert a in Kept(trim)(s);
    }
  }

  lemma NamesAreTrimmed(trim: string -> string, m: Member, a: string)
    requires Text.Trims(trim) && a in Names(trim, m)
    ensures a != "" && trim(a) == a
  {
  }

  lemma DisplayNameIsName(trim: string -> string, m: Member)
    requires Text.Trims(trim)
    ensures trim(DisplayName(trim, m)) == "" || trim(DisplayName(trim, m)) in Names(trim, m)
    ensures DisplayName(trim, m) == "" ==> Names(trim, m) == []
  {
  }

  /** A candidate's aliases are the names of its member. */
  lemma AliasesAreNames(trim: string -> string, m: Member, a: string)
    requires Text.Trims(trim) && m.botId != "" && ToMentionBot(trim, m) != []
    ensures a in AliasNames(trim, ToMentionBot(trim, m)[0]) <==> a in Names(trim, m)
  {
    DisplayNameIsName(trim, m);
    var c := ToMentionBot(trim, m)[0];
    var all := [c.name] + c.aliases;
    FirstSeenKeepsFirsts(Present(trim, all));
    FirstSeenKeepsFirsts(Names(trim, m));
    PresentIsTrimmed(trim, all, a);
    if a in Names(trim, m) {
      NamesAreTrimmed(trim, m, a);
      assert a in all;
    }
    if a in Present(trim, all) {
      var s :| s in all && trim(s) == a;
      if s != c.name {
        assert s in c.aliases;
        NamesAreTrimmed(trim, m, s);
      }
    }
  }

  lemma EntriesHold(trim: string -> string, c: Candidate, x: Alias)
    ensures x in Entries(trim)(c) <==> x.bot == c.id && x.alias in AliasNames(trim, c)
  {
  }

  /** What the client lists for one member. */
  lemma WebListsOne(trim: string -> string, m: Member, x: Alias)
    requires Text.Trims(trim) && m.botId != ""
    ensures (exists c :: c in MentionBots(trim)(m) && x in Entries(trim)(c)) <==>
            m.botId == x.bot && x.alias in Names(trim, m)
  {
    DisplayNameIsName(trim, m);
    if MentionBots(trim)(m) != [] {
      var c := ToMentionBot(trim, m)[0];
      EntriesHold(trim, c, x);
      AliasesAreNames(trim, m, x.alias);
      assert c in MentionBots(trim)(m);
    }
  }

  // ----- What the backend lists.

  /** The normalised nickname and name of a member: an at-sign in front is taken off. */
  function GoNames(trim: string -> string, m: Member): seq<string> {
    Named(trim, m.nickname) + Named(trim, m.botName)
  }

  function IdEntry(): Member -> seq<Alias> {
    (m: Member) => [Alias(m.botId, m.botId)]
  }

  function GoEntries(trim: string -> string): Member -> seq<Alias> {
    (m: Member) => Each(GoNames(trim, m), m.botId)
  }

  /** How many members have the id `s`. */
  function Borne(members: seq<Member>, s: string): nat {
    |Owners(FlatMap(IdEntry(), members), s)|
  }

  /** How often the backend lists `s` as a nickname or name. */
  function NamedTimes(trim: string -> string, members: seq<Member>, s: string): nat {
    |Owners(FlatMap(GoEntries(trim), members), s)|
  }

  lemma OwnersConcat(a: seq<Alias>, b: seq<Alias>, s: string)
    ensures Owners(a + b, s) == Owners(a, s) + Owners(b, s)
  {
    FlatMapConcat(Owner(s), a, b);
  }

  lemma ListingSplits(trim: string -> string, m: Member)
    ensures Lister(Candidates(trim))(m) == IdEntry()(m) + GoEntries(trim)(m)
  {
    assert CandidateBotAliases(trim, m) == [m.botId] + GoNames(trim, m);
  }

  /** The backend's listings of a string are those as an id and those as a name. */
  lemma {:induction false} OwnersAreIdsAndNames(trim: string -> string, members: seq<Member>, s: string)
    ensures |Owners(Listings(Candidates(trim), members), s)| == Borne(members, s) + NamedTimes(trim, members, s)
  {
    if |members| > 0 {
      var init, m := members[..|members| - 1], members[|members| - 1];
      OwnersAreIdsAndNames(trim, init, s);
      ListingSplits(trim, m);
      var ids, names := IdEntry()(m), GoEntries(trim)(m);
      OwnersConcat(Listings(Candidates(trim), init), ids + names, s);
      OwnersConcat(ids, names, s);
      OwnersConcat(FlatMap(IdEntry(), init), ids, s);
      OwnersConcat(FlatMap(GoEntries(trim), init), names, s);
    }
  }

  lemma OwnedIffListed(list: seq<Alias>, s: string, bot: BotId)
    ensures bot in Owners(list, s) <==> Alias(s, bot) in list
  {
    FlatMapMember(Owner(s), list, bot);
    if Alias(s, bot) in list {
      assert bot in Owner(s)(Alias(s, bot));
    }
  }

  lemma EachHolds(names: seq<string>, bot: BotId, x: Alias)
    ensures x in Each(names, bot) <==> x.bot == bot && x.alias in names
  {
    if x.bot == bot && x.alias in names {
      var k :| 0 <= k < |names| && names[k] == x.alias;
      assert Each(names, bot)[k] == x;
    }
  }

  // ----- What the client's table says.

  function NameEntries(trim: string -> string): Member -> seq<Alias> {
    (m: Member) => Each(Names(trim, m), m.botId)
  }

  /** The bots with `s` as their trimmed nickname or name, in the order of the members. */
  function Bearers(trim: string -> string, members: seq<Member>, s: string): seq<BotId> {
    Owners(FlatMap(NameEntries(trim), members), s)
  }

  /** Both empty, or with the same first element. */
  predicate SameHead(a: seq<BotId>, b: seq<BotId>) {
    (a == [] <==> b == []) && (a != [] && b != [] ==> a[0] == b[0])
  }

  lemma {:induction false} FirstWinsIsHead(list: seq<Alias>, s: string)
    ensures s in FirstWins(list) <==> Owners(list, s) != []
    ensures s in FirstWins(list) ==> FirstWins(list)[s] == Owners(list, s)[0]
  {
    if |list| > 0 {
      FirstWinsIsHead(list[..|list| - 1], s);
    }
  }

  lemma OneBotOwns(list: seq<Alias>, s: string, bot: BotId)
    requires forall x :: x in list ==> x.bot == bot
    ensures Owners(list, s) != [] <==> Alias(s, bot) in list
    ensures Owners(list, s) != [] ==> Owners(list, s)[0] == bot
  {
    OwnedIffListed(list, s, bot);
    if Owners(list, s) != [] {
      OwnedIffListed(list, s, Owners(list, s)[0]);
    }
  }

  lemma SameHeadOfOne(trim: string -> string, m: Member, s: string)
    requires Text.Trims(trim) && m.botId != ""
    ensures SameHead(Owners(FlatMap(Entries(trim), MentionBots(trim)(m)), s), Owners(NameEntries(trim)(m), s))
  {
    var web, names := FlatMap(Entries(trim), MentionBots(trim)(m)), NameEntries(trim)(m);
    forall x ensures x in web <==> x in names
             ensures x in web ==> x.bot == m.botId {
      FlatMapMember(Entries(trim), MentionBots(trim)(m), x);
      WebListsOne(trim, m, x);
      EachHolds(Names(trim, m), m.botId, x);
    }
    OneBotOwns(web, s, m.botId);
    OneBotOwns(names, s, m.botId);
  }

  lemma {:induction false} WebHead(trim: string -> string, members: seq<Member>, s: string)
    requires Text.Trims(trim) && forall m :: m in members ==> m.botId != ""
    ensures SameHead(Owners(WebListings(trim, WebBots(trim, members)), s), Bearers(trim, members, s))
  {
    if |members| > 0 {
      var init, m := members[..|members| - 1], members[|members| - 1];
      assert m in members && forall x :: x in init ==> x in members;
      WebHead(trim, init, s);
      SameHeadOfOne(trim, m, s);
      FlatMapConcat(Entries(trim), WebBots(trim, init), MentionBots(trim)(m));
      OwnersConcat(WebListings(trim, WebBots(trim, init)), FlatMap(Entries(trim), MentionBots(trim)(m)), s);
      OwnersConcat(FlatMap(NameEntries(trim), init), NameEntries(trim)(m), s);
    }
  }

  /** The client knows a string exactly if somebody bears it, and means the first who does. */
  lemma WebMeansFirstBearer(trim: string -> string, members: seq<Member>, s: string)
    requires Text.Trims(trim) && forall m :: m in members ==> m.botId != ""
    ensures var web := WebTable(trim, WebBots(trim, members));
            && (s in web <==> Bearers(trim, members, s) != [])
            && (s in web ==> web[s] == Bearers(trim, members, s)[0])
  {
    WebHead(trim, members, s);
    FirstWinsIsHead(WebListings(trim, WebBots(trim, members)), s);
  }

  // ----- Who answers to what.

  /** The nickname or name of a member, read by trimming or normalising, is `s`. */
  predicate IsNamed(read: string -> string, m: Member, s: string) {
    s != "" && ((m.nickname.Some? && read(m.nickname.value) == s) || (m.botName.Some? && read(m.botName.value) == s))
  }

  function Normalizing(trim: string -> string): string -> string {
    (raw: string) => NormalizeMentionAlias(trim, raw)
  }

  lemma NamesAre(trim: string -> string, m: Member, s: string)
    ensures s in Names(trim, m) <==> IsNamed(trim, m, s)
    ensures s in GoNames(trim, m) <==> IsNamed(Normalizing(trim), m, s)
  {
  }

  /** On the client a bot bears the trimmed nickname and name it has, where they are not blank, and nothing else. */
  lemma BearsIff(trim: string -> string, members: seq<Member>, s: string, bot: BotId)
    ensures bot in Bearers(trim, members, s) <==> exists m :: m in members && m.botId == bot && IsNamed(trim, m, s)
  {
    var x, names := Alias(s, bot), FlatMap(NameEntries(trim), members);
    OwnedIffListed(names, s, bot);
    FlatMapMember(NameEntries(trim), members, x);
    forall m ensures x in NameEntries(trim)(m) <==> m.botId == bot && IsNamed(trim, m, s) {
      EachHolds(Names(trim, m), m.botId, x);
      NamesAre(trim, m, s);
    }
  }

  /** The backend lists a bot under its id and the normalised nickname and name it has, where they are not blank. */
  lemma ListedIff(trim: string -> string, members: seq<Member>, s: string, bot: BotId)
    ensures bot in Owners(Listings(Candidates(trim), members), s) <==>
            exists m :: m in members && m.botId == bot && (s == bot || IsNamed(Normalizing(trim), m, s))
  {
    var x, list := Alias(s, bot), Listings(Candidates(trim), members);
    OwnedIffListed(list, s, bot);
    FlatMapMember(Lister(Candidates(trim)), members, x);
    forall m ensures x in Lister(Candidates(trim))(m) <==>
                     m.botId == bot && (s == bot || IsNamed(Normalizing(trim), m, s)) {
      ListingSplits(trim, m);
      EachHolds(GoNames(trim, m), m.botId, x);
      NamesAre(trim, m, s);
    }
  }

  // ----- What one string means to both.

  predicate BeginsWithAt(a: string) {
    a != "" && a[0] == '@'
  }

  lemma NormalizePlain(trim: string -> string, raw: string)
    requires Text.Trims(trim) && !BeginsWithAt(trim(raw))
    ensures NormalizeMentionAlias(trim, raw) == trim(raw)
  {
  }

  /** A name without an at-sign in front is listed by the backend as it is. */
  lemma PlainNamesAreListed(trim: string -> string, m: Member, s: string)
    requires Text.Trims(trim) && !BeginsWithAt(s) && s in Names(trim, m)
    ensures s in GoNames(trim, m)
  {
    var raw := if s in Opt(trim, m.nickname) then m.nickname else m.botName;
    assert s == trim(raw.value);
    NormalizePlain(trim, raw.value);
    assert Named(trim, raw) == [s];
  }

  lemma BearersAreOwners(trim: string -> string, members: seq<Member>, s: string, bot: BotId)
    requires Text.Trims(trim) && !BeginsWithAt(s) && bot in Bearers(trim, members, s)
    ensures bot in Owners(FlatMap(GoEntries(trim), members), s)
    ensures bot in Owners(Listings(Candidates(trim), members), s)
  {
    var x, names, entries := Alias(s, bot), FlatMap(NameEntries(trim), members), FlatMap(GoEntries(trim), members);
    OwnedIffListed(names, s, bot);
    FlatMapMember(NameEntries(trim), members, x);
    var m :| m in members && x in NameEntries(trim)(m);
    EachHolds(Names(trim, m), m.botId, x);
    PlainNamesAreListed(trim, m, s);
    EachHolds(GoNames(trim, m), m.botId, x);
    FlatMapMember(GoEntries(trim), members, x);
    OwnedIffListed(entries, s, bot);
    ListingSplits(trim, m);
    FlatMapMember(Lister(Candidates(trim)), members, x);
    OwnedIffListed(Listings(Candidates(trim), members), s, bot);
  }

  lemma FirstBearerIsOwner(trim: string -> string, members: seq<Member>, s: string)
    requires Text.Trims(trim) && !BeginsWithAt(s) && Bearers(trim, members, s) != []
    ensures NamedTimes(trim, members, s) > 0
    ensures Bearers(trim, members, s)[0] in Owners(Listings(Candidates(trim), members), s)
  {
    BearersAreOwners(trim, members, s, Bearers(trim, members, s)[0]);
  }

  ghost predicate SameMeaning(a: map<string, BotId>, b: map<string, BotId>, s: string) {
    (s in a <==> s in b) && (s in a ==> a[s] == b[s])
  }

  /**
    A string nobody bears is not listed exactly once by the backend, as an id or a
    name. One that somebody bears is listed once, as a name; where it begins with
    an at-sign, the one listing has to be for its first bearer.
   */
  predicate MeansOneThing(trim: string -> string, members: seq<Member>, s: string) {
    var bearers := Bearers(trim, members, s);
    if bearers == [] then Borne(members, s) + NamedTimes(trim, members, s) != 1
    else if BeginsWithAt(s) then Owners(Listings(Candidates(trim), members), s) == [bearers[0]]
    else Borne(members, s) == 0 && NamedTimes(trim, members, s) == 1
  }

  /** Exactly then a string means the same to backend and client. */
  lemma SameMeaningIff(trim: string -> string, members: seq<Member>, s: string)
    requires Text.Trims(trim) && forall m :: m in members ==> m.botId != ""
    ensures SameMeaning(Survivors(Listings(Candidates(trim), members)), WebTable(trim, WebBots(trim, members)), s) <==>
            MeansOneThing(trim, members, s)
  {
    hide Survivors, WebTable, Owners, Borne, NamedTimes, Listings, Bearers, BeginsWithAt;
    OwnersAreIdsAndNames(trim, members, s);
    SurvivorsListedOnce(Listings(Candidates(trim), members), s);
    WebMeansFirstBearer(trim, members, s);
    if Bearers(trim, members, s) != [] && !BeginsWithAt(s) {
      FirstBearerIsOwner(trim, members, s);
    }
  }

  lemma NobodysId(members: seq<Member>, s: string)
    requires forall m :: m in members ==> m.botId != s
    ensures Borne(members, s) == 0
  {
    if Borne(members, s) > 0 {
      var bot := Owners(FlatMap(IdEntry(), members), s)[0];
      OwnedIffListed(FlatMap(IdEntry(), members), s, bot);
      FlatMapMember(IdEntry(), members, Alias(s, bot));
    }
  }

  /**
    For a string that is nobody's id and does not begin with an at-sign: exactly
    if the backend lists it once and somebody bears it, or neither.
   */
  lemma NameMeaningIff(trim: string -> string, members: seq<Member>, s: string)
    requires Text.Trims(trim) && forall m :: m in members ==> m.botId != "" && m.botId != s
    requires !BeginsWithAt(s)
    ensures SameMeaning(Survivors(Listings(Candidates(trim), members)), WebTable(trim, WebBots(trim, members)), s) <==>
            (NamedTimes(trim, members, s) == 1 <==> Bearers(trim, members, s) != [])
  {
    SameMeaningIff(trim, members, s);
    NobodysId(members, s);
  }

  // ----- One text.

  /** The scan comes to the at-sign at `i`; behind it stands `s`, and then a boundary. */
  ghost predicate Reaches(spans: seq<Span>, boundary: char -> bool, text: string, i: nat, s: string) {
    && i < |text| && IsAt(text[i]) && !Inside(spans, i)
    && s <= text[i + 1..] && HasBoundary(boundary, text[i + 1..][|s|..])
  }

  lemma SameMentionAt(a: map<string, BotId>, b: map<string, BotId>, boundary: char -> bool, text: string,
                      spans: seq<Span>, i: nat)
    requires forall s {:trigger Reaches(spans, boundary, text, i, s)} ::
               Reaches(spans, boundary, text, i, s) ==> SameMeaning(a, b, s)
    requires i < |text| && !Inside(spans, i)
    ensures MentionAt(a, boundary, text, i) == MentionAt(b, boundary, text, i)
  {
    if IsAt(text[i]) {
      var rest := text[i + 1..];
      forall k: nat | k <= |rest|
        ensures Eligible(a, boundary, rest, k) <==> Eligible(b, boundary, rest, k)
        ensures Eligible(a, boundary, rest, k) ==> a[rest[..k]] == b[rest[..k]]
      {
        if k == |rest| || boundary(rest[k]) {
          assert |rest[..k]| == k;
          assert Reaches(spans, boundary, text, i, rest[..k]);
        }
      }
      SameBest(a, b, boundary, boundary, rest, |rest|);
    }
  }

  /**
    For a text in which every string the backend's scan comes to means one thing,
    client and backend find the same mentions exactly when each of the backend's
    ends with the text or before a character of the basic plane.
   */
  lemma GroupScansIff(trim: string -> string, boundary: char -> bool, text: string, members: seq<Member>)
    requires Text.Trims(trim) && forall m :: m in members ==> m.botId != ""
    requires var spans := Scan(Survivors(Listings(Candidates(trim), members)), boundary, text);
             forall i: nat, s {:trigger Reaches(spans, boundary, text, i, s)} ::
               Reaches(spans, boundary, text, i, s) ==> MeansOneThing(trim, members, s)
    ensures var go, web := Survivors(Listings(Candidates(trim), members)), WebTable(trim, WebBots(trim, members));
            Scan(go, boundary, text) == Scan(web, UnitBoundary(boundary), text) <==>
            forall s :: s in Scan(go, boundary, text) ==> EndsInPlane(text, s)
  {
    var go, web := Survivors(Listings(Candidates(trim), members)), WebTable(trim, WebBots(trim, members));
    var spans := Scan(go, boundary, text);
    var f, h := Finder(go, boundary, text), Finder(web, boundary, text);
    forall i: nat | i < |text| && !Inside(spans, i) ensures f(i) == h(i) {
      forall s | Reaches(spans, boundary, text, i, s) ensures SameMeaning(go, web, s) {
        SameMeaningIff(trim, members, s);
      }
      SameMentionAt(go, web, boundary, text, spans, i);
    }
    FinderIsSound(go, boundary, text);
    FinderIsSound(web, boundary, text);
    SamePassIff(f, h, |text|);
    SameTableScansIff(web, boundary, text);
  }

  /** Then they name the same bots, in the same order. */
  lemma GroupScannersAgree(trim: string -> string, boundary: char -> bool, body: string, members: seq<Member>)
    requires Text.Trims(trim) && forall m :: m in members ==> m.botId != ""
    requires var spans := Scan(Survivors(Listings(Candidates(trim), members)), boundary, trim(body));
             && (forall i: nat, s {:trigger Reaches(spans, boundary, trim(body), i, s)} ::
                   Reaches(spans, boundary, trim(body), i, s) ==> MeansOneThing(trim, members, s))
             && forall s :: s in spans ==> EndsInPlane(trim(body), s)
    ensures Mentioned(WebTable(trim, WebBots(trim, members)), UnitBoundary(boundary), trim(body))
            == Extracted(trim, boundary, body, members)
  {
    if |members| > 0 {
      GroupScansIff(trim, boundary, trim(body), members);
    } else {
      EmptyTableFindsNothing(UnitBoundary(boundary), trim(body));
    }
  }

  // ----- Where they part.

  lemma {:induction false} NothingFurther(find: nat -> Option<Span>, n: nat, from: nat)
    requires forall i: nat :: from <= i < n ==> find(i) == None
    ensures Pass(find, n, from) == []
    decreases n - from
  {
    if from < n {
      NothingFurther(find, n, from + 1);
    }
  }

  /** Nothing is found behind the first place. */
  lemma PassOfFirst(find: nat -> Option<Span>, n: nat)
    requires Sound(find, n) && n > 0 && forall i: nat :: 0 < i < n ==> find(i) == None
    ensures Pass(find, n, 0) == if find(0).Some? then [find(0).value] else []
  {
    NothingFurther(find, n, if find(0).Some? then find(0).value.end else 1);
  }

  lemma OneBotSeen(s: Span)
    ensures FirstSeen(Bots([s])) == [s.bot]
  {
    assert Bots([s]) == [s.bot];
    FirstSeenOfDistinct([s.bot]);
  }

  /** A text whose only at-sign is its first character. */
  lemma OnlyMention(table: map<string, BotId>, boundary: char -> bool, text: string)
    requires text != "" && IsAt(text[0]) && forall i :: 0 < i < |text| ==> !IsAt(text[i])
    ensures MentionAt(table, boundary, text, 0).None? ==> Mentioned(table, boundary, text) == []
    ensures MentionAt(table, boundary, text, 0).Some? ==>
              Mentioned(table, boundary, text) == [MentionAt(table, boundary, text, 0).value.bot]
  {
    FinderIsSound(table, boundary, text);
    forall i: nat | 0 < i < |text| ensures Finder(table, boundary, text)(i) == None {
      NoAtSignNoMention(table, boundary, text, i);
    }
    PassOfFirst(Finder(table, boundary, text), |text|);
    assert FirstSeen(Bots([])) == [];
    if MentionAt(table, boundary, text, 0).Some? {
      OneBotSeen(MentionAt(table, boundary, text, 0).value);
    }
    hide MentionAt, FirstSeen, Pass;
  }

  /** An emoji ends a mention for the backend, not for the client. */
  lemma EmojiParts()
    ensures var table, boundary, text := map["Bot" := "1"], (c: char) => c == '\U{1F600}', "@Bot\U{1F600}";
            Mentioned(table, boundary, text) == ["1"] && Mentioned(table, UnitBoundary(boundary), text) == []
  {
    var table, boundary, text := map["Bot" := "1"], (c: char) => c == '\U{1F600}', "@Bot\U{1F600}";
    var rest := text[1..];
    assert rest[..3] == "Bot" && rest[..4] == rest && rest != "Bot";
    assert Eligible(table, boundary, rest, 3) && !Eligible(table, boundary, rest, 4);
    OnlyMention(table, boundary, text);
    forall k: nat ensures !Eligible(table, UnitBoundary(boundary), rest, k) {
      assert k <= 4 && k != 3 ==> |rest[..k]| != |"Bot"|;
    }
    OnlyMention(table, UnitBoundary(boundary), text);
  }

  /** A bot with one name, used as its nickname too. */
  function Nicknamed(id: BotId, name: string): Member {
    Member(id, Some(name), Some(name))
  }

  ghost predicate PlainName(trim: string -> string, id: BotId, name: string) {
    && Text.Trims(trim) && name != "" && trim(name) == name && (forall c :: c in name ==> !IsAt(c))
    && id != "" && !(id <= name)
  }

  lemma PlainNameStays(trim: string -> string, id: BotId, name: string)
    requires PlainName(trim, id, name)
    ensures CandidateBotAliases(trim, Nicknamed(id, name)) == [id, name, name]
    ensures Names(trim, Nicknamed(id, name)) == [name, name]
  {
    assert trim(name) == name;
    assert name[0] in name && !BeginsWithAt(name);
    NormalizePlain(trim, name);
    assert Named(trim, Some(name)) == [name] && Opt(trim, Some(name)) == [name];
  }

  lemma BackendListsTwice(aliasesOf: Member -> seq<string>, m: Member, name: string)
    requires aliasesOf(m) == [m.botId, name, name] && m.botId != name
    ensures forall s :: s in Survivors(Listings(aliasesOf, [m])) ==> s == m.botId
  {
    var id := m.botId;
    var go := [Alias(id, id), Alias(name, id), Alias(name, id)];
    FlatMapAppend(Lister(aliasesOf), [], m);
    assert [] + [m] == [m];
    assert Listings(aliasesOf, [m]) == go;
    FlatMapAppend(Owner(name), go[..2], go[2]);
    FlatMapAppend(Owner(name), go[..1], go[1]);
    assert go == go[..2] + [go[2]] && go[..2] == go[..1] + [go[1]];
  }

  lemma BackendListsOnce(id: BotId, name: string)
    requires id != name
    ensures var go := Survivors([Alias(id, id), Alias(name, id)]);
            name in go && go[name] == id && forall s :: s in go ==> s == id || s == name
  {
    var list := [Alias(id, id), Alias(name, id)];
    FlatMapAppend(Owner(name), [], list[0]);
    FlatMapAppend(Owner(name), [list[0]], list[1]);
    assert list == [list[0]] + [list[1]] && [list[0]] == [] + [list[0]];
    SurvivorsListedOnce(list, name);
  }

  lemma BearersOfOne(trim: string -> string, m: Member, s: string)
    ensures Bearers(trim, [m], s) != [] <==> s in Names(trim, m)
    ensures Bearers(trim, [m], s) != [] ==> Bearers(trim, [m], s)[0] == m.botId
  {
    FlatMapAppend(NameEntries(trim), [], m);
    assert [] + [m] == [m] && FlatMap(NameEntries(trim), [m]) == NameEntries(trim)(m);
    EachHolds(Names(trim, m), m.botId, Alias(s, m.botId));
    OneBotOwns(NameEntries(trim)(m), s, m.botId);
  }

  lemma ClientListsOnce(trim: string -> string, m: Member, name: string)
    requires Text.Trims(trim) && m.botId != ""
    requires name in Names(trim, m) && forall a :: a in Names(trim, m) ==> a == name
    ensures var web := WebTable(trim, WebBots(trim, [m]));
            name in web && web[name] == m.botId && forall s :: s in web ==> s == name
  {
    var web := WebTable(trim, WebBots(trim, [m]));
    forall s ensures s in web <==> s == name
             ensures s in web ==> web[s] == m.botId {
      WebMeansFirstBearer(trim, [m], s);
      BearersOfOne(trim, m, s);
    }
    hide *;
  }

  lemma LoneMention(table: map<string, BotId>, boundary: char -> bool, name: string)
    requires forall c :: c in name ==> !IsAt(c)
    requires forall s :: s in table && s <= name ==> s == name
    ensures Mentioned(table, boundary, "@" + name) == if name in table then [table[name]] else []
  {
    var text := "@" + name;
    var rest := text[1..];
    assert rest == name && rest[..|name|] == name;
    assert forall i :: 0 < i < |text| ==> text[i] == name[i - 1];
    OnlyMention(table, boundary, text);
  }

  lemma BackendIgnoresNickname(trim: string -> string, boundary: char -> bool, id: BotId, name: string)
    requires PlainName(trim, id, name) && trim("@" + name) == "@" + name
    ensures Extracted(trim, boundary, "@" + name, [Nicknamed(id, name)]) == []
  {
    PlainNameStays(trim, id, name);
    BackendListsTwice(Candidates(trim), Nicknamed(id, name), name);
    LoneMention(Survivors(Listings(Candidates(trim), [Nicknamed(id, name)])), boundary, name);
  }

  /**
    A bot whose nickname is its name answers to it on the client only: the
    backend lists the alias twice and drops it.
   */
  lemma NicknameEqualToNameParts(trim: string -> string, boundary: char -> bool, id: BotId, name: string)
    requires PlainName(trim, id, name) && trim("@" + name) == "@" + name
    ensures Extracted(trim, boundary, "@" + name, [Nicknamed(id, name)]) == []
    ensures Mentioned(WebTable(trim, WebBots(trim, [Nicknamed(id, name)])), UnitBoundary(boundary), "@" + name) == [id]
  {
    BackendIgnoresNickname(trim, boundary, id, name);
    PlainNameStays(trim, id, name);
    ClientListsOnce(trim, Nicknamed(id, name), name);
    LoneMention(WebTable(trim, WebBots(trim, [Nicknamed(id, name)])), UnitBoundary(boundary), name);
  }

  lemma AtSignIsTakenOff(trim: string -> string, id: BotId, name: string)
    requires PlainName(trim, id, name) && trim("@" + name) == "@" + name
    ensures Listings(Candidates(trim), [Member(id, Some("@" + name), None)]) == [Alias(id, id), Alias(name, id)]
    ensures Names(trim, Member(id, Some("@" + name), None)) == ["@" + name]
  {
    var m := Member(id, Some("@" + name), None);
    assert NormalizeMentionAlias(trim, "@" + name) == trim(name);
    assert CandidateBotAliases(trim, m) == [id, name];
    FlatMapAppend(Lister(Candidates(trim)), [], m);
    assert [] + [m] == [m];
    assert Each([id, name], id) == [Alias(id, id), Alias(name, id)];
    assert Opt(trim, Some("@" + name)) == ["@" + name];
  }

  /**
    A bot whose one name is a nickname with an at-sign in front answers on the
    backend only: the backend takes the at-sign off, the client does not.
   */
  lemma AtSignNicknameParts(trim: string -> string, boundary: char -> bool, id: BotId, name: string)
    requires PlainName(trim, id, name) && trim("@" + name) == "@" + name
    ensures var members := [Member(id, Some("@" + name), None)];
            && Extracted(trim, boundary, "@" + name, members) == [id]
            && Mentioned(WebTable(trim, WebBots(trim, members)), UnitBoundary(boundary), "@" + name) == []
  {
    var members := [Member(id, Some("@" + name), None)];
    AtSignIsTakenOff(trim, id, name);
    BackendListsOnce(id, name);
    LoneMention(Survivors([Alias(id, id), Alias(name, id)]), boundary, name);
    ClientListsOnce(trim, members[0], "@" + name);
    LoneMention(WebTable(trim, WebBots(trim, members)), UnitBoundary(boundary), name);
  }
}
