/**
  The backend's mention extractor (backend/internal/service/message_service.go:431-450, 492-591).

  Text is walked by character; the source walks the same characters as UTF-8
  bytes. `trim` stands for `strings.TrimSpace` and `boundary` for the Unicode tables
  it consults.
 */
module GoMentions {
  import opened MessageLog
  import opened Mentions
  import opened AliasLists
  import opened Sorting
  import opened FlatMaps
  import Text

  /** A bot's membership of a group, with its nickname there and its own name where known. */
  datatype Member = Member(botId: BotId, nickname: Option<string>, botName: Option<string>)

  function NormalizeMentionAlias(trim: string -> string, raw: string): string {
    trim(Text.TrimPrefix(trim(raw), '@'))
  }

  /**
    An alias never has outer white space, and neither that of the name nor that
    behind its at-sign matters.
   */
  lemma AliasIsTrimmed(trim: string -> string, raw: string)
    requires Text.Trims(trim)
    ensures trim(NormalizeMentionAlias(trim, raw)) == NormalizeMentionAlias(trim, raw)
    ensures NormalizeMentionAlias(trim, trim(raw)) == NormalizeMentionAlias(trim, raw)
    ensures trim(raw) != "" && trim(raw)[0] == '@' ==> NormalizeMentionAlias(trim, raw) == trim(trim(raw)[1..])
    ensures trim(raw) == "" || trim(raw)[0] != '@' ==> NormalizeMentionAlias(trim, raw) == trim(raw)
  {
  }

  function Named(trim: string -> string, raw: Option<string>): seq<string> {
    if raw.None? || NormalizeMentionAlias(trim, raw.value) == "" then [] else [NormalizeMentionAlias(trim, raw.value)]
  }

  function CandidateBotAliases(trim: string -> string, m: Member): seq<string> {
    [m.botId] + Named(trim, m.nickname) + Named(trim, m.botName)
  }

  function Candidates(trim: string -> string): Member -> seq<string> {
    (m: Member) => CandidateBotAliases(trim, m)
  }

  function Lister(aliasesOf: Member -> seq<string>): Member -> seq<Alias> {
    (m: Member) => Each(aliasesOf(m), m.botId)
  }

  /** Every listing of an alias, over all members. */
  function Listings(aliasesOf: Member -> seq<string>, members: seq<Member>): seq<Alias> {
    FlatMap(Lister(aliasesOf), members)
  }

  function Owner(a: string): Alias -> seq<BotId> {
    (x: Alias) => if x.alias == a then [x.bot] else []
  }

  /** The bots an alias is listed for, in order and with repeats. */
  function Owners(listings: seq<Alias>, a: string): seq<BotId> {
    FlatMap(Owner(a), listings)
  }

  /**
    The aliases that may be used: those listed exactly once. Listed twice by one
    and the same bot, as name and as nickname, an alias is lost as well.
   */
  function Survivors(listings: seq<Alias>): map<string, BotId> {
    map x | x in listings && |Owners(listings, x.alias)| == 1 :: x.alias := Owners(listings, x.alias)[0]
  }

  // ----- The order of members does not matter.

  lemma SurvivorsIgnoreListingOrder(a: seq<Alias>, b: seq<Alias>)
    requires multiset(a) == multiset(b)
    ensures Survivors(a) == Survivors(b)
  {
    forall name: string
      ensures |Owners(a, name)| == |Owners(b, name)|
      ensures |Owners(a, name)| == 1 ==> Owners(a, name) == Owners(b, name)
    {
      FlatMapPermute(Owner(name), a, b);
      SameMultisetOfOne(Owners(a, name), Owners(b, name));
    }
    forall x ensures x in a <==> x in b {
      assert x in multiset(a) <==> x in multiset(b);
    }
  }

  lemma SameMultisetOfOne(xs: seq<BotId>, ys: seq<BotId>)
    requires multiset(xs) == multiset(ys)
    ensures |xs| == |ys| && (|xs| == 1 ==> xs == ys)
  {
    assert |xs| == |multiset(xs)| == |multiset(ys)| == |ys|;
    if |xs| == 1 {
      assert xs[0] in multiset(ys);
    }
  }

  /** Reordering the member list changes no mention. */
  lemma MemberOrderDoesNotMatter(trim: string -> string, boundary: char -> bool, body: string, a: seq<Member>,
                                 b: seq<Member>)
    requires multiset(a) == multiset(b)
    ensures Extracted(trim, boundary, body, a) == Extracted(trim, boundary, body, b)
  {
    assert |a| == |multiset(a)| == |multiset(b)| == |b|;
    FlatMapPermute(Lister(Candidates(trim)), a, b);
    SurvivorsIgnoreListingOrder(Listings(Candidates(trim), a), Listings(Candidates(trim), b));
  }

  // ----- The alias list is sorted by bytes, then by text.

  predicate GoBefore(x: Alias, y: Alias) {
    if Text.Utf8Length(x.alias) == Text.Utf8Length(y.alias) then Text.Less(x.alias, y.alias)
    else Text.Utf8Length(x.alias) > Text.Utf8Length(y.alias)
  }

  lemma GoOrderIsTotal(list: seq<Alias>)
    requires forall x, y :: x in list && y in list && x.alias == y.alias ==> x == y
    ensures StrictTotal(GoBefore, list)
  {
    forall a, b, c | a in list && b in list && c in list
      ensures GoBefore(a, b) ==> !GoBefore(b, a)
      ensures GoBefore(a, b) && GoBefore(b, c) ==> GoBefore(a, c)
      ensures a != b ==> GoBefore(a, b) || GoBefore(b, a)
    {
      if Text.Less(a.alias, b.alias) {
        Text.LessAsymmetric(a.alias, b.alias);
        if Text.Less(b.alias, c.alias) {
          Text.LessTransitive(a.alias, b.alias, c.alias);
        }
      }
      Text.LessTotal(a.alias, b.alias);
    }
  }

  /** The sorted list is the same for every order in which the map yields its entries, and longest first. */
  lemma GoSortIsDetermined(list: seq<Alias>, other: seq<Alias>)
    requires forall x, y :: x in list && y in list && x.alias == y.alias ==> x == y
    requires multiset(list) == multiset(other)
    ensures SortBy(GoBefore, list) == SortBy(GoBefore, other)
    ensures LongestFirst(Text.Utf8Length, SortBy(GoBefore, list))
  {
    GoOrderIsTotal(list);
    SortIgnoresInputOrder(GoBefore, list, other);
    StrictTotalIsWeak(GoBefore, list);
    SortSorts(GoBefore, list);
    var r := SortBy(GoBefore, list);
    forall i, j | 0 <= i < j < |r| ensures Text.Utf8Length(r[i].alias) >= Text.Utf8Length(r[j].alias) {
      assert !GoBefore(r[j], r[i]);
    }
  }

  // ----- The extractor.

  function Extracted(trim: string -> string, boundary: char -> bool, body: string, members: seq<Member>): seq<BotId> {
    var text := trim(body);
    if text == "" || |members| == 0 then []
    else Mentioned(Survivors(Listings(Candidates(trim), members)), boundary, text)
  }

  method GroupAliases(aliasesOf: Member -> seq<string>, members: seq<Member>)
    returns (aliasMap: map<string, seq<BotId>>)
    ensures Grouped(aliasMap, Listings(aliasesOf, members))
  {
    aliasMap := map[];
    assert Grouped(aliasMap, Listings(aliasesOf, members[..0]));
    for i := 0 to |members|
      invariant Grouped(aliasMap, Listings(aliasesOf, members[..i]))
    {
      var m := members[i];
      aliasMap := AppendAliases(aliasMap, Listings(aliasesOf, members[..i]), m.botId, aliasesOf(m));
      FlatMapAppend(Lister(aliasesOf), members[..i], m);
      assert members[..i] + [m] == members[..i + 1];
    }
    assert members[..|members|] == members;
  }

  method AppendAliases(known: map<string, seq<BotId>>, ghost before: seq<Alias>, bot: BotId, aliases: seq<string>)
    returns (aliasMap: map<string, seq<BotId>>)
    requires Grouped(known, before)
    ensures Grouped(aliasMap, before + Each(aliases, bot))
  {
    aliasMap := known;
    ghost var own := Each(aliases, bot);
    assert before + own[..0] == before;
    for j := 0 to |aliases|
      invariant Grouped(aliasMap, before + own[..j])
    {
      GroupedAppend(aliasMap, before + own[..j], own[j]);
      aliasMap := aliasMap[aliases[j] := (if aliases[j] in aliasMap then aliasMap[aliases[j]] else []) + [bot]];
      assert before + own[..j] + [own[j]] == before + own[..j + 1];
    }
    assert own[..|aliases|] == own;
  }

  /** The map holds every listed alias with all its owners. */
  ghost predicate Grouped(aliasMap: map<string, seq<BotId>>, listings: seq<Alias>) {
    forall a :: if a in aliasMap then aliasMap[a] == Owners(listings, a) != [] else Owners(listings, a) == []
  }

  lemma GroupedAppend(aliasMap: map<string, seq<BotId>>, listings: seq<Alias>, x: Alias)
    requires Grouped(aliasMap, listings)
    ensures var known := if x.alias in aliasMap then aliasMap[x.alias] else [];
            Grouped(aliasMap[x.alias := known + [x.bot]], listings + [x])
  {
  }

  /** The entries of the map listed exactly once, in whatever order the map yields them. */
  method UsableAliases(aliasMap: map<string, seq<BotId>>) returns (aliases: seq<Alias>)
    ensures forall i :: 0 <= i < |aliases| ==>
              aliases[i].alias in aliasMap && aliasMap[aliases[i].alias] == [aliases[i].bot]
    ensures forall a :: a in aliasMap && |aliasMap[a]| == 1 ==> Lists(aliases, a)
    ensures forall i, j :: 0 <= i < j < |aliases| ==> aliases[i].alias != aliases[j].alias
  {
    aliases := [];
    var left := aliasMap.Keys;
    while left != {}
      invariant left <= aliasMap.Keys
      invariant forall i :: 0 <= i < |aliases| ==>
                  aliases[i].alias in aliasMap.Keys - left && aliasMap[aliases[i].alias] == [aliases[i].bot]
      invariant forall a :: a in aliasMap.Keys - left && |aliasMap[a]| == 1 ==> Lists(aliases, a)
      invariant forall i, j :: 0 <= i < j < |aliases| ==> aliases[i].alias != aliases[j].alias
      decreases |left|
    {
      var a :| a in left;
      left := left - {a};
      if |aliasMap[a]| == 1 {
        assert aliasMap[a] == [aliasMap[a][0]];
        forall b ensures Lists(aliases + [Alias(a, aliasMap[a][0])], b) <==> Lists(aliases, b) || b == a {
          ListsAppend(aliases, Alias(a, aliasMap[a][0]), b);
        }
        aliases := aliases + [Alias(a, aliasMap[a][0])];
      }
    }
  }

  lemma SurvivorsListedOnce(listings: seq<Alias>, a: string)
    ensures a in Survivors(listings) <==> |Owners(listings, a)| == 1
    ensures a in Survivors(listings) ==> [Survivors(listings)[a]] == Owners(listings, a)
  {
    if forall x :: x in listings ==> x.alias != a {
      FlatMapNothing(Owner(a), listings);
    }
  }

  ghost predicate Usable(listings: seq<Alias>, list: seq<Alias>) {
    && (forall i :: 0 <= i < |list| ==> Owners(listings, list[i].alias) == [list[i].bot])
    && (forall a :: |Owners(listings, a)| == 1 ==> Lists(list, a))
    && (forall i, j :: 0 <= i < j < |list| ==> list[i].alias != list[j].alias)
  }

  lemma UsableAt(listings: seq<Alias>, list: seq<Alias>, a: string)
    requires Usable(listings, list)
    ensures a in FirstWins(list) <==> a in Survivors(listings)
    ensures a in FirstWins(list) ==> FirstWins(list)[a] == Survivors(listings)[a]
  {
    FirstWinsKeys(list, a);
    SurvivorsListedOnce(listings, a);
    if Lists(list, a) {
      var i :| 0 <= i < |list| && list[i].alias == a;
      FirstWinsEntry(list, i);
    }
  }

  /** Whatever order the map yields, the usable aliases are the table of survivors. */
  lemma UsableIsSurvivors(listings: seq<Alias>, list: seq<Alias>)
    requires Usable(listings, list)
    ensures FirstWins(list) == Survivors(listings)
  {
    var left, right := FirstWins(list), Survivors(listings);
    forall a ensures (a in left <==> a in right) && (a in left ==> left[a] == right[a]) {
      UsableAt(listings, list, a);
    }
  }

  /** Sorted, they are longest first and still the same table. */
  lemma SortedUsable(list: seq<Alias>)
    requires forall i, j :: 0 <= i < j < |list| ==> list[i].alias != list[j].alias
    ensures FirstWins(SortBy(GoBefore, list)) == FirstWins(list)
    ensures LongestFirst(Text.Utf8Length, SortBy(GoBefore, list))
  {
    GoSortIsDetermined(list, list);
    forall x, y | GoBefore(x, y) ensures x.alias != y.alias {
      if x.alias == y.alias {
        Text.LessAsymmetric(x.alias, y.alias);
      }
    }
    SortKeepsFirstWins(GoBefore, list);
  }

  method ExtractMentionedBotIDs(trim: string -> string, boundary: char -> bool, body: string, members: seq<Member>)
    returns (mentioned: seq<BotId>)
    ensures mentioned == Extracted(trim, boundary, body, members)
  {
    var text := trim(body);
    if text == "" || |members| == 0 {
      return [];
    }
    var aliasMap := GroupAliases(Candidates(trim), members);
    var usable := UsableAliases(aliasMap);
    var aliases := SortBy(GoBefore, usable);
    assert Usable(Listings(Candidates(trim), members), usable);
    UsableIsSurvivors(Listings(Candidates(trim), members), usable);
    SortedUsable(usable);
    Text.Utf8GrowsWithPrefix();
    mentioned := ScanText(boundary, text, aliases);
  }

  /** What the loop knows at an index. */
  ghost predicate Scanning(table: map<string, BotId>, boundary: char -> bool, body: string, done: seq<Span>, index: nat,
                           mentioned: seq<BotId>, seen: set<BotId>) {
    && index <= |body|
    && Walked(Finder(table, boundary, body), |body|, done, index)
    && Noted(done, mentioned, seen)
  }

  lemma ScanBegins(table: map<string, BotId>, boundary: char -> bool, body: string)
    ensures Scanning(table, boundary, body, [], 0, [], {})
  {
  }

  lemma ScanPlain(table: map<string, BotId>, boundary: char -> bool, body: string, done: seq<Span>, index: nat,
                  mentioned: seq<BotId>, seen: set<BotId>)
    requires Scanning(table, boundary, body, done, index, mentioned, seen)
    requires index < |body| && MentionAt(table, boundary, body, index) == None
    ensures Scanning(table, boundary, body, done, index + 1, mentioned, seen)
  {
  }

  lemma ScanMention(table: map<string, BotId>, boundary: char -> bool, body: string, done: seq<Span>, index: nat,
                    mentioned: seq<BotId>, seen: set<BotId>, s: Span)
    requires Scanning(table, boundary, body, done, index, mentioned, seen)
    requires index < |body| && MentionAt(table, boundary, body, index) == Some(s)
    ensures s.bot in seen ==> Scanning(table, boundary, body, done + [s], s.end, mentioned, seen)
    ensures s.bot !in seen ==> Scanning(table, boundary, body, done + [s], s.end, mentioned + [s.bot], seen + {s.bot})
  {
    WalkOver(Finder(table, boundary, body), |body|, done, index);
    NoteNext(done, mentioned, seen, s);
  }

  lemma ScanEnds(table: map<string, BotId>, boundary: char -> bool, body: string, done: seq<Span>,
                 mentioned: seq<BotId>, seen: set<BotId>)
    requires Scanning(table, boundary, body, done, |body|, mentioned, seen)
    ensures mentioned == Mentioned(table, boundary, body)
  {
    WalkEnds(Finder(table, boundary, body), |body|, done, |body|);
  }

  /** The loop over the text: at an at-sign aliases are tried in order, and the index moves past the first that fits. */
  method ScanText(boundary: char -> bool, body: string, aliases: seq<Alias>) returns (mentioned: seq<BotId>)
    requires LongestFirst(Text.Utf8Length, aliases) && Text.GrowsWithPrefix(Text.Utf8Length)
    ensures mentioned == Mentioned(FirstWins(aliases), boundary, body)
  {
    hide *;
    var seen: set<BotId> := {};
    mentioned := [];
    var index := 0;
    ghost var table := FirstWins(aliases);
    ghost var done: seq<Span> := [];
    ScanBegins(table, boundary, body);
    while index < |body|
      invariant index <= |body|
      invariant Scanning(table, boundary, body, done, index, mentioned, seen)
      decreases |body| - index
    {
      if !IsAt(body[index]) {
        NoAtSignNoMention(table, boundary, body, index);
        ScanPlain(table, boundary, body, done, index, mentioned, seen);
        index := index + 1;
      } else {
        var j := AliasAt(Text.Utf8Length, aliases, boundary, body, index);
        if j < |aliases| {
          var a := aliases[j];
          ghost var s := Span(index, index + 1 + |a.alias|, a.bot);
          ScanMention(table, boundary, body, done, index, mentioned, seen, s);
          if a.bot !in seen {
            seen := seen + {a.bot};
            mentioned := mentioned + [a.bot];
          }
          done := done + [s];
          index := index + 1 + |a.alias|;
        } else {
          ScanPlain(table, boundary, body, done, index, mentioned, seen);
          index := index + 1;
        }
      }
    }
    ScanEnds(table, boundary, body, done, mentioned, seen);
  }

  // ----- Merging with the ids the client sent along.

  ghost predicate Merging(trim: string -> string, done: seq<string>, merged: seq<string>, seen: set<string>) {
    merged == FirstSeen(Present(trim, done)) && forall x :: x in seen <==> x in merged
  }

  /** One more id: dropped when empty or seen, else added at the end. */
  lemma MergeOne(trim: string -> string, done: seq<string>, merged: seq<string>, seen: set<string>, id: string)
    requires Merging(trim, done, merged, seen)
    ensures if trim(id) == "" || trim(id) in seen then Merging(trim, done + [id], merged, seen)
            else Merging(trim, done + [id], merged + [trim(id)], seen + {trim(id)})
  {
    FlatMapAppend(Kept(trim), done, id);
    FirstSeenAppend(Present(trim, done), trim(id));
    assert Present(trim, done) + [] == Present(trim, done);
  }

  lemma MergeBegins(trim: string -> string, groups: seq<seq<string>>)
    ensures Merging(trim, Flatten(groups[..0]), [], {})
  {
  }

  lemma MergeEnds(trim: string -> string, done: seq<string>, merged: seq<string>, seen: set<string>)
    requires Merging(trim, done, merged, seen)
    ensures merged == FirstSeen(Present(trim, done))
  {
  }

  lemma FlattenNext(groups: seq<seq<string>>, i: nat)
    requires i < |groups|
    ensures Flatten(groups[..i + 1]) == Flatten(groups[..i]) + groups[i]
  {
    FlatMapAppend(Itself<string>(), groups[..i], groups[i]);
    assert groups[..i] + [groups[i]] == groups[..i + 1];
  }

  method MergeMentionedBotIDs(trim: string -> string, groups: seq<seq<string>>) returns (merged: seq<string>)
    ensures merged == FirstSeen(Present(trim, Flatten(groups)))
  {
    hide *;
    var seen: set<string> := {};
    merged := [];
    MergeBegins(trim, groups);
    for i := 0 to |groups|
      invariant Merging(trim, Flatten(groups[..i]), merged, seen)
    {
      merged, seen := MergeItems(trim, Flatten(groups[..i]), groups[i], merged, seen);
      FlattenNext(groups, i);
    }
    assert groups[..|groups|] == groups;
    MergeEnds(trim, Flatten(groups), merged, seen);
  }

  method MergeItems(trim: string -> string, ghost done: seq<string>, items: seq<string>, merged0: seq<string>,
                    seen0: set<string>)
    returns (merged: seq<string>, seen: set<string>)
    requires Merging(trim, done, merged0, seen0)
    ensures Merging(trim, done + items, merged, seen)
  {
    hide *;
    merged, seen := merged0, seen0;
    assert done + items[..0] == done;
    for j := 0 to |items|
      invariant Merging(trim, done + items[..j], merged, seen)
    {
      var value := trim(items[j]);
      MergeOne(trim, done + items[..j], merged, seen, items[j]);
      assert done + items[..j] + [items[j]] == done + items[..j + 1];
      if value != "" && value !in seen {
        seen := seen + {value};
        merged := merged + [value];
      }
    }
    assert items[..|items|] == items;
  }

  lemma FlattenTwo(a: seq<string>, b: seq<string>)
    ensures Flatten([a, b]) == a + b
  {
    FlatMapAppend(Itself<string>(), [a], b);
    FlatMapAppend(Itself<string>(), [], a);
    assert [a] + [b] == [a, b] && [] + [a] == [a];
  }

  /** When the client found every bot the server finds, the merge is the client's list. */
  lemma MergeKeepsClientList(trim: string -> string, client: seq<string>, server: seq<string>)
    requires forall x :: x in client ==> x != "" && trim(x) == x
    requires NoRepeats(client) && forall x :: x in server ==> x in client
    ensures FirstSeen(Present(trim, Flatten([client, server]))) == client
  {
    FlattenTwo(client, server);
    FlatMapSame(Kept(trim), client + server);
    FirstSeenAbsorbs(client, server);
    FirstSeenOfDistinct(client);
  }
}
