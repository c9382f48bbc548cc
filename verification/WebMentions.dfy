/**
  The web client's mention encoder (frontend/src/components/Chat/ChatInput.tsx:537-635):
  which bots a text mentions, and the text with every mention replaced by a
  `<@bot:id>` token.
 */
module WebMentions {
  import opened MessageLog
  import opened Mentions
  import opened AliasLists
  import opened Sorting
  import opened FlatMaps
  import opened Splices
  import Text

  datatype Candidate = Candidate(id: BotId, name: string, aliases: seq<string>)

  // ----- The candidates and their aliases.

  function AliasNames(trim: string -> string, c: Candidate): seq<string> {
    FirstSeen(Present(trim, [c.name] + c.aliases))
  }

  function Entries(trim: string -> string): Candidate -> seq<Alias> {
    (c: Candidate) => Each(AliasNames(trim, c), c.id)
  }

  function WebListings(trim: string -> string, bots: seq<Candidate>): seq<Alias> {
    FlatMap(Entries(trim), bots)
  }

  /** An alias means the bot that lists it first. */
  function WebTable(trim: string -> string, bots: seq<Candidate>): map<string, BotId> {
    FirstWins(WebListings(trim, bots))
  }

  predicate WebBefore(x: Alias, y: Alias) {
    Text.Utf16Length(x.alias) > Text.Utf16Length(y.alias)
  }

  lemma WebSort(list: seq<Alias>)
    ensures FirstWins(SortBy(WebBefore, list)) == FirstWins(list)
    ensures LongestFirst(Text.Utf16Length, SortBy(WebBefore, list))
  {
    SortKeepsFirstWins(WebBefore, list);
    SortSorts(WebBefore, list);
    var r := SortBy(WebBefore, list);
    forall i, j | 0 <= i < j < |r| ensures Text.Utf16Length(r[i].alias) >= Text.Utf16Length(r[j].alias) {
      assert !WebBefore(r[j], r[i]);
    }
  }

  /**
    The client tests one UTF-16 unit, so a character outside the basic plane is
    never a boundary: half of it is neither space, punctuation nor symbol.
   */
  function UnitBoundary(boundary: char -> bool): char -> bool {
    (c: char) => c < '\U{10000}' && boundary(c)
  }

  // ----- The rewritten text.

  function Token(bot: BotId): (t: string)
    ensures t != "" && t[0] == '<'
  {
    "<@bot:" + bot + ">"
  }

  function Tokens(spans: seq<Span>): (holes: seq<Hole>)
    ensures |holes| == |spans|
    ensures forall j :: 0 <= j < |spans| ==> holes[j] == Hole(spans[j].start, spans[j].end, Token(spans[j].bot))
  {
    seq(|spans|, j requires 0 <= j < |spans| => Hole(spans[j].start, spans[j].end, Token(spans[j].bot)))
  }

  lemma TokensAppend(spans: seq<Span>, s: Span)
    ensures Tokens(spans + [s]) == Tokens(spans) + [Hole(s.start, s.end, Token(s.bot))]
  {
  }

  ghost predicate Increasing(n: nat, spans: seq<Span>) {
    && (forall j :: 0 <= j < |spans| ==> spans[j].start <= spans[j].end <= n)
    && (forall j, l :: 0 <= j < l < |spans| ==> spans[j].end <= spans[l].start)
  }

  lemma EndOfTokens(spans: seq<Span>)
    ensures EndOf(Tokens(spans)) == if |spans| == 0 then 0 else spans[|spans| - 1].end
  {
  }

  lemma {:induction false} TokensInOrder(n: nat, spans: seq<Span>, k: nat)
    requires Increasing(n, spans) && k <= |spans|
    ensures InOrder(n, Tokens(spans[..k]))
  {
    if k > 0 {
      var init, last := spans[..k - 1], spans[k - 1];
      TokensInOrder(n, spans, k - 1);
      EndOfTokens(init);
      assert spans[..k] == init + [last];
      hide *;
      TokensAppend(init, last);
      AppendInOrder(n, Tokens(init), Hole(last.start, last.end, Token(last.bot)));
    }
  }

  lemma ScanIncreases(table: map<string, BotId>, boundary: char -> bool, text: string)
    ensures Increasing(|text|, Scan(table, boundary, text))
  {
    var spans := Scan(table, boundary, text);
    ScanIsLeftmostLongest(table, boundary, text, spans);
    forall j | 0 <= j < |spans| ensures spans[j].start <= spans[j].end <= |text| {
      assert IsMention(table, boundary, text, spans[j]);
    }
  }

  /** The text with each of its mentions replaced by its token; nothing when there is no mention. */
  ghost function Normalized(table: map<string, BotId>, boundary: char -> bool, text: string): Option<string> {
    ScanIncreases(table, boundary, text);
    var spans := Scan(table, boundary, text);
    TokensInOrder(|text|, spans, |spans|);
    assert spans[..|spans|] == spans;
    if |spans| == 0 then None else Some(Splice(text, Tokens(spans)))
  }

  lemma FirstMentionIsAtSign(table: map<string, BotId>, boundary: char -> bool, text: string)
    requires Scan(table, boundary, text) != []
    ensures var first := Scan(table, boundary, text)[0]; first.start < |text| && IsAt(text[first.start])
  {
    var spans := Scan(table, boundary, text);
    ScanIsLeftmostLongest(table, boundary, text, spans);
    assert IsMention(table, boundary, text, spans[0]);
  }

  /** A text that mentions somebody is changed: an at-sign becomes a `<`. */
  lemma MentionsChangeText(table: map<string, BotId>, boundary: char -> bool, text: string)
    ensures InOrder(|text|, Tokens(Scan(table, boundary, text)))
    ensures Splice(text, Tokens(Scan(table, boundary, text))) == text <==> Scan(table, boundary, text) == []
  {
    var spans := Scan(table, boundary, text);
    ScanIncreases(table, boundary, text);
    TokensInOrder(|text|, spans, |spans|);
    assert spans[..|spans|] == spans;
    if spans == [] {
      assert Splice(text, Tokens(spans)) == text[0..] == text;
    } else {
      FirstMentionIsAtSign(table, boundary, text);
      SpliceChanges(text, Tokens(spans));
    }
  }

  lemma NormalizedWhole(table: map<string, BotId>, boundary: char -> bool, text: string)
    ensures var spans := Scan(table, boundary, text);
            InOrder(|text|, Tokens(spans))
            && Normalized(table, boundary, text) == if spans == [] then None else Some(Splice(text, Tokens(spans)))
  {
    MentionsChangeText(table, boundary, text);
  }

  /**
    The rewriting is conservative: each token stands in the result where
    `Inverse` says, and putting the mentions back there yields the text.
   */
  lemma NormalizedIsReversible(table: map<string, BotId>, boundary: char -> bool, text: string)
    ensures var spans := Scan(table, boundary, text);
            match Normalized(table, boundary, text)
            case None => spans == []
            case Some(result) =>
              && result != text
              && InOrder(|text|, Tokens(spans))
              && var back := Inverse(text, Tokens(spans));
              && |back| == |spans| && InOrder(|result|, back)
              && (forall j :: 0 <= j < |spans| ==> back[j].start <= back[j].end <= |result|
                                                   && result[back[j].start..back[j].end] == Token(spans[j].bot))
              && Splice(result, back) == text
  {
    hide *;
    var spans := Scan(table, boundary, text);
    MentionsChangeText(table, boundary, text);
    NormalizedWhole(table, boundary, text);
    SpliceIsUndone(text, Tokens(spans));
  }

  // ----- The ids in the rewritten text.

  /** The literal text of a token: the id between `<@bot:` and `>`. */
  predicate IsTokenOf(t: string, bot: BotId) {
    |t| == |bot| + 7 && t[..6] == "<@bot:" && t[6..|t| - 1] == bot && t[|t| - 1] == '>'
  }

  lemma TokenIsToken(bot: BotId)
    ensures IsTokenOf(Token(bot), bot)
  {
  }

  /** A token names one bot. */
  lemma TokensDiffer(a: BotId, b: BotId)
    ensures Token(a) == Token(b) <==> a == b
  {
    TokenIsToken(a);
    TokenIsToken(b);
  }

  /** What stands between `<@bot:` and `>` at the given places of a text. */
  function IdsAt(text: string, places: seq<Hole>): (ids: seq<BotId>)
    requires forall j :: 0 <= j < |places| ==> places[j].start + 7 <= places[j].end <= |text|
    ensures |ids| == |places|
  {
    seq(|places|, j requires 0 <= j < |places| => text[places[j].start + 6..places[j].end - 1])
  }

  /**
    At every place of `Inverse` the rewritten text has the literal token of the bot
    mentioned there, so the mentioned ids can be read back off it.
   */
  lemma MentionsReadBack(table: map<string, BotId>, boundary: char -> bool, text: string)
    ensures var spans := Scan(table, boundary, text);
            match Normalized(table, boundary, text)
            case None => Mentioned(table, boundary, text) == []
            case Some(result) =>
              && InOrder(|text|, Tokens(spans))
              && var back := Inverse(text, Tokens(spans));
              && |back| == |spans|
              && (forall j :: 0 <= j < |back| ==> && back[j].start + 7 <= back[j].end <= |result|
                                                  && IsTokenOf(result[back[j].start..back[j].end], spans[j].bot))
              && FirstSeen(IdsAt(result, back)) == Mentioned(table, boundary, text)
  {
    hide *;
    var spans := Scan(table, boundary, text);
    NormalizedIsReversible(table, boundary, text);
    match Normalized(table, boundary, text)
    case None => NobodyMentioned(table, boundary, text);
    case Some(result) =>
      var back := Inverse(text, Tokens(spans));
      forall j | 0 <= j < |back|
        ensures back[j].start + 7 <= back[j].end && IsTokenOf(result[back[j].start..back[j].end], spans[j].bot)
      {
        TokenIsToken(spans[j].bot);
        TokenLength(result[back[j].start..back[j].end], spans[j].bot);
      }
      IdsReadBack(result, back, spans);
      MentionedBots(table, boundary, text);
  }

  lemma TokenLength(t: string, bot: BotId)
    requires IsTokenOf(t, bot)
    ensures |t| == |bot| + 7
  {
  }

  lemma NobodyMentioned(table: map<string, BotId>, boundary: char -> bool, text: string)
    requires Scan(table, boundary, text) == []
    ensures Mentioned(table, boundary, text) == []
  {
    assert Bots([]) == [];
  }

  lemma MentionedBots(table: map<string, BotId>, boundary: char -> bool, text: string)
    ensures Mentioned(table, boundary, text) == FirstSeen(Bots(Scan(table, boundary, text)))
  {
  }

  lemma IdsReadBack(result: string, back: seq<Hole>, spans: seq<Span>)
    requires |back| == |spans|
    requires forall j :: 0 <= j < |back| ==> && back[j].start + 7 <= back[j].end <= |result|
                                             && IsTokenOf(result[back[j].start..back[j].end], spans[j].bot)
    ensures IdsAt(result, back) == Bots(spans)
  {
    forall j | 0 <= j < |back| ensures IdsAt(result, back)[j] == Bots(spans)[j] {
      IdReadBack(result, back[j].start, back[j].end, spans[j].bot);
    }
  }

  lemma IdReadBack(result: string, start: nat, end: nat, bot: BotId)
    requires start + 7 <= end <= |result| && IsTokenOf(result[start..end], bot)
    ensures result[start + 6..end - 1] == bot
  {
    var t, id := result[start..end], result[start + 6..end - 1];
    forall k | 0 <= k < |bot| ensures id[k] == bot[k] {
      assert t[6..|t| - 1][k] == t[6 + k] == result[start + 6 + k];
    }
  }

  lemma EmptyTableFindsNothing(boundary: char -> bool, text: string)
    ensures Scan(map[], boundary, text) == []
  {
    assert forall s: Span :: !IsMention(map[], boundary, text, s);
    ScanIsLeftmostLongest(map[], boundary, text, []);
  }

  // ----- The encoder.

  method EncodeMentionedBots(trim: string -> string, boundary: char -> bool, body: string, bots: seq<Candidate>)
    returns (ids: seq<BotId>, normalized: Option<string>)
    ensures var table, text := WebTable(trim, bots), trim(body);
            && ids == Mentioned(table, UnitBoundary(boundary), text)
            && normalized == Normalized(table, UnitBoundary(boundary), text)
  {
    var text := trim(body);
    if text == "" || |bots| == 0 {
      if |bots| == 0 {
        EmptyTableFindsNothing(UnitBoundary(boundary), text);
      }
      return [], None;
    }
    var list := WebListings(trim, bots);
    var candidates := SortBy(WebBefore, list);
    WebSort(list);
    Text.Utf16GrowsWithPrefix();
    var whole;
    ids, whole := Rewrite(UnitBoundary(boundary), text, candidates);
    MentionsChangeText(FirstWins(list), UnitBoundary(boundary), text);
    normalized := if whole != text then Some(whole) else None;
  }

  /** What the loop knows: the parts so far join to the head of the rewritten text. */
  ghost predicate Written(text: string, done: seq<Span>, parts: seq<string>, lastIndex: nat) {
    && InOrder(|text|, Tokens(done))
    && EndOf(Tokens(done)) == lastIndex <= |text|
    && Concat(parts) == Head(text, Tokens(done))
  }

  lemma WriteNext(text: string, done: seq<Span>, parts: seq<string>, lastIndex: nat, s: Span)
    requires Written(text, done, parts, lastIndex) && lastIndex <= s.start <= s.end <= |text|
    ensures Written(text, done + [s], parts + [text[lastIndex..s.start]] + [Token(s.bot)], s.end)
  {
    TokensAppend(done, s);
    Append(text, Tokens(done), Hole(s.start, s.end, Token(s.bot)));
    ConcatAppend(parts, text[lastIndex..s.start]);
    ConcatAppend(parts + [text[lastIndex..s.start]], Token(s.bot));
  }

  /** What the loop knows at an index; `ids` is a JavaScript set, which keeps the order of insertion. */
  ghost predicate Rewriting(table: map<string, BotId>, boundary: char -> bool, text: string, done: seq<Span>,
                            index: nat,
                            ids: seq<BotId>, parts: seq<string>, lastIndex: nat) {
    && lastIndex <= index <= |text|
    && Walked(Finder(table, boundary, text), |text|, done, index)
    && ids == FirstSeen(Bots(done))
    && Written(text, done, parts, lastIndex)
  }

  lemma RewriteBegins(table: map<string, BotId>, boundary: char -> bool, text: string)
    ensures Rewriting(table, boundary, text, [], 0, [], [], 0)
  {
  }

  lemma RewritePlain(table: map<string, BotId>, boundary: char -> bool, text: string, done: seq<Span>, index: nat,
                     ids: seq<BotId>, parts: seq<string>, lastIndex: nat)
    requires Rewriting(table, boundary, text, done, index, ids, parts, lastIndex)
    requires index < |text| && MentionAt(table, boundary, text, index) == None
    ensures Rewriting(table, boundary, text, done, index + 1, ids, parts, lastIndex)
  {
  }

  function Added(ids: seq<BotId>, id: BotId): seq<BotId> {
    if id in ids then ids else ids + [id]
  }

  lemma RewriteMention(table: map<string, BotId>, boundary: char -> bool, text: string, done: seq<Span>, index: nat,
                       ids: seq<BotId>, parts: seq<string>, lastIndex: nat, s: Span)
    requires Rewriting(table, boundary, text, done, index, ids, parts, lastIndex)
    requires index < |text| && MentionAt(table, boundary, text, index) == Some(s)
    ensures Rewriting(table, boundary, text, done + [s], s.end, Added(ids, s.bot),
                      parts + [text[lastIndex..index]] + [Token(s.bot)], s.end)
  {
    WalkOver(Finder(table, boundary, text), |text|, done, index);
    assert Bots(done + [s]) == Bots(done) + [s.bot];
    FirstSeenAppend(Bots(done), s.bot);
    WriteNext(text, done, parts, lastIndex, s);
  }

  lemma RewriteEnds(table: map<string, BotId>, boundary: char -> bool, text: string, done: seq<Span>,
                    ids: seq<BotId>, parts: seq<string>, lastIndex: nat)
    requires Rewriting(table, boundary, text, done, |text|, ids, parts, lastIndex)
    ensures var spans := Scan(table, boundary, text);
            && ids == FirstSeen(Bots(spans)) && InOrder(|text|, Tokens(spans))
            && Concat(parts + [text[lastIndex..]]) == Splice(text, Tokens(spans))
  {
    WalkEnds(Finder(table, boundary, text), |text|, done, |text|);
    ConcatAppend(parts, text[lastIndex..]);
  }

  method Rewrite(boundary: char -> bool, text: string, candidates: seq<Alias>) returns (ids: seq<BotId>, whole: string)
    requires LongestFirst(Text.Utf16Length, candidates) && Text.GrowsWithPrefix(Text.Utf16Length)
    ensures var spans := Scan(FirstWins(candidates), boundary, text);
            && ids == FirstSeen(Bots(spans))
            && InOrder(|text|, Tokens(spans))
            && whole == Splice(text, Tokens(spans))
  {
    hide *;
    ids := [];
    var parts: seq<string> := [];
    var index: nat, lastIndex: nat := 0, 0;
    ghost var table := FirstWins(candidates);
    ghost var done: seq<Span> := [];
    RewriteBegins(table, boundary, text);
    while index < |text|
      invariant lastIndex <= index <= |text|
      invariant Rewriting(table, boundary, text, done, index, ids, parts, lastIndex)
      decreases |text| - index
    {
      if !IsAt(text[index]) {
        NoAtSignNoMention(table, boundary, text, index);
        RewritePlain(table, boundary, text, done, index, ids, parts, lastIndex);
        index := index + 1;
      } else {
        var j := AliasAt(Text.Utf16Length, candidates, boundary, text, index);
        if j < |candidates| {
          var a := candidates[j];
          ghost var s := Span(index, index + 1 + |a.alias|, a.bot);
          RewriteMention(table, boundary, text, done, index, ids, parts, lastIndex, s);
          ids := Added(ids, a.bot);
          parts := parts + [text[lastIndex..index]];
          parts := parts + [Token(a.bot)];
          index := index + 1 + |a.alias|;
          lastIndex := index;
          done := done + [s];
        } else {
          RewritePlain(table, boundary, text, done, index, ids, parts, lastIndex);
          index := index + 1;
        }
      }
    }
    RewriteEnds(table, boundary, text, done, ids, parts, lastIndex);
    parts := parts + [text[lastIndex..]];
    whole := Concat(parts);
  }
}
