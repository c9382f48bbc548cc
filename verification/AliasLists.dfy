/**
  Trying aliases one after the other in a sorted list, which is how both mention
  scanners find the longest one. The measure of length they sort by does not
  matter as long as it grows from a prefix to its extensions.
 */
module AliasLists {
  import opened MessageLog
  import opened Mentions
  import opened Sorting
  import Text

  datatype Alias = Alias(alias: string, bot: BotId)

  /** The aliases of one bot. */
  function Each(aliases: seq<string>, bot: BotId): (r: seq<Alias>)
    ensures |r| == |aliases| && forall i :: 0 <= i < |aliases| ==> r[i] == Alias(aliases[i], bot)
  {
    seq(|aliases|, i requires 0 <= i < |aliases| => Alias(aliases[i], bot))
  }

  /** `hasMentionBoundary` of what follows the alias. */
  predicate HasBoundary(boundary: char -> bool, remaining: string) {
    remaining == "" || boundary(remaining[0])
  }

  predicate Fits(boundary: char -> bool, rest: string, a: Alias) {
    a.alias <= rest && HasBoundary(boundary, rest[|a.alias|..])
  }

  /** Each alias with the bot that is listed first for it. */
  function FirstWins(list: seq<Alias>): map<string, BotId> {
    if |list| == 0 then map[]
    else
      var init, last := FirstWins(list[..|list| - 1]), list[|list| - 1];
      if last.alias in init then init else init[last.alias := last.bot]
  }

  ghost predicate Lists(list: seq<Alias>, a: string) {
    exists i :: 0 <= i < |list| && list[i].alias == a
  }

  lemma ListsAppend(list: seq<Alias>, x: Alias, a: string)
    ensures Lists(list + [x], a) <==> Lists(list, a) || a == x.alias
  {
    if Lists(list, a) {
      var i :| 0 <= i < |list| && list[i].alias == a;
      assert (list + [x])[i].alias == a;
    }
    assert (list + [x])[|list|] == x;
  }

  lemma {:induction false} FirstWinsKeys(list: seq<Alias>, a: string)
    ensures a in FirstWins(list) <==> Lists(list, a)
  {
    if |list| > 0 {
      var init, last := list[..|list| - 1], list[|list| - 1];
      FirstWinsKeys(init, a);
      ListsAppend(init, last, a);
      assert list == init + [last];
    }
  }

  lemma {:induction false} FirstWinsEntry(list: seq<Alias>, j: nat)
    requires j < |list| && forall i :: 0 <= i < j ==> list[i].alias != list[j].alias
    ensures list[j].alias in FirstWins(list) && FirstWins(list)[list[j].alias] == list[j].bot
  {
    var init, last := list[..|list| - 1], list[|list| - 1];
    if j < |init| {
      FirstWinsEntry(init, j);
    } else {
      FirstWinsKeys(init, last.alias);
    }
  }

  ghost predicate LongestFirst(size: string -> nat, list: seq<Alias>) {
    forall i, j :: 0 <= i < j < |list| ==> size(list[i].alias) >= size(list[j].alias)
  }

  lemma FitsIsEligible(boundary: char -> bool, rest: string, a: Alias, table: map<string, BotId>)
    requires a.alias in table
    ensures Fits(boundary, rest, a) ==> rest[..|a.alias|] == a.alias && Eligible(table, boundary, rest, |a.alias|)
    ensures forall k: nat :: Eligible(table, boundary, rest, k) && rest[..k] == a.alias ==> Fits(boundary, rest, a)
  {
  }

  /** A longer eligible alias would stand before `j`, and fit. */
  lemma NoLongerFit(size: string -> nat, list: seq<Alias>, boundary: char -> bool, rest: string, j: nat, l: nat)
    requires Text.GrowsWithPrefix(size) && LongestFirst(size, list)
    requires j < |list| && Fits(boundary, rest, list[j]) && forall i :: 0 <= i < j ==> !Fits(boundary, rest, list[i])
    requires |list[j].alias| < l <= |rest|
    ensures !Eligible(FirstWins(list), boundary, rest, l)
  {
    FirstWinsKeys(list, rest[..l]);
    if Eligible(FirstWins(list), boundary, rest, l) {
      var i :| 0 <= i < |list| && list[i].alias == rest[..l];
      FitsIsEligible(boundary, rest, list[i], FirstWins(list));
    }
  }

  /** The first entry that fits is the longest eligible alias, and its bot is the one the table names. */
  lemma FirstFitIsBest(size: string -> nat, list: seq<Alias>, boundary: char -> bool, rest: string, j: nat)
    requires Text.GrowsWithPrefix(size) && LongestFirst(size, list)
    requires j < |list| && Fits(boundary, rest, list[j]) && forall i :: 0 <= i < j ==> !Fits(boundary, rest, list[i])
    ensures var k := |list[j].alias|;
            && k <= |rest| && rest[..k] == list[j].alias
            && Best(FirstWins(list), boundary, rest) == Some(k)
            && list[j].alias in FirstWins(list) && FirstWins(list)[list[j].alias] == list[j].bot
  {
    var table, k := FirstWins(list), |list[j].alias|;
    FirstWinsEntry(list, j);
    assert rest[..k] == list[j].alias;
    assert Eligible(table, boundary, rest, k);
    forall l: nat | k < l <= |rest| ensures !Eligible(table, boundary, rest, l) {
      NoLongerFit(size, list, boundary, rest, j, l);
    }
  }

  lemma NoFitIsNone(list: seq<Alias>, boundary: char -> bool, rest: string)
    requires forall i :: 0 <= i < |list| ==> !Fits(boundary, rest, list[i])
    ensures Best(FirstWins(list), boundary, rest) == None
  {
    forall l: nat | l <= |rest| ensures !Eligible(FirstWins(list), boundary, rest, l) {
      FirstWinsKeys(list, rest[..l]);
      if Eligible(FirstWins(list), boundary, rest, l) {
        var i :| 0 <= i < |list| && list[i].alias == rest[..l];
        FitsIsEligible(boundary, rest, list[i], FirstWins(list));
      }
    }
  }

  /** The position of the first entry that fits, or the length of the list. */
  method FirstFit(list: seq<Alias>, boundary: char -> bool, rest: string) returns (j: nat)
    ensures j <= |list| && (j < |list| ==> Fits(boundary, rest, list[j]))
    ensures forall i :: 0 <= i < j ==> !Fits(boundary, rest, list[i])
  {
    j := 0;
    while j < |list| && !Fits(boundary, rest, list[j])
      invariant j <= |list| && forall i :: 0 <= i < j ==> !Fits(boundary, rest, list[i])
    {
      j := j + 1;
    }
  }

  // ----- Sorting an alias list.

  lemma SwapKeepsFirstWins(before: seq<Alias>, x: Alias, y: Alias)
    requires x.alias != y.alias
    ensures FirstWins(before + [x] + [y]) == FirstWins(before + [y] + [x])
  {
  }

  lemma FirstWinsAppend(a: seq<Alias>, b: seq<Alias>, x: Alias)
    requires FirstWins(a) == FirstWins(b)
    ensures FirstWins(a + [x]) == FirstWins(b + [x])
  {
  }

  lemma {:induction false} InsertKeepsFirstWins(less: (Alias, Alias) -> bool, x: Alias, xs: seq<Alias>)
    requires forall y :: less(x, y) ==> x.alias != y.alias
    ensures FirstWins(Insert(less, x, xs)) == FirstWins(xs + [x])
  {
    if |xs| > 0 && less(x, xs[|xs| - 1]) {
      var init, last := xs[..|xs| - 1], xs[|xs| - 1];
      assert Insert(less, x, xs) == Insert(less, x, init) + [last] && xs == init + [last];
      InsertKeepsFirstWins(less, x, init);
      hide FirstWins, Insert;
      FirstWinsAppend(Insert(less, x, init), init + [x], last);
      SwapKeepsFirstWins(init, x, last);
    } else {
      assert [] + [x] == [x];
    }
  }

  /** A stable sort that only moves entries past other aliases keeps which bot comes first for each. */
  lemma {:induction false} SortKeepsFirstWins(less: (Alias, Alias) -> bool, xs: seq<Alias>)
    requires forall x, y :: less(x, y) ==> x.alias != y.alias
    ensures FirstWins(SortBy(less, xs)) == FirstWins(xs)
  {
    if |xs| > 0 {
      var init, last := xs[..|xs| - 1], xs[|xs| - 1];
      SortKeepsFirstWins(less, init);
      assert SortBy(less, xs) == Insert(less, last, SortBy(less, init));
      InsertKeepsFirstWins(less, last, SortBy(less, init));
      FirstWinsAppend(SortBy(less, init), init, last);
      assert xs == init + [last];
    }
  }

  /** One step of a scan at an at-sign. */
  lemma AtSignStep(size: string -> nat, list: seq<Alias>, boundary: char -> bool, text: string, i: nat, j: nat)
    requires Text.GrowsWithPrefix(size) && LongestFirst(size, list)
    requires i < |text| && IsAt(text[i]) && j <= |list|
    requires j < |list| ==> Fits(boundary, text[i + 1..], list[j])
    requires forall l :: 0 <= l < j ==> !Fits(boundary, text[i + 1..], list[l])
    ensures MentionAt(FirstWins(list), boundary, text, i)
            == if j < |list| then Some(Span(i, i + 1 + |list[j].alias|, list[j].bot)) else None
  {
    if j < |list| {
      FirstFitIsBest(size, list, boundary, text[i + 1..], j);
    } else {
      NoFitIsNone(list, boundary, text[i + 1..]);
    }
  }

  lemma NoAtSignNoMention(table: map<string, BotId>, boundary: char -> bool, text: string, i: nat)
    requires i < |text| && !IsAt(text[i])
    ensures MentionAt(table, boundary, text, i) == None
  {
  }

  /** At an at-sign: the position of the alias that is mentioned there, or the length of the list. */
  method AliasAt(size: string -> nat, list: seq<Alias>, boundary: char -> bool, text: string, i: nat) returns (j: nat)
    requires Text.GrowsWithPrefix(size) && LongestFirst(size, list)
    requires i < |text| && IsAt(text[i])
    ensures j <= |list|
    ensures MentionAt(FirstWins(list), boundary, text, i)
            == if j < |list| then Some(Span(i, i + 1 + |list[j].alias|, list[j].bot)) else None
  {
    j := FirstFit(list, boundary, text[i + 1..]);
    AtSignStep(size, list, boundary, text, i, j);
  }

  /** `mentioned` lists the bots of the spans so far, and `seen` is the same as a set. */
  ghost predicate Noted(done: seq<Span>, mentioned: seq<BotId>, seen: set<BotId>) {
    mentioned == FirstSeen(Bots(done)) && forall b :: b in seen <==> b in mentioned
  }

  lemma NoteNext(done: seq<Span>, mentioned: seq<BotId>, seen: set<BotId>, s: Span)
    requires Noted(done, mentioned, seen)
    ensures s.bot in seen ==> Noted(done + [s], mentioned, seen)
    ensures s.bot !in seen ==> Noted(done + [s], mentioned + [s.bot], seen + {s.bot})
  {
    assert Bots(done + [s]) == Bots(done) + [s.bot];
    FirstSeenAppend(Bots(done), s.bot);
  }

  // ----- The state of a scanning loop at an index.

  /** The spans found so far and those still to come make up the whole pass. */
  ghost predicate Walked(find: nat -> Option<Span>, n: nat, done: seq<Span>, index: nat) {
    done + Pass(find, n, index) == Pass(find, n, 0)
  }

  lemma WalkOver(find: nat -> Option<Span>, n: nat, done: seq<Span>, index: nat)
    requires Walked(find, n, done, index) && index < n && find(index).Some? && index < find(index).value.end
    ensures Walked(find, n, done + [find(index).value], find(index).value.end)
  {
  }

  lemma WalkEnds(find: nat -> Option<Span>, n: nat, done: seq<Span>, index: nat)
    requires Walked(find, n, done, index) && index >= n
    ensures done == Pass(find, n, 0)
  {
  }
}
