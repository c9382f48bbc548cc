/**
  What it means to mention a bot in a text: the specification both mention
  scanners are held to. A table maps aliases to bots; nothing here depends on
  the order in which aliases are tried.
 */
module Mentions {
  import opened MessageLog

  type BotId = string

  predicate IsAt(c: char) { c == '@' || c == '\U{FF20}' }

  /** The first `k` characters are an alias and what follows does not continue it. */
  predicate Eligible(table: map<string, BotId>, boundary: char -> bool, rest: string, k: nat) {
    k <= |rest| && rest[..k] in table && (k == |rest| || boundary(rest[k]))
  }

  /** The longest eligible alias of at most `k` characters. */
  function BestUpTo(table: map<string, BotId>, boundary: char -> bool, rest: string, k: nat): (r: Option<nat>)
    ensures r.Some? ==> r.value <= k && Eligible(table, boundary, rest, r.value)
    ensures r.Some? ==> forall l :: r.value < l <= k ==> !Eligible(table, boundary, rest, l)
    ensures r.None? ==> forall l :: 0 <= l <= k ==> !Eligible(table, boundary, rest, l)
  {
    if Eligible(table, boundary, rest, k) then Some(k)
    else if k == 0 then None
    else BestUpTo(table, boundary, rest, k - 1)
  }

  function Best(table: map<string, BotId>, boundary: char -> bool, rest: string): Option<nat> {
    BestUpTo(table, boundary, rest, |rest|)
  }

  /** The at-sign stands at `start`; the alias ends before `end`. */
  datatype Span = Span(start: nat, end: nat, bot: BotId)

  /** The mention whose at-sign stands at `i`, if there is one. */
  function MentionAt(table: map<string, BotId>, boundary: char -> bool, text: string, i: nat): (r: Option<Span>)
    ensures r.Some? ==> r.value.start == i < r.value.end <= |text|
  {
    if i < |text| && IsAt(text[i]) then
      var rest := text[i + 1..];
      match Best(table, boundary, rest)
      case None => None
      case Some(k) => Some(Span(i, i + 1 + k, table[rest[..k]]))
    else None
  }

  /** Either at-sign begins a mention, and what is mentioned does not depend on which; no other character does. */
  lemma AtSigns(table: map<string, BotId>, boundary: char -> bool, text: string, i: nat, c: char)
    requires i < |text|
    ensures MentionAt(table, boundary, text[i := '@'], i) == MentionAt(table, boundary, text[i := '\U{FF20}'], i)
    ensures c != '@' && c != '\U{FF20}' ==> MentionAt(table, boundary, text[i := c], i) == None
  {
    assert text[i := '@'][i + 1..] == text[i + 1..] == text[i := '\U{FF20}'][i + 1..];
  }

  function Finder(table: map<string, BotId>, boundary: char -> bool, text: string): nat -> Option<Span> {
    (i: nat) => MentionAt(table, boundary, text, i)
  }

  ghost predicate Sound(find: nat -> Option<Span>, n: nat) {
    forall i: nat :: find(i).Some? ==> find(i).value.start == i < find(i).value.end <= n
  }

  /** One pass from left to right: past a mention where there is one, else past one character. */
  function Pass(find: nat -> Option<Span>, n: nat, i: nat): seq<Span>
    decreases n - i
  {
    if i >= n then []
    else if find(i).Some? && i < find(i).value.end then [find(i).value] + Pass(find, n, find(i).value.end)
    else Pass(find, n, i + 1)
  }

  function Scan(table: map<string, BotId>, boundary: char -> bool, text: string): seq<Span> {
    Pass(Finder(table, boundary, text), |text|, 0)
  }

  lemma FinderIsSound(table: map<string, BotId>, boundary: char -> bool, text: string)
    ensures Sound(Finder(table, boundary, text), |text|)
  {
  }

  function Bots(spans: seq<Span>): (ids: seq<BotId>)
    ensures |ids| == |spans| && forall i :: 0 <= i < |spans| ==> ids[i] == spans[i].bot
  {
    seq(|spans|, i requires 0 <= i < |spans| => spans[i].bot)
  }

  /** Repeats dropped, first occurrences kept in order. */
  function FirstSeen(ids: seq<BotId>): seq<BotId> {
    if |ids| == 0 then []
    else
      var init, last := FirstSeen(ids[..|ids| - 1]), ids[|ids| - 1];
      if last in init then init else init + [last]
  }

  function Mentioned(table: map<string, BotId>, boundary: char -> bool, text: string): seq<BotId> {
    FirstSeen(Bots(Scan(table, boundary, text)))
  }

  // ----- What the pass finds, said without walking.

  ghost predicate Covered(spans: seq<Span>, i: nat) {
    exists j :: 0 <= j < |spans| && spans[j].start <= i < spans[j].end
  }

  /**
    Disjoint mentions in increasing order from `from` on, and no mention at any
    position outside them.
   */
  ghost predicate Leftmost(find: nat -> Option<Span>, n: nat, from: nat, spans: seq<Span>) {
    && (forall j :: 0 <= j < |spans| ==> from <= spans[j].start && find(spans[j].start) == Some(spans[j]))
    && (forall j, l :: 0 <= j < l < |spans| ==> spans[j].end <= spans[l].start)
    && (forall i: nat {:trigger Covered(spans, i)} :: from <= i < n && find(i).Some? ==> Covered(spans, i))
  }

  lemma ConsIsLeftmost(find: nat -> Option<Span>, n: nat, from: nat, rest: seq<Span>)
    requires Sound(find, n) && find(from).Some? && Leftmost(find, n, find(from).value.end, rest)
    ensures Leftmost(find, n, from, [find(from).value] + rest)
  {
    var first := find(from).value;
    var spans := [first] + rest;
    forall i: nat | from <= i < n && find(i).Some? ensures Covered(spans, i) {
      if i < first.end {
        assert spans[0] == first;
      } else {
        assert Covered(rest, i);
        var j :| 0 <= j < |rest| && rest[j].start <= i < rest[j].end;
        assert spans[j + 1] == rest[j];
      }
    }
  }

  lemma SkipIsLeftmost(find: nat -> Option<Span>, n: nat, from: nat, spans: seq<Span>)
    requires find(from).None?
    ensures Leftmost(find, n, from, spans) <==> Leftmost(find, n, from + 1, spans)
  {
  }

  lemma {:induction false} PassIsLeftmost(find: nat -> Option<Span>, n: nat, from: nat)
    requires Sound(find, n)
    ensures Leftmost(find, n, from, Pass(find, n, from))
    decreases n - from
  {
    if from < n {
      if find(from).Some? {
        PassIsLeftmost(find, n, find(from).value.end);
        ConsIsLeftmost(find, n, from, Pass(find, n, find(from).value.end));
      } else {
        PassIsLeftmost(find, n, from + 1);
        SkipIsLeftmost(find, n, from, Pass(find, n, from + 1));
      }
    }
  }

  /** Those conditions leave only one listing. */
  lemma {:induction false} LeftmostIsPass(find: nat -> Option<Span>, n: nat, from: nat, spans: seq<Span>)
    requires Sound(find, n) && Leftmost(find, n, from, spans)
    ensures spans == Pass(find, n, from)
    decreases n - from
  {
    if from >= n {
      assert |spans| == 0;
    } else if find(from).Some? {
      FirstCovers(find, n, from, spans);
      LeftmostIsPass(find, n, spans[0].end, spans[1..]);
    } else {
      SkipIsLeftmost(find, n, from, spans);
      LeftmostIsPass(find, n, from + 1, spans);
    }
  }

  lemma FirstCovers(find: nat -> Option<Span>, n: nat, from: nat, spans: seq<Span>)
    requires Sound(find, n) && Leftmost(find, n, from, spans) && from < n && find(from).Some?
    ensures |spans| > 0 && find(from) == Some(spans[0])
    ensures Leftmost(find, n, spans[0].end, spans[1..])
  {
    assert Covered(spans, from);
    var j :| 0 <= j < |spans| && spans[j].start <= from < spans[j].end;
    assert find(spans[j].start) == Some(spans[j]) && find(spans[0].start) == Some(spans[0]);
    assert j == 0;
    var rest := spans[1..];
    forall i: nat | spans[0].end <= i < n && find(i).Some? ensures Covered(rest, i) {
      assert Covered(spans, i);
      var l :| 0 <= l < |spans| && spans[l].start <= i < spans[l].end;
      assert rest[l - 1] == spans[l];
    }
  }

  ghost predicate Longest(table: map<string, BotId>, boundary: char -> bool, rest: string, k: nat) {
    Eligible(table, boundary, rest, k) && forall l: nat :: k < l <= |rest| ==> !Eligible(table, boundary, rest, l)
  }

  /** What a mention is: the longest table entry behind the at-sign that a boundary follows. */
  ghost predicate IsMention(table: map<string, BotId>, boundary: char -> bool, text: string, s: Span) {
    && s.start + 1 <= s.end <= |text|
    && IsAt(text[s.start])
    && var rest := text[s.start + 1..];
       Longest(table, boundary, rest, s.end - s.start - 1) && s.bot == table[rest[..s.end - s.start - 1]]
  }

  lemma MentionIffFound(table: map<string, BotId>, boundary: char -> bool, text: string, s: Span)
    ensures IsMention(table, boundary, text, s) <==> Finder(table, boundary, text)(s.start) == Some(s)
  {
  }

  lemma MentionsWhereFound(find: nat -> Option<Span>, n: nat, spans: seq<Span>, mention: Span -> bool)
    requires Sound(find, n) && forall s: Span {:trigger mention(s)} :: mention(s) <==> find(s.start) == Some(s)
    ensures Leftmost(find, n, 0, spans) <==>
            && (forall j :: 0 <= j < |spans| ==> mention(spans[j]))
            && (forall j, l :: 0 <= j < l < |spans| ==> spans[j].end <= spans[l].start)
            && (forall s: Span {:trigger Covered(spans, s.start)} :: mention(s) ==> Covered(spans, s.start))
  {
    if forall s: Span {:trigger Covered(spans, s.start)} :: mention(s) ==> Covered(spans, s.start) {
      forall i: nat | i < n && find(i).Some? ensures Covered(spans, i) {
        assert mention(find(i).value);
      }
    }
  }

  lemma LeftmostMentions(table: map<string, BotId>, boundary: char -> bool, text: string, spans: seq<Span>)
    ensures Leftmost(Finder(table, boundary, text), |text|, 0, spans) <==>
            && (forall j :: 0 <= j < |spans| ==> IsMention(table, boundary, text, spans[j]))
            && (forall j, l :: 0 <= j < l < |spans| ==> spans[j].end <= spans[l].start)
            && (forall s: Span {:trigger Covered(spans, s.start)} ::
                  IsMention(table, boundary, text, s) ==> Covered(spans, s.start))
  {
    var find := Finder(table, boundary, text);
    FinderIsSound(table, boundary, text);
    forall s: Span ensures IsMention(table, boundary, text, s) <==> find(s.start) == Some(s) {
      MentionIffFound(table, boundary, text, s);
    }
    MentionsWhereFound(find, |text|, spans, (s: Span) => IsMention(table, boundary, text, s));
    hide IsMention, Finder, Leftmost;
  }

  /**
    The spans of a scan are mentions, disjoint and in increasing order, and every
    at-sign that begins a mention lies inside one of them; and no other listing
    is like that.
   */
  lemma ScanIsLeftmostLongest(table: map<string, BotId>, boundary: char -> bool, text: string, spans: seq<Span>)
    ensures spans == Scan(table, boundary, text) <==>
            && (forall j :: 0 <= j < |spans| ==> IsMention(table, boundary, text, spans[j]))
            && (forall j, l :: 0 <= j < l < |spans| ==> spans[j].end <= spans[l].start)
            && (forall s: Span {:trigger Covered(spans, s.start)} ::
                  IsMention(table, boundary, text, s) ==> Covered(spans, s.start))
  {
    var find := Finder(table, boundary, text);
    FinderIsSound(table, boundary, text);
    LeftmostMentions(table, boundary, text, spans);
    PassIsLeftmost(find, |text|, 0);
    if Leftmost(find, |text|, 0, spans) {
      LeftmostIsPass(find, |text|, 0, spans);
    }
    hide Leftmost, Finder, IsMention, Covered, Pass;
  }

  // ----- The list of bots.

  ghost predicate NoRepeats(ids: seq<BotId>) {
    forall i, j :: 0 <= i < j < |ids| ==> ids[i] != ids[j]
  }

  /** `x` occurs at a place where `y` has not occurred yet. */
  ghost predicate SeenBefore(ids: seq<BotId>, x: BotId, y: BotId) {
    exists k :: 0 <= k < |ids| && ids[k] == x && y !in ids[..k + 1]
  }

  lemma SeenBeforeNew(ids: seq<BotId>, x: BotId, y: BotId)
    requires x in ids && y !in ids
    ensures SeenBefore(ids, x, y)
  {
  }

  lemma SeenBeforeGrows(ids: seq<BotId>, last: BotId, x: BotId, y: BotId)
    requires SeenBefore(ids, x, y)
    ensures SeenBefore(ids + [last], x, y)
  {
    var k :| 0 <= k < |ids| && ids[k] == x && y !in ids[..k + 1];
    assert (ids + [last])[..k + 1] == ids[..k + 1] && (ids + [last])[k] == x;
  }

  /** `FirstSeen` keeps every id once, in the order of first occurrence. */
  lemma {:induction false} FirstSeenKeepsFirsts(ids: seq<BotId>)
    ensures NoRepeats(FirstSeen(ids))
    ensures forall x :: x in FirstSeen(ids) <==> x in ids
    ensures forall i, j :: 0 <= i < j < |FirstSeen(ids)| ==> SeenBefore(ids, FirstSeen(ids)[i], FirstSeen(ids)[j])
  {
    if |ids| > 0 {
      var init, last := ids[..|ids| - 1], ids[|ids| - 1];
      FirstSeenKeepsFirsts(init);
      var r, prev := FirstSeen(ids), FirstSeen(init);
      assert ids == init + [last];
      forall i, j | 0 <= i < j < |r| ensures SeenBefore(ids, r[i], r[j]) {
        assert r[i] == prev[i] && prev[i] in init;
        if j < |prev| {
          assert r[j] == prev[j];
        } else {
          SeenBeforeNew(init, r[i], last);
        }
        SeenBeforeGrows(init, last, r[i], r[j]);
      }
    }
  }

  lemma FirstSeenAppend(ids: seq<BotId>, x: BotId)
    ensures FirstSeen(ids + [x]) == if x in FirstSeen(ids) then FirstSeen(ids) else FirstSeen(ids) + [x]
  {
  }

  lemma {:induction false} FirstSeenOfDistinct(ids: seq<BotId>)
    requires NoRepeats(ids)
    ensures FirstSeen(ids) == ids
  {
    if |ids| > 0 {
      var init := ids[..|ids| - 1];
      FirstSeenOfDistinct(init);
      assert ids == init + [ids[|ids| - 1]];
    }
  }

  /** Ids seen already add nothing. */
  lemma {:induction false} FirstSeenAbsorbs(ids: seq<BotId>, more: seq<BotId>)
    requires forall x :: x in more ==> x in ids
    ensures FirstSeen(ids + more) == FirstSeen(ids)
  {
    if |more| == 0 {
      assert ids + more == ids;
    } else {
      var init := more[..|more| - 1];
      FirstSeenAbsorbs(ids, init);
      assert (ids + more)[..|ids + more| - 1] == ids + init;
      FirstSeenKeepsFirsts(ids);
    }
  }
}
