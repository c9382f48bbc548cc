/** Replacing spans of a text and putting them back. */
module Splices {

  /** The characters from `start` up to `end` give way to `with`. */
  datatype Hole = Hole(start: nat, end: nat, with: string)

  function EndOf(holes: seq<Hole>): nat {
    if |holes| == 0 then 0 else holes[|holes| - 1].end
  }

  /** Each hole begins where the one before has ended, or later. */
  predicate InOrder(n: nat, holes: seq<Hole>) {
    |holes| == 0 ||
    (InOrder(n, holes[..|holes| - 1]) && EndOf(holes[..|holes| - 1]) <= holes[|holes| - 1].start <= EndOf(holes) <= n)
  }

  /** What the text up to the end of the last hole becomes. */
  function Head(text: string, holes: seq<Hole>): string
    requires InOrder(|text|, holes)
  {
    if |holes| == 0 then ""
    else
      var init, last := holes[..|holes| - 1], holes[|holes| - 1];
      Head(text, init) + text[EndOf(init)..last.start] + last.with
  }

  function Splice(text: string, holes: seq<Hole>): string
    requires InOrder(|text|, holes)
  {
    assert EndOf(holes) <= |text|;
    Head(text, holes) + text[EndOf(holes)..]
  }

  /** The hole that undoes the last one. */
  function Undo(text: string, init: seq<Hole>, last: Hole): Hole
    requires InOrder(|text|, init) && EndOf(init) <= last.start <= last.end <= |text|
  {
    var at := |Head(text, init)| + last.start - EndOf(init);
    Hole(at, at + |last.with|, text[last.start..last.end])
  }

  /** Where the replacements stand in the result, each with the text it replaced. */
  function Inverse(text: string, holes: seq<Hole>): (back: seq<Hole>)
    requires InOrder(|text|, holes)
    ensures |back| == |holes|
  {
    if |holes| == 0 then []
    else
      var init, last := holes[..|holes| - 1], holes[|holes| - 1];
      Inverse(text, init) + [Undo(text, init, last)]
  }

  lemma AppendInOrder(n: nat, init: seq<Hole>, last: Hole)
    requires InOrder(n, init) && EndOf(init) <= last.start <= last.end <= n
    ensures InOrder(n, init + [last])
  {
  }

  lemma Append(text: string, init: seq<Hole>, last: Hole)
    requires InOrder(|text|, init) && EndOf(init) <= last.start <= last.end <= |text|
    ensures InOrder(|text|, init + [last]) && EndOf(init + [last]) == last.end
    ensures Head(text, init + [last]) == Head(text, init) + text[EndOf(init)..last.start] + last.with
    ensures Inverse(text, init + [last]) == Inverse(text, init) + [Undo(text, init, last)]
  {
  }

  lemma PrefixesJoin(text: string, i: nat, j: nat, k: nat)
    requires i <= j <= k <= |text|
    ensures text[..i] + text[i..j] + text[j..k] == text[..k]
  {
  }

  lemma {:induction false} InverseInOrder(text: string, holes: seq<Hole>, n: nat)
    requires InOrder(|text|, holes) && |Head(text, holes)| <= n
    ensures InOrder(n, Inverse(text, holes)) && EndOf(Inverse(text, holes)) == |Head(text, holes)|
  {
    if |holes| > 0 {
      var init, last := holes[..|holes| - 1], holes[|holes| - 1];
      InverseInOrder(text, init, n);
      var before := Inverse(text, init);
      assert (before + [Undo(text, init, last)])[..|before|] == before;
    }
  }

  lemma SliceOfPrefix(whole: string, a: string, b: string, c: string)
    requires a + b + c <= whole
    ensures a <= whole && whole[|a|..|a| + |b|] == b && whole[|a| + |b|..|a| + |b| + |c|] == c
  {
  }

  /** Each replacement stands in the result where `Inverse` says. */
  lemma {:induction false} ReplacementStands(text: string, holes: seq<Hole>, whole: string, j: nat)
    requires InOrder(|text|, holes) && Head(text, holes) <= whole && j < |holes|
    ensures var b := Inverse(text, holes)[j];
            b.start <= b.end <= |whole| && whole[b.start..b.end] == holes[j].with
  {
    var init, last := holes[..|holes| - 1], holes[|holes| - 1];
    SliceOfPrefix(whole, Head(text, init), text[EndOf(init)..last.start], last.with);
    if j < |init| {
      ReplacementStands(text, init, whole, j);
      assert Inverse(text, holes)[j] == Inverse(text, init)[j];
    }
  }

  lemma HeadBackStep(text: string, init: seq<Hole>, last: Hole, whole: string)
    requires InOrder(|text|, init) && EndOf(init) <= last.start <= last.end <= |text|
    requires Head(text, init) + text[EndOf(init)..last.start] + last.with <= whole
    requires InOrder(|whole|, Inverse(text, init)) && EndOf(Inverse(text, init)) == |Head(text, init)|
    requires Head(whole, Inverse(text, init)) == text[..EndOf(init)]
    ensures InOrder(|whole|, Inverse(text, init + [last]))
    ensures Head(whole, Inverse(text, init + [last])) == text[..last.end]
  {
    hide *;
    var head, gap, h := Head(text, init), text[EndOf(init)..last.start], Undo(text, init, last);
    UndoStands(text, init, last);
    SliceOfPrefix(whole, head, gap, last.with);
    Append(text, init, last);
    assert whole[|head|..h.start] == gap;
    Append(whole, Inverse(text, init), h);
    PrefixesJoin(text, EndOf(init), last.start, last.end);
  }

  lemma UndoStands(text: string, init: seq<Hole>, last: Hole)
    requires InOrder(|text|, init) && EndOf(init) <= last.start <= last.end <= |text|
    ensures var h := Undo(text, init, last);
            && h.start == |Head(text, init)| + (last.start - EndOf(init)) && h.end == h.start + |last.with|
            && h.with == text[last.start..last.end]
  {
  }

  lemma {:induction false} HeadBack(text: string, holes: seq<Hole>, whole: string)
    requires InOrder(|text|, holes) && Head(text, holes) <= whole
    ensures InOrder(|whole|, Inverse(text, holes))
    ensures Head(whole, Inverse(text, holes)) == text[..EndOf(holes)]
  {
    if |holes| > 0 {
      var init, last := holes[..|holes| - 1], holes[|holes| - 1];
      assert holes == init + [last];
      assert Head(text, init) <= Head(text, holes);
      HeadBack(text, init, whole);
      InverseInOrder(text, init, |whole|);
      HeadBackStep(text, init, last, whole);
    }
  }

  lemma TailOfWhole(whole: string, head: string, tail: string)
    requires whole == head + tail
    ensures head <= whole && whole[|head|..] == tail
  {
  }

  lemma SpliceBack(text: string, holes: seq<Hole>)
    requires InOrder(|text|, holes)
    ensures var result := Splice(text, holes);
            InOrder(|result|, Inverse(text, holes)) && Splice(result, Inverse(text, holes)) == text
  {
    var result, end := Splice(text, holes), EndOf(holes);
    TailOfWhole(result, Head(text, holes), text[end..]);
    HeadBack(text, holes, result);
    InverseInOrder(text, holes, |result|);
    hide InOrder, Head, Inverse, EndOf;
    assert text[..end] + text[end..] == text;
  }

  /** The replacements stand where `Inverse` says, and undoing them there gives the text again. */
  lemma SpliceIsUndone(text: string, holes: seq<Hole>)
    requires InOrder(|text|, holes)
    ensures var result, back := Splice(text, holes), Inverse(text, holes);
            && InOrder(|result|, back)
            && (forall j :: 0 <= j < |back| ==> back[j].start <= back[j].end <= |result|
                                                && result[back[j].start..back[j].end] == holes[j].with)
            && Splice(result, back) == text
  {
    var result, back := Splice(text, holes), Inverse(text, holes);
    assert Head(text, holes) <= result;
    SpliceBack(text, holes);
    hide *;
    forall j | 0 <= j < |back|
      ensures back[j].start <= back[j].end <= |result| && result[back[j].start..back[j].end] == holes[j].with
    {
      ReplacementStands(text, holes, result, j);
    }
  }

  /** Up to its first hole the text stays as it is, and the replacement follows. */
  lemma {:induction false} HeadBegins(text: string, holes: seq<Hole>)
    requires InOrder(|text|, holes) && |holes| > 0
    ensures holes[0].start <= |text| && text[..holes[0].start] + holes[0].with <= Head(text, holes)
  {
    var init, last := holes[..|holes| - 1], holes[|holes| - 1];
    if |init| > 0 {
      HeadBegins(text, init);
      assert Head(text, init) <= Head(text, holes);
    } else {
      assert text[0..last.start] == text[..last.start];
    }
  }

  /** A first replacement that begins with another character changes the text. */
  lemma SpliceChanges(text: string, holes: seq<Hole>)
    requires InOrder(|text|, holes) && |holes| > 0 && holes[0].start < |text|
    requires holes[0].with != "" && holes[0].with[0] != text[holes[0].start]
    ensures Splice(text, holes) != text
  {
    HeadBegins(text, holes);
    var start, begin := holes[0].start, text[..holes[0].start] + holes[0].with;
    assert begin[start] == holes[0].with[0];
    assert begin <= Splice(text, holes);
  }
}
