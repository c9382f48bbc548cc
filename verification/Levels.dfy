/**
  What normalising does to the levels of a topic: each escape is decoded where it
  stands, and an escaped slash makes one level two
  (backend/internal/service/message_service.go:240-252).
 */
module Levels {
  import opened MessageLog
  import opened Topics
  import Text

  lemma ExtendLast(parts: seq<string>, more: seq<string>, c: char)
    requires |more| > 0
    ensures (parts + more)[|parts + more| - 1 := (parts + more)[|parts + more| - 1] + [c]]
            == parts + more[|more| - 1 := more[|more| - 1] + [c]]
  {
  }

  lemma SplitJoinedStep(sep: char, a: string, b: string, c: char)
    requires Split(sep, a + [sep] + b) == Split(sep, a) + Split(sep, b)
    ensures Split(sep, a + [sep] + (b + [c])) == Split(sep, a) + Split(sep, b + [c])
  {
    hide *;
    SplitStep(sep, a + [sep] + b, c);
    SplitStep(sep, b, c);
    ExtendLast(Split(sep, a), Split(sep, b), c);
    assert a + [sep] + (b + [c]) == a + [sep] + b + [c];
    assert Split(sep, a) + Split(sep, b) + [""] == Split(sep, a) + (Split(sep, b) + [""]);
  }

  lemma {:induction false} SplitJoined(sep: char, a: string, b: string)
    ensures Split(sep, a + [sep] + b) == Split(sep, a) + Split(sep, b)
  {
    if b == "" {
      SplitStep(sep, a, sep);
      assert a + [sep] + b == a + [sep];
    } else {
      hide *;
      SplitJoined(sep, a, b[..|b| - 1]);
      SplitJoinedStep(sep, a, b[..|b| - 1], b[|b| - 1]);
      assert b == b[..|b| - 1] + [b[|b| - 1]];
    }
  }

  function Prefixed(c: char, r: Option<string>): Option<string> {
    match r case None => None case Some(t) => Some([c] + t)
  }

  lemma UnescapePlainFirst(c: char, s: string)
    requires c != '%'
    ensures PathUnescape([c] + s) == Prefixed(c, PathUnescape(s))
  {
    assert ([c] + s)[1..] == s;
  }

  lemma UnescapeEscaped(h: char, l: char, s: string)
    ensures PathUnescape(['%', h, l] + s)
            == if HexValue(h).None? || HexValue(l).None? then None
               else Prefixed((16 * HexValue(h).value + HexValue(l).value) as char, PathUnescape(s))
  {
    assert (['%', h, l] + s)[3..] == s;
  }

  /** An escape that the slash cuts short is malformed with and without what follows. */
  lemma UnescapeCut(a: string, b: string)
    requires 0 < |a| < 3 && a[0] == '%'
    ensures PathUnescape(a) == None && PathUnescape(a + ['/'] + b) == None
  {
    var whole := a + ['/'] + b;
    assert whole[|a|] == '/' && whole[0] == '%' && HexValue('/').None?;
    assert |a| == 1 || |a| == 2;
  }

  lemma PrefixedJoins(c: char, x: Option<string>, y: Option<string>)
    ensures Joined(Prefixed(c, x), y) == Prefixed(c, Joined(x, y))
  {
    if x.Some? && y.Some? {
      assert [c] + (x.value + ['/'] + y.value) == [c] + x.value + ['/'] + y.value;
    }
  }

  function Joined(x: Option<string>, y: Option<string>): Option<string> {
    if x.None? || y.None? then None else Some(x.value + ['/'] + y.value)
  }

  lemma JoinedNothing(b: string)
    ensures PathUnescape("" + ['/'] + b) == Joined(PathUnescape(""), PathUnescape(b))
  {
    UnescapePlainFirst('/', b);
    assert "" + ['/'] + b == ['/'] + b;
    assert PathUnescape(b).Some? ==> "" + ['/'] + PathUnescape(b).value == ['/'] + PathUnescape(b).value;
  }

  lemma JoinedPlain(c: char, a: string, b: string)
    requires c != '%' && PathUnescape(a + ['/'] + b) == Joined(PathUnescape(a), PathUnescape(b))
    ensures PathUnescape([c] + a + ['/'] + b) == Joined(PathUnescape([c] + a), PathUnescape(b))
  {
    hide *;
    UnescapePlainFirst(c, a + ['/'] + b);
    UnescapePlainFirst(c, a);
    PrefixedJoins(c, PathUnescape(a), PathUnescape(b));
    assert [c] + a + ['/'] + b == [c] + (a + ['/'] + b);
  }

  lemma JoinedEscape(h: char, l: char, a: string, b: string)
    requires PathUnescape(a + ['/'] + b) == Joined(PathUnescape(a), PathUnescape(b))
    ensures PathUnescape(['%', h, l] + a + ['/'] + b) == Joined(PathUnescape(['%', h, l] + a), PathUnescape(b))
  {
    hide PathUnescape, Joined, Prefixed;
    UnescapeEscaped(h, l, a + ['/'] + b);
    UnescapeEscaped(h, l, a);
    assert ['%', h, l] + a + ['/'] + b == ['%', h, l] + (a + ['/'] + b);
    if HexValue(h).Some? && HexValue(l).Some? {
      PrefixedJoins((16 * HexValue(h).value + HexValue(l).value) as char, PathUnescape(a), PathUnescape(b));
    } else {
      CutJoins(PathUnescape(b));
    }
  }

  /** Decoding goes level by level: no escape reaches across a slash. */
  lemma {:induction false} UnescapeJoined(a: string, b: string)
    ensures PathUnescape(a + ['/'] + b) == Joined(PathUnescape(a), PathUnescape(b))
  {
    hide *;
    if a == "" {
      JoinedNothing(b);
    } else if a[0] != '%' {
      UnescapeJoined(a[1..], b);
      JoinedPlain(a[0], a[1..], b);
      assert a == [a[0]] + a[1..];
    } else if |a| < 3 {
      UnescapeCut(a, b);
      CutJoins(PathUnescape(b));
    } else {
      UnescapeJoined(a[3..], b);
      JoinedEscape(a[1], a[2], a[3..], b);
      assert a == ['%', a[1], a[2]] + a[3..];
    }
  }

  lemma CutJoins(y: Option<string>)
    ensures Joined(None, y) == None
  {
  }

  lemma OneLevel(s: string)
    ensures |Split('/', s)| == 1 <==> Split('/', s) == [s]
  {
    JoinOfSplit('/', s);
  }

  lemma SeveralLevels(s: string)
    requires '/' in s
    ensures |Split('/', s)| > 1
  {
    OneLevel(s);
    SplitLeavesNoSeparator('/', s, 0);
  }

  /** Decoding makes no level out of several; where it makes none into several, it decodes each. */
  lemma {:induction false} UnescapeLevels(parts: seq<string>, k: nat)
    requires k < |parts| && PathUnescape(Join('/', parts)).Some?
    ensures var levels := Split('/', PathUnescape(Join('/', parts)).value);
            |levels| >= |parts| && (|levels| == |parts| ==> PathUnescape(parts[k]) == Some(levels[k]))
  {
    if |parts| == 1 {
      OneLevel(PathUnescape(parts[0]).value);
    } else {
      var init, last := parts[..|parts| - 1], parts[|parts| - 1];
      UnescapeJoined(Join('/', init), last);
      var x, y := PathUnescape(Join('/', init)).value, PathUnescape(last).value;
      SplitJoined('/', x, y);
      UnescapeLevels(init, if k < |init| then k else 0);
      OneLevel(y);
    }
  }

  lemma UnescapeSame(s: string, t: string)
    requires PathUnescape(s) == Some(t)
    ensures |t| <= |s| && (|t| == |s| ==> t == s)
  {
    if '%' !in s {
      UnescapePlain(s);
    }
  }

  /** Trimming a chat topic can only shorten its last level. */
  lemma TrimLevels(trim: string -> string, space: char -> bool, c: string)
    requires Text.TrimsBy(trim, space) && !space('c') && !space('/') && "chat/" <= c
    ensures var raw, levels := Split('/', c), Split('/', trim(c));
            |levels| == |raw| && levels[..|raw| - 1] == raw[..|raw| - 1] && levels[|raw| - 1] <= raw[|raw| - 1]
  {
    var raw := Split('/', c);
    var init, last := raw[..|raw| - 1], raw[|raw| - 1];
    JoinOfSplit('/', c);
    assert c[4] == '/';
    SeveralLevels(c);
    var head := Join('/', init) + ['/'];
    assert c == head + last && c[0] == 'c' && head[0] == c[0];
    assert Text.Trimmed(space, head) && head <= trim(c) <= c;
    var rest := trim(c)[|head|..];
    assert trim(c) == head + rest && rest <= last;
    forall k | 0 <= k < |init| ensures '/' !in init[k] {
      SplitLeavesNoSeparator('/', c, k);
    }
    SplitLeavesNoSeparator('/', c, |raw| - 1);
    assert '/' !in rest;
    SplitOfJoin('/', init);
    SplitPiece('/', Join('/', init), rest);
  }

  /**
    Normalising a chat topic leaves it no fewer levels. Where it leaves as many,
    no level has grown, and a level of the same length is the same.
   */
  lemma NormalizedLevels(trim: string -> string, space: char -> bool, c: string, k: nat)
    requires Text.TrimsBy(trim, space) && !space('c') && !space('/') && "chat/" <= c && k < |Split('/', c)|
    ensures var raw, levels := Split('/', c), Split('/', Normalize(trim, c));
            |levels| >= |raw|
            && (|levels| == |raw| ==>
                  |levels[k]| <= |raw[k]| && (|levels[k]| == |raw[k]| ==> levels[k] == raw[k]))
  {
    ChatStaysChat(trim, space, c);
    TrimLevels(trim, space, c);
    var t := trim(c);
    var trimmed := Split('/', t);
    JoinOfSplit('/', t);
    if PathUnescape(t).Some? {
      UnescapeLevels(trimmed, k);
      if |Split('/', Normalize(trim, c))| == |trimmed| {
        UnescapeSame(trimmed[k], Split('/', Normalize(trim, c))[k]);
      }
    }
    var raw := Split('/', c);
    assert k < |raw| - 1 ==> trimmed[k] == trimmed[..|raw| - 1][k] == raw[..|raw| - 1][k] == raw[k];
  }

  lemma LastLevelTrimmed(trim: string -> string, space: char -> bool, c: string)
    requires Text.TrimsBy(trim, space) && !space('c') && !space('/') && "chat/" <= c
    requires Text.Trimmed(space, Split('/', c)[|Split('/', c)| - 1])
    ensures trim(c) == c
  {
    var raw := Split('/', c);
    JoinOfSplit('/', c);
    assert c[4] == '/' && c[0] == "chat/"[0];
    SeveralLevels(c);
    assert c == Join('/', raw[..|raw| - 1]) + ['/'] + raw[|raw| - 1];
    assert Text.Trimmed(space, c) && c <= trim(c);
  }

  /** Where it leaves as many, a level without percent sign and outer white space stays what it is. */
  lemma PlainLevelStays(trim: string -> string, space: char -> bool, c: string, k: nat)
    requires Text.TrimsBy(trim, space) && !space('c') && !space('/') && "chat/" <= c
    requires k < |Split('/', c)| && Plain(space, Split('/', c)[k])
    ensures var raw, levels := Split('/', c), Split('/', Normalize(trim, c));
            |levels| == |raw| ==> levels[k] == raw[k]
  {
    ChatStaysChat(trim, space, c);
    TrimLevels(trim, space, c);
    var t, raw := trim(c), Split('/', c);
    var trimmed := Split('/', t);
    if k == |raw| - 1 {
      LastLevelTrimmed(trim, space, c);
    } else {
      assert trimmed[k] == trimmed[..|raw| - 1][k] == raw[..|raw| - 1][k] == raw[k];
    }
    JoinOfSplit('/', t);
    UnescapePlain(raw[k]);
    if PathUnescape(t).Some? {
      UnescapeLevels(trimmed, k);
    }
  }
}
