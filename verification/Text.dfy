/**
  String operations the Go and TypeScript sources take from their standard
  libraries: comparison, trimming, and the length of a string in UTF-8 bytes
  and in UTF-16 units. A Dafny character is a Unicode scalar value.
 */
module Text {

  // ----- Lexicographic order by scalar value, which is also the order of UTF-8 bytes.

  predicate Less(a: string, b: string) {
    if b == "" then false
    else if a == "" then true
    else if a[0] != b[0] then a[0] < b[0]
    else Less(a[1..], b[1..])
  }

  lemma {:induction false} LessAsymmetric(a: string, b: string)
    requires Less(a, b)
    ensures !Less(b, a)
  {
    if a != "" && b != "" && a[0] == b[0] {
      LessAsymmetric(a[1..], b[1..]);
    }
  }

  lemma {:induction false} LessTransitive(a: string, b: string, c: string)
    requires Less(a, b) && Less(b, c)
    ensures Less(a, c)
  {
    if a != "" && b != "" && c != "" && a[0] == b[0] && b[0] == c[0] {
      LessTransitive(a[1..], b[1..], c[1..]);
    }
  }

  lemma {:induction false} LessTotal(a: string, b: string)
    ensures a == b || Less(a, b) || Less(b, a)
  {
    if a != "" && b != "" && a[0] == b[0] {
      LessTotal(a[1..], b[1..]);
      assert a == [a[0]] + a[1..] && b == [b[0]] + b[1..];
    }
  }

  // ----- Trimming, for any notion of white space.

  function TrimLeft(space: char -> bool, s: string): (t: string)
    ensures t == "" || !space(t[0])
    ensures |t| <= |s| && t == s[|s| - |t|..]
  {
    if s != "" && space(s[0]) then TrimLeft(space, s[1..]) else s
  }

  function TrimRight(space: char -> bool, s: string): (t: string)
    ensures t == "" || !space(t[|t| - 1])
    ensures t <= s
  {
    if s != "" && space(s[|s| - 1]) then TrimRight(space, s[..|s| - 1]) else s
  }

  function Trim(space: char -> bool, s: string): (t: string)
    ensures Trimmed(space, t)
  {
    TrimRight(space, TrimLeft(space, s))
  }

  predicate Trimmed(space: char -> bool, s: string) {
    s == "" || (!space(s[0]) && !space(s[|s| - 1]))
  }

  lemma TrimOfTrimmed(space: char -> bool, s: string)
    requires Trimmed(space, s)
    ensures Trim(space, s) == s
  {
  }

  function Trimmer(space: char -> bool): string -> string {
    (s: string) => Trim(space, s)
  }

  /** A second time it does nothing, and it shortens whatever it changes. */
  ghost predicate Trims(trim: string -> string) {
    && trim("") == ""
    && (forall s: string {:trigger trim(trim(s))} :: trim(trim(s)) == trim(s))
    && (forall s: string {:trigger trim(s)} :: |trim(s)| < |s| || trim(s) == s)
  }

  /** It takes off white space at the ends only. */
  ghost predicate TrimsBy(trim: string -> string, space: char -> bool) {
    && Trims(trim)
    && (forall p: string, s: string {:trigger Trimmed(space, p), trim(s)} ::
          Trimmed(space, p) && p <= s ==> p <= trim(s))
    && (forall s: string {:trigger trim(s)} :: s != "" && !space(s[0]) ==> trim(s) <= s)
  }

  lemma {:induction false} TrimRightKeepsPrefix(space: char -> bool, p: string, s: string)
    requires Trimmed(space, p) && p <= s
    ensures p <= TrimRight(space, s)
  {
    if s != "" && space(s[|s| - 1]) {
      assert p != s;
      TrimRightKeepsPrefix(space, p, s[..|s| - 1]);
    }
  }

  lemma TrimmerTrims(space: char -> bool)
    ensures TrimsBy(Trimmer(space), space)
  {
    forall s: string
      ensures Trim(space, Trim(space, s)) == Trim(space, s) && (|Trim(space, s)| < |s| || Trim(space, s) == s)
    {
      TrimOfTrimmed(space, Trim(space, s));
    }
    forall s: string | s != "" && !space(s[0]) ensures Trim(space, s) <= s {
      assert TrimLeft(space, s) == s;
    }
    forall p: string, s: string | Trimmed(space, p) && p <= s ensures p <= Trim(space, s) {
      if p != "" {
        TrimRightKeepsPrefix(space, p, s);
      }
    }
  }

  function TrimPrefix(s: string, c: char): string {
    if s != "" && s[0] == c then s[1..] else s
  }

  // ----- Lengths.

  function Utf8Width(c: char): nat {
    if c < '\U{80}' then 1 else if c < '\U{800}' then 2 else if c < '\U{10000}' then 3 else 4
  }

  function Utf8Length(s: string): nat {
    if s == "" then 0 else Utf8Length(s[..|s| - 1]) + Utf8Width(s[|s| - 1])
  }

  function Utf16Length(s: string): nat {
    if s == "" then 0 else Utf16Length(s[..|s| - 1]) + if s[|s| - 1] < '\U{10000}' then 1 else 2
  }

  /** A measure that grows from a string to any proper extension of it. */
  ghost predicate GrowsWithPrefix(size: string -> nat) {
    forall a: string, b: string :: a < b ==> size(a) < size(b)
  }

  lemma {:induction false} Utf8Grows(a: string, b: string)
    requires a < b
    ensures Utf8Length(a) < Utf8Length(b)
    decreases |b|
  {
    var init := b[..|b| - 1];
    if a != init {
      assert a < init;
      Utf8Grows(a, init);
    }
  }

  lemma {:induction false} Utf16Grows(a: string, b: string)
    requires a < b
    ensures Utf16Length(a) < Utf16Length(b)
    decreases |b|
  {
    var init := b[..|b| - 1];
    if a != init {
      assert a < init;
      Utf16Grows(a, init);
    }
  }

  lemma Utf8GrowsWithPrefix()
    ensures GrowsWithPrefix(Utf8Length)
  {
    forall a: string, b: string | a < b ensures Utf8Length(a) < Utf8Length(b) {
      Utf8Grows(a, b);
    }
  }

  lemma Utf16GrowsWithPrefix()
    ensures GrowsWithPrefix(Utf16Length)
  {
    forall a: string, b: string | a < b ensures Utf16Length(a) < Utf16Length(b) {
      Utf16Grows(a, b);
    }
  }
}
