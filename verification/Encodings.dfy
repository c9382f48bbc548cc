/**
  Strings as UTF-8 bytes (section 3 of RFC 3629), which Go measures and compares,
  and as UTF-16 units (section 2.1 of RFC 2781), which JavaScript does. The lengths
  and the order of `Text` are those of the bytes.
 */
module Encodings {
  import Text

  // ----- Sequences of numbers, compared from the left.

  predicate UnitsLess(a: seq<int>, b: seq<int>) {
    if b == [] then false
    else if a == [] then true
    else if a[0] != b[0] then a[0] < b[0]
    else UnitsLess(a[1..], b[1..])
  }

  /** Where two sequences first differ decides. */
  lemma {:induction false} DifferAt(a: seq<int>, b: seq<int>, k: nat)
    requires k < |a| && k < |b| && a[..k] == b[..k] && a[k] != b[k]
    ensures UnitsLess(a, b) <==> a[k] < b[k]
  {
    if k > 0 {
      assert a[0] == a[..k][0] == b[..k][0] == b[0];
      assert a[1..][..k - 1] == a[..k][1..] == b[..k][1..] == b[1..][..k - 1];
      DifferAt(a[1..], b[1..], k - 1);
    }
  }

  lemma {:induction false} UnitsBehindPrefix(p: seq<int>, a: seq<int>, b: seq<int>)
    ensures UnitsLess(p + a, p + b) == UnitsLess(a, b)
  {
    if p == [] {
      assert p + a == a && p + b == b;
    } else {
      UnitsBehindPrefix(p[1..], a, b);
      assert (p + a)[1..] == p[1..] + a && (p + b)[1..] == p[1..] + b;
    }
  }

  // ----- UTF-16.

  function CharUnits(c: char): seq<int> {
    if c < '\U{10000}' then [c as int]
    else [0xD800 + (c as int - 0x10000) / 0x400, 0xDC00 + (c as int - 0x10000) % 0x400]
  }

  function Units(s: string): seq<int> {
    if s == "" then [] else CharUnits(s[0]) + Units(s[1..])
  }

  // ----- UTF-8.

  function CharBytes(c: char): seq<int> {
    var n := c as int;
    if n < 0x80 then [n]
    else if n < 0x800 then [0xC0 + n / 0x40, 0x80 + n % 0x40]
    else if n < 0x1_0000 then [0xE0 + n / 0x1000, 0x80 + n / 0x40 % 0x40, 0x80 + n % 0x40]
    else [0xF0 + n / 0x4_0000, 0x80 + n / 0x1000 % 0x40, 0x80 + n / 0x40 % 0x40, 0x80 + n % 0x40]
  }

  function Bytes(s: string): seq<int> {
    if s == "" then [] else CharBytes(s[0]) + Bytes(s[1..])
  }

  lemma Digits(n: nat)
    ensures n / 0x40 == 0x40 * (n / 0x1000) + n / 0x40 % 0x40
    ensures n / 0x1000 == 0x40 * (n / 0x4_0000) + n / 0x1000 % 0x40
    ensures n == 0x40 * (n / 0x40) + n % 0x40
  {
  }

  /** The lower of two numbers has the lower digit where their base-64 digits first differ. */
  lemma DigitsDecide(m: nat, n: nat)
    requires m < n
    ensures || m / 0x4_0000 < n / 0x4_0000
            || (m / 0x4_0000 == n / 0x4_0000
                && (|| m / 0x1000 % 0x40 < n / 0x1000 % 0x40
                    || (m / 0x1000 % 0x40 == n / 0x1000 % 0x40
                        && (|| m / 0x40 % 0x40 < n / 0x40 % 0x40
                            || (m / 0x40 % 0x40 == n / 0x40 % 0x40 && m % 0x40 < n % 0x40)))))
  {
    Digits(m);
    Digits(n);
  }

  lemma LeadingDigits(n: nat)
    ensures n < 0x1_0000 ==> n / 0x4_0000 == 0 && n / 0x1000 % 0x40 == n / 0x1000
    ensures n < 0x800 ==> n / 0x1000 == 0 && n / 0x40 % 0x40 == n / 0x40
  {
  }

  /** The bytes of two characters first differ where the higher one has the higher byte. */
  lemma BytesDiffer(c: char, d: char) returns (k: nat)
    requires c < d
    ensures k < |CharBytes(c)| && k < |CharBytes(d)| && CharBytes(c)[..k] == CharBytes(d)[..k]
    ensures CharBytes(c)[k] < CharBytes(d)[k]
  {
    var a, b := CharBytes(c), CharBytes(d);
    DigitsDecide(c as int, d as int);
    LeadingDigits(c as int);
    LeadingDigits(d as int);
    k := if |a| != |b| || a[0] != b[0] then 0 else if a[1] != b[1] then 1 else if a[2] != b[2] then 2 else 3;
    assert a[..k] == b[..k];
  }

  lemma CharByteOrder(c: char, d: char, a: seq<int>, b: seq<int>)
    requires c != d
    ensures UnitsLess(CharBytes(c) + a, CharBytes(d) + b) <==> c < d
  {
    var k;
    if c < d {
      k := BytesDiffer(c, d);
    } else {
      k := BytesDiffer(d, c);
    }
    var x, y := CharBytes(c), CharBytes(d);
    assert (x + a)[..k] == x[..k] && (y + b)[..k] == y[..k];
    DifferAt(x + a, y + b, k);
  }

  /** Strings stand in the order of their UTF-8 bytes. */
  lemma {:induction false} LessIsByteOrder(a: string, b: string)
    ensures Text.Less(a, b) <==> UnitsLess(Bytes(a), Bytes(b))
  {
    if a != "" && b != "" {
      if a[0] == b[0] {
        LessIsByteOrder(a[1..], b[1..]);
        UnitsBehindPrefix(CharBytes(a[0]), Bytes(a[1..]), Bytes(b[1..]));
      } else {
        CharByteOrder(a[0], b[0], Bytes(a[1..]), Bytes(b[1..]));
      }
    }
  }

  // ----- Lengths.

  lemma {:induction false} LengthsFromTheLeft(s: string)
    requires s != ""
    ensures Text.Utf8Length(s) == |CharBytes(s[0])| + Text.Utf8Length(s[1..])
    ensures Text.Utf16Length(s) == |CharUnits(s[0])| + Text.Utf16Length(s[1..])
  {
    if |s| > 1 {
      var init := s[..|s| - 1];
      LengthsFromTheLeft(init);
      assert init[1..] == s[1..][..|s| - 2];
    }
  }

  /** The measures both scanners sort aliases by count bytes and units. */
  lemma {:induction false} LengthsCount(s: string)
    ensures Text.Utf8Length(s) == |Bytes(s)| && Text.Utf16Length(s) == |Units(s)|
  {
    if s != "" {
      LengthsFromTheLeft(s);
      LengthsCount(s[1..]);
    }
  }
}
