/**
 * Text operations the ledger relies on: lower-casing, substring search,
 * the order SQLite uses for TEXT values, and the `%.2f` rendering of an
 * amount held in cents.
 */
module Text {
  import opened Records

  // ---------------------------------------------------------------------
  // Lower-casing (Python's str.lower, restricted to ASCII letters)
  // ---------------------------------------------------------------------

  function LowerChar(c: char): char
  {
    if 'A' <= c <= 'Z' then (c as int + 32) as char else c
  }

  /** Python's `str.lower` on ASCII: the same length, no upper-case letter left, every other character unchanged. */
  function Lower(s: string): (r: string)
    ensures |r| == |s|
    ensures forall i :: 0 <= i < |r| ==> !('A' <= r[i] <= 'Z')
    ensures forall i :: 0 <= i < |s| && !('A' <= s[i] <= 'Z') ==> r[i] == s[i]
    ensures forall i :: 0 <= i < |s| && 'A' <= s[i] <= 'Z' ==> r[i] as int == s[i] as int + 32
  {
    seq(|s|, i requires 0 <= i < |s| => LowerChar(s[i]))
  }

  /** Lower-casing twice is lower-casing once. */
  lemma LowerIdempotent(s: string)
    ensures Lower(Lower(s)) == Lower(s)
  {
    assert forall i :: 0 <= i < |s| ==> Lower(Lower(s))[i] == Lower(s)[i];
  }

  // ---------------------------------------------------------------------
  // Substring search (Python's `needle in haystack`)
  // ---------------------------------------------------------------------

  /** `needle` occurs in `haystack` starting at position `i`. */
  predicate OccursAt(needle: string, haystack: string, i: nat)
  {
    i + |needle| <= |haystack| && haystack[i..i + |needle|] == needle
  }

  ghost predicate IsSubstring(needle: string, haystack: string)
  {
    exists i: nat :: OccursAt(needle, haystack, i)
  }

  lemma OccursInTail(needle: string, haystack: string, i: nat)
    requires 0 < i && OccursAt(needle, haystack, i)
    ensures OccursAt(needle, haystack[1..], i - 1)
  {
    var tail := haystack[1..];
    forall k | 0 <= k < |needle|
      ensures tail[i - 1..i - 1 + |needle|][k] == needle[k]
    {
      assert tail[i - 1..i - 1 + |needle|][k] == haystack[i + k];
      assert needle[k] == haystack[i..i + |needle|][k];
    }
    assert tail[i - 1..i - 1 + |needle|] == needle;
  }

  lemma OccursFromTail(needle: string, haystack: string, i: nat)
    requires |haystack| > 0 && OccursAt(needle, haystack[1..], i)
    ensures OccursAt(needle, haystack, i + 1)
  {
    var tail := haystack[1..];
    forall k | 0 <= k < |needle|
      ensures haystack[i + 1..i + 1 + |needle|][k] == needle[k]
    {
      assert haystack[i + 1..i + 1 + |needle|][k] == tail[i + k];
      assert needle[k] == tail[i..i + |needle|][k];
    }
    assert haystack[i + 1..i + 1 + |needle|] == needle;
  }

  /** When `needle` is not a prefix of `haystack`, it occurs in `haystack` exactly when it occurs in its tail. */
  lemma SubstringOfTail(needle: string, haystack: string)
    requires |haystack| > 0 && !(needle <= haystack)
    ensures IsSubstring(needle, haystack) <==> IsSubstring(needle, haystack[1..])
  {
    if IsSubstring(needle, haystack) {
      var i: nat :| OccursAt(needle, haystack, i);
      OccursInTail(needle, haystack, i);
    }
    if IsSubstring(needle, haystack[1..]) {
      var i: nat :| OccursAt(needle, haystack[1..], i);
      OccursFromTail(needle, haystack, i);
    }
  }

  /** Whether `needle` occurs in `haystack`, by trying every starting position. */
  function Contains(haystack: string, needle: string): (r: bool)
    ensures r <==> IsSubstring(needle, haystack)
    decreases |haystack|
  {
    if needle <= haystack then
      assert OccursAt(needle, haystack, 0);
      true
    else if |haystack| <= |needle| then
      false
    else
      SubstringOfTail(needle, haystack);
      Contains(haystack[1..], needle)
  }

  /** The empty text occurs in every text. */
  lemma EmptyIsSubstring(haystack: string)
    ensures IsSubstring("", haystack)
  {
    assert OccursAt("", haystack, 0);
  }

  // ---------------------------------------------------------------------
  // Order of TEXT values (SQLite's BINARY collation: byte-wise comparison of
  // UTF-8, which is the same as comparing code points left to right, a
  // proper prefix first)
  // ---------------------------------------------------------------------

  predicate TextLe(a: string, b: string)
  {
    a == [] || (b != [] && (a[0] < b[0] || (a[0] == b[0] && TextLe(a[1..], b[1..]))))
  }

  lemma {:induction false} TextLeReflexive(a: string)
    ensures TextLe(a, a)
  {
    if a != [] {
      TextLeReflexive(a[1..]);
    }
  }

  lemma {:induction false} TextLeTotal(a: string, b: string)
    ensures TextLe(a, b) || TextLe(b, a)
  {
    if a != [] && b != [] && a[0] == b[0] {
      TextLeTotal(a[1..], b[1..]);
    }
  }

  lemma {:induction false} TextLeTransitive(a: string, b: string, c: string)
    requires TextLe(a, b) && TextLe(b, c)
    ensures TextLe(a, c)
  {
    if a != [] && a[0] == b[0] && b[0] == c[0] {
      TextLeTransitive(a[1..], b[1..], c[1..]);
    }
  }

  lemma {:induction false} TextLeAntisymmetric(a: string, b: string)
    requires TextLe(a, b) && TextLe(b, a)
    ensures a == b
  {
    if a != [] && b != [] {
      TextLeAntisymmetric(a[1..], b[1..]);
      assert a == [a[0]] + a[1..];
      assert b == [b[0]] + b[1..];
    }
  }

  // ---------------------------------------------------------------------
  // Rendering an amount with two decimals (Python's f"{amount:.2f}")
  // ---------------------------------------------------------------------

  predicate IsDigit(c: char)
  {
    '0' <= c <= '9'
  }

  predicate AllDigits(s: string)
  {
    forall i :: 0 <= i < |s| ==> IsDigit(s[i])
  }

  function DigitChar(d: nat): (c: char)
    requires d < 10
    ensures IsDigit(c)
  {
    ('0' as int + d) as char
  }

  function DigitValue(c: char): (d: nat)
    requires IsDigit(c)
    ensures d < 10 && DigitChar(d) == c
  {
    c as int - '0' as int
  }

  /** Decimal digits of `n`, most significant first, without leading zeros. */
  function NatText(n: nat): (s: string)
    ensures |s| >= 1 && AllDigits(s)
    ensures |s| == 1 <==> n < 10
    ensures n >= 10 ==> s[0] != '0'
  {
    if n < 10 then [DigitChar(n)] else NatText(n / 10) + [DigitChar(n % 10)]
  }

  /** The number a string of decimal digits denotes. */
  function NatValue(s: string): nat
    requires AllDigits(s)
  {
    if s == [] then 0 else NatValue(s[..|s| - 1]) * 10 + DigitValue(s[|s| - 1])
  }

  lemma {:induction false} NatValueOfNatText(n: nat)
    ensures NatValue(NatText(n)) == n
  {
    if n >= 10 {
      var s := NatText(n);
      assert s[..|s| - 1] == NatText(n / 10);
      NatValueOfNatText(n / 10);
    }
  }

  /** Decimal digits with no leading zero (a lone "0" allowed), as `%.2f` prints a whole part. */
  predicate IsWholeText(w: string)
  {
    |w| >= 1 && AllDigits(w) && (|w| > 1 ==> w[0] != '0')
  }

  /** The shape `%.2f` prints for a non-negative value: a whole part, a point and exactly two digits. */
  predicate IsUnsignedCentsText(u: string)
  {
    |u| >= 4 && u[|u| - 3] == '.' && IsWholeText(u[..|u| - 3]) && AllDigits(u[|u| - 2..])
  }

  /** The shape `%.2f` prints: an optional minus sign, then the unsigned shape. */
  predicate IsCentsText(s: string)
  {
    if |s| > 0 && s[0] == '-' then IsUnsignedCentsText(s[1..]) else IsUnsignedCentsText(s)
  }

  /** `%.2f` of a non-negative amount given in cents. */
  function UnsignedCentsText(c: nat): (s: string)
    ensures IsUnsignedCentsText(s)
  {
    var whole := NatText(c / 100);
    var s := whole + "." + [DigitChar(c % 100 / 10), DigitChar(c % 10)];
    assert s[..|s| - 3] == whole && s[|s| - 2..] == [DigitChar(c % 100 / 10), DigitChar(c % 10)];
    s
  }

  /** `%.2f` of an amount given in cents: canonical text, with a minus sign exactly for a negative amount. */
  function CentsText(c: int): (s: string)
    ensures IsCentsText(s)
    ensures (s[0] == '-') <==> c < 0
  {
    if c < 0 then
      var s := "-" + UnsignedCentsText(-c);
      assert s[1..] == UnsignedCentsText(-c);
      s
    else
      UnsignedCentsText(c)
  }

  /** Reads text of the form `[-]digits.dd` back into cents. */
  function ParseCents(s: string): Option<int>
  {
    if |s| > 0 && s[0] == '-' then
      match ParseUnsignedCents(s[1..])
      case Some(v) => Some(-(v as int))
      case None => None
    else
      ParseUnsignedCents(s)
  }

  function ParseUnsignedCents(s: string): Option<nat>
  {
    if |s| >= 4 && s[|s| - 3] == '.' && AllDigits(s[..|s| - 3]) && AllDigits(s[|s| - 2..]) then
      Some(NatValue(s[..|s| - 3]) * 100 + NatValue(s[|s| - 2..]))
    else
      None
  }

  lemma UnsignedCentsRoundTrip(c: nat)
    ensures ParseUnsignedCents(UnsignedCentsText(c)) == Some(c)
    ensures IsDigit(UnsignedCentsText(c)[0])
  {
    var s := UnsignedCentsText(c);
    var whole := NatText(c / 100);
    var frac := [DigitChar(c % 100 / 10), DigitChar(c % 10)];
    assert s[..|s| - 3] == whole;
    assert s[|s| - 2..] == frac;
    NatValueOfNatText(c / 100);
    assert frac[..1] == [DigitChar(c % 100 / 10)];
    assert frac[..1][..0] == [];
    assert NatValue(frac[..1]) == c % 100 / 10;
    assert NatValue(frac) == (c % 100 / 10) * 10 + c % 10;
  }

  /** The rendered amount determines the amount: reading it back gives the same cents. */
  lemma CentsTextRoundTrip(c: int)
    ensures ParseCents(CentsText(c)) == Some(c)
  {
    if c < 0 {
      UnsignedCentsRoundTrip(-c);
      assert CentsText(c)[1..] == UnsignedCentsText(-c);
    } else {
      UnsignedCentsRoundTrip(c);
    }
  }

  /** A whole part with a leading non-zero digit denotes at least 1. */
  lemma {:induction false} NatValuePositive(w: string)
    requires |w| >= 1 && AllDigits(w) && w[0] != '0'
    ensures NatValue(w) >= 1
  {
    if |w| > 1 {
      NatValuePositive(w[..|w| - 1]);
    }
  }

  /** A whole part without leading zeros is exactly the digits printed for its value. */
  lemma {:induction false} NatTextOfWholeText(w: string)
    requires IsWholeText(w)
    ensures NatText(NatValue(w)) == w
  {
    if |w| > 1 {
      var init := w[..|w| - 1];
      assert AllDigits(init) && init[0] == w[0];
      NatValuePositive(init);
      NatTextOfWholeText(init);
      var n := NatValue(w);
      assert n / 10 == NatValue(init) && n % 10 == DigitValue(w[|w| - 1]);
      assert w == init + [w[|w| - 1]];
    }
  }

  /**
   * `%.2f` text is unique: a text of the canonical shape, with a minus sign
   * exactly when its value is negative, is the rendering of that value.
   */
  lemma UnsignedCentsTextUnique(u: string)
    requires IsUnsignedCentsText(u)
    ensures ParseUnsignedCents(u).Some? && UnsignedCentsText(ParseUnsignedCents(u).value) == u
  {
    var w, f := u[..|u| - 3], u[|u| - 2..];
    var c := NatValue(w) * 100 + NatValue(f);
    assert f[..1][..0] == [] && NatValue(f[..1]) == DigitValue(f[0]);
    assert NatValue(f) == DigitValue(f[0]) * 10 + DigitValue(f[1]);
    assert c / 100 == NatValue(w) && c % 100 / 10 == DigitValue(f[0]) && c % 10 == DigitValue(f[1]);
    NatTextOfWholeText(w);
    assert u == w + "." + [f[0], f[1]];
  }

  lemma CentsTextUnique(s: string, c: int)
    requires IsCentsText(s) && ParseCents(s) == Some(c)
    requires (|s| > 0 && s[0] == '-') <==> c < 0
    ensures s == CentsText(c)
  {
    if |s| > 0 && s[0] == '-' {
      UnsignedCentsTextUnique(s[1..]);
      assert s == "-" + s[1..];
    } else {
      UnsignedCentsTextUnique(s);
    }
  }
}
