/**
 Text helpers the generator and its embedded script rely on: Python's
 `sep.join(parts)` and `str(int)`, and JavaScript's `includes`,
 `toLowerCase` and `trim`.
 */
module Strings {

  /* ---------------------------------------------------------------- join */

  /** Python's `sep.join(parts)`. */
  function Join(sep: string, parts: seq<string>): string
  {
    if |parts| == 0 then ""
    else if |parts| == 1 then parts[0]
    else parts[0] + sep + Join(sep, parts[1..])
  }

  /** Appending one more part appends exactly one separator and that part. */
  lemma {:induction false} JoinSnoc(sep: string, parts: seq<string>, p: string)
    requires |parts| > 0
    ensures Join(sep, parts + [p]) == Join(sep, parts) + sep + p
  {
    if |parts| == 1 {
      assert parts + [p] == [parts[0], p];
      assert (parts + [p])[1..] == [p];
    } else {
      assert (parts + [p])[1..] == parts[1..] + [p];
      JoinSnoc(sep, parts[1..], p);
    }
  }

  /* ----------------------------------------------------------- substring */

  /** `t` occurs in `s` starting at index `i`. */
  ghost predicate OccursAt(s: string, t: string, i: int)
  {
    0 <= i && i + |t| <= |s| && s[i..i + |t|] == t
  }

  /** The specification of JavaScript's `s.includes(t)`. */
  ghost predicate Contains(s: string, t: string)
  {
    exists i :: OccursAt(s, t, i)
  }

  /** An executable `s.includes(t)`: is `t` a prefix of some suffix of `s`? */
  function Includes(s: string, t: string): (b: bool)
    ensures b <==> Contains(s, t)
  {
    IncludesIsContains(s, t);
    IncludesRec(s, t)
  }

  function IncludesRec(s: string, t: string): bool
  {
    if t <= s then true
    else if |s| == 0 then false
    else IncludesRec(s[1..], t)
  }

  /** An occurrence at index 0 is a prefix. */
  lemma OccursAtZero(s: string, t: string)
    ensures OccursAt(s, t, 0) <==> t <= s
  {
    if t <= s {
      assert s[0..|t|] == t;
    }
  }

  lemma {:induction false} IncludesIsContains(s: string, t: string)
    ensures IncludesRec(s, t) <==> Contains(s, t)
  {
    OccursAtZero(s, t);
    if t <= s {
      assert OccursAt(s, t, 0);
    } else if |s| == 0 {
      assert forall i :: OccursAt(s, t, i) ==> i == 0;
    } else {
      IncludesIsContains(s[1..], t);
      if Contains(s[1..], t) {
        var i :| OccursAt(s[1..], t, i);
        OccursShift(s, t, i);
      }
      if Contains(s, t) {
        var i :| OccursAt(s, t, i);
        assert i != 0;
        OccursShift(s, t, i - 1);
      }
    }
  }

  /** The middle part of a concatenation occurs in it. */
  lemma ContainsMiddle(a: string, b: string, c: string)
    ensures Contains(a + b + c, b)
  {
    assert (a + b + c)[|a|..|a| + |b|] == b;
    assert OccursAt(a + b + c, b, |a|);
  }

  /** Dropping the first character shifts every occurrence left by one. */
  lemma OccursShift(s: string, t: string, i: int)
    requires |s| > 0 && 0 <= i
    ensures OccursAt(s[1..], t, i) <==> OccursAt(s, t, i + 1)
  {
    if i + |t| <= |s| - 1 {
      assert s[1..][i..i + |t|] == s[i + 1..i + 1 + |t|];
    }
  }

  /** Occurrence is transitive: a block of a block of `a` is a block of `a`. */
  lemma ContainsTransitive(a: string, b: string, c: string)
    requires Contains(a, b) && Contains(b, c)
    ensures Contains(a, c)
  {
    var i :| OccursAt(a, b, i);
    var j :| OccursAt(b, c, j);
    forall k | 0 <= k < |c| ensures a[i + j..i + j + |c|][k] == c[k] {
      assert a[i + j + k] == b[j + k];
    }
    assert OccursAt(a, c, i + j);
  }

  /* ----------------------------------------------------------- lower case */

  predicate IsUpper(c: char)
  {
    'A' <= c <= 'Z'
  }

  /** `toLowerCase` on one character, for the ASCII letters: a capital moves
      to its small letter 32 code points on, anything else is kept. */
  function LowerChar(c: char): (l: char)
    ensures !IsUpper(l)
    ensures IsUpper(c) ==> l as int == c as int + 32 && 'a' <= l <= 'z'
    ensures !IsUpper(c) ==> l == c
  {
    if 'A' <= c <= 'Z' then (c as int - 'A' as int + 'a' as int) as char else c
  }

  /** JavaScript's `s.toLowerCase()`, restricted to ASCII case mapping. */
  function Lower(s: string): (r: string)
    ensures |r| == |s|
    ensures forall i :: 0 <= i < |s| ==> r[i] == LowerChar(s[i])
    ensures forall i :: 0 <= i < |r| ==> !IsUpper(r[i])
    ensures forall i :: 0 <= i < |s| && !IsUpper(s[i]) ==> r[i] == s[i]
  {
    seq(|s|, i requires 0 <= i < |s| => LowerChar(s[i]))
  }

  /* ---------------------------------------------------------------- trim */

  /** The characters `trim` removes: ECMAScript's WhiteSpace and LineTerminator. */
  predicate IsWhitespace(c: char)
  {
    || c == '\t' || c == '\n' || c == '\U{000B}' || c == '\U{000C}' || c == '\r'
    || c == ' ' || c == '\U{00A0}' || c == '\U{1680}'
    || ('\U{2000}' <= c <= '\U{200A}')
    || c == '\U{2028}' || c == '\U{2029}' || c == '\U{202F}' || c == '\U{205F}'
    || c == '\U{3000}' || c == '\U{FEFF}'
  }

  /** Lower-casing neither creates nor removes whitespace. */
  lemma LowerCharWhitespace(c: char)
    ensures IsWhitespace(LowerChar(c)) <==> IsWhitespace(c)
  {
  }

  ghost predicate AllWhitespace(s: string)
  {
    forall k :: 0 <= k < |s| ==> IsWhitespace(s[k])
  }

  /** The number of whitespace characters at the start of `s`. */
  function LeadingWhitespace(s: string): (n: nat)
    ensures n <= |s|
    ensures forall k :: 0 <= k < n ==> IsWhitespace(s[k])
    ensures n < |s| ==> !IsWhitespace(s[n])
  {
    if |s| > 0 && IsWhitespace(s[0]) then
      var m := LeadingWhitespace(s[1..]);
      assert forall k :: 1 <= k < m + 1 ==> s[k] == s[1..][k - 1];
      m + 1
    else 0
  }

  /** The length of `s` without its trailing whitespace. */
  function TrailingStart(s: string): (n: nat)
    ensures n <= |s|
    ensures forall k :: n <= k < |s| ==> IsWhitespace(s[k])
    ensures n > 0 ==> !IsWhitespace(s[n - 1])
  {
    if |s| > 0 && IsWhitespace(s[|s| - 1]) then TrailingStart(s[..|s| - 1]) else |s|
  }

  /** JavaScript's `s.trim()`: the block of `s` left once the whitespace at
      both ends is removed; it is empty exactly when `s` is all whitespace. */
  function Trim(s: string): (r: string)
    ensures exists lo :: TrimmedAt(s, r, lo)
    ensures |r| > 0 ==> !IsWhitespace(r[0]) && !IsWhitespace(r[|r| - 1])
    ensures |r| == 0 <==> AllWhitespace(s)
  {
    var lo := LeadingWhitespace(s);
    var hi := if TrailingStart(s) < lo then lo else TrailingStart(s);
    TrimSpec(s, lo, hi);
    s[lo..hi]
  }

  /** `r` is `s` with whitespace only removed: `lo` characters before it and
      the rest after it. */
  ghost predicate TrimmedAt(s: string, r: string, lo: int)
  {
    && 0 <= lo && lo + |r| <= |s| && r == s[lo..lo + |r|]
    && AllWhitespace(s[..lo]) && AllWhitespace(s[lo + |r|..])
  }

  /** Cutting `s` at the first and after the last non-whitespace character
      leaves a trimmed block, empty exactly when `s` is all whitespace. */
  lemma TrimSpec(s: string, lo: int, hi: int)
    requires 0 <= lo <= hi <= |s|
    requires forall k :: 0 <= k < lo ==> IsWhitespace(s[k])
    requires forall k :: hi <= k < |s| ==> IsWhitespace(s[k])
    requires lo < hi ==> !IsWhitespace(s[lo]) && !IsWhitespace(s[hi - 1])
    ensures TrimmedAt(s, s[lo..hi], lo)
    ensures var r := s[lo..hi]; |r| > 0 ==> !IsWhitespace(r[0]) && !IsWhitespace(r[|r| - 1])
    ensures lo == hi <==> AllWhitespace(s)
  {
    assert forall k :: 0 <= k < lo ==> s[..lo][k] == s[k];
    assert forall k :: 0 <= k < |s| - hi ==> s[hi..][k] == s[hi + k];
    if lo < hi {
      NotAllWhitespace(s, lo);
    }
  }

  lemma NotAllWhitespace(s: string, k: int)
    requires 0 <= k < |s| && !IsWhitespace(s[k])
    ensures !AllWhitespace(s)
  {
  }

  /** What `trim` leaves of a string occurs in that string. */
  lemma TrimContained(s: string)
    ensures Contains(s, Trim(s))
  {
    var r := Trim(s);
    var lo :| TrimmedAt(s, r, lo);
    assert OccursAt(s, r, lo);
  }

  /** A string is all whitespace exactly when its lower-cased form is. */
  lemma LowerAllWhitespace(s: string)
    ensures AllWhitespace(Lower(s)) <==> AllWhitespace(s)
  {
    forall k | 0 <= k < |s| ensures IsWhitespace(Lower(s)[k]) <==> IsWhitespace(s[k]) {
      LowerCharWhitespace(s[k]);
    }
  }

  /* ------------------------------------------------------ decimal numbers */

  function DigitChar(d: nat): char
    requires d < 10
  {
    "0123456789"[d]
  }

  predicate IsDigit(c: char)
  {
    '0' <= c <= '9'
  }

  function DigitValue(c: char): nat
    requires IsDigit(c)
  {
    c as int - '0' as int
  }

  /** The canonical decimal spelling of `n`: digits only, no leading zero. */
  function NatToString(n: nat): (r: string)
    ensures |r| > 0
    ensures forall k :: 0 <= k < |r| ==> IsDigit(r[k])
    ensures r[0] == '0' ==> r == "0"
  {
    if n < 10 then [DigitChar(n)] else NatToString(n / 10) + [DigitChar(n % 10)]
  }

  /** Python's `str(i)` for an integer `i`. */
  function IntToString(i: int): string
  {
    if i < 0 then "-" + NatToString(-i) else NatToString(i)
  }

  /** Reads back a string of decimal digits. */
  function ParseDigits(s: string): nat
    requires forall k :: 0 <= k < |s| ==> IsDigit(s[k])
  {
    if |s| == 0 then 0 else 10 * ParseDigits(s[..|s| - 1]) + DigitValue(s[|s| - 1])
  }

  /** A digit string, optionally preceded by a minus sign. */
  predicate IsIntText(s: string)
  {
    && |s| > 0
    && (s[0] == '-' || IsDigit(s[0]))
    && forall k :: 0 < k < |s| ==> IsDigit(s[k])
  }

  /** Reads back an optionally negative decimal integer. */
  function ParseInt(s: string): int
    requires IsIntText(s)
  {
    if s[0] == '-' then -(ParseDigits(s[1..]) as int) else ParseDigits(s)
  }

  lemma {:induction false} NatToStringRoundTrip(n: nat)
    ensures ParseDigits(NatToString(n)) == n
  {
    var r := NatToString(n);
    if n < 10 {
      assert DigitValue(DigitChar(n)) == n;
    } else {
      NatToStringRoundTrip(n / 10);
      assert r[..|r| - 1] == NatToString(n / 10);
      assert DigitValue(DigitChar(n % 10)) == n % 10;
    }
  }

  /** The decimal spelling of an integer reads back as that integer. */
  lemma IntToStringRoundTrip(i: int)
    ensures IsIntText(IntToString(i))
    ensures ParseInt(IntToString(i)) == i
  {
    if i < 0 {
      NegativeRoundTrip(-i);
    } else {
      NatToStringRoundTrip(i);
      NonNegativeText(NatToString(i));
    }
  }

  lemma NegativeRoundTrip(n: nat)
    requires n > 0
    ensures IsIntText(IntToString(-(n as int)))
    ensures ParseInt(IntToString(-(n as int))) == -(n as int)
  {
    var digits := NatToString(n);
    NatToStringRoundTrip(n);
    NegativeText(digits);
  }

  lemma NegativeText(digits: string)
    requires forall k :: 0 <= k < |digits| ==> IsDigit(digits[k])
    ensures IsIntText("-" + digits)
    ensures ParseInt("-" + digits) == -(ParseDigits(digits) as int)
  {
    var s := "-" + digits;
    assert s[1..] == digits;
    assert forall k :: 0 < k < |s| ==> s[k] == digits[k - 1];
  }

  lemma NonNegativeText(digits: string)
    requires |digits| > 0
    requires forall k :: 0 <= k < |digits| ==> IsDigit(digits[k])
    ensures IsIntText(digits)
    ensures ParseInt(digits) == ParseDigits(digits)
  {
  }
}
