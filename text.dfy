/**
 * String primitives used by the release script: ASCII decimal digits (the
 * class `\d` of a JavaScript regular expression), `parseInt` of a digit
 * string, the decimal printing of an integer inside a template literal, and
 * `String.prototype.replace` with a plain-string pattern.
 */
module Text {
  import opened Common

  predicate IsDigit(c: char)
  {
    '0' <= c <= '9'
  }

  predicate AllDigits(s: string)
  {
    forall i :: 0 <= i < |s| ==> IsDigit(s[i])
  }

  /** A decimal spelling as JavaScript prints an integer: digits, no leading zero. */
  predicate Canonical(s: string)
  {
    |s| > 0 && AllDigits(s) && (|s| == 1 || s[0] != '0')
  }

  function DigitValue(c: char): (d: nat)
    requires IsDigit(c)
    ensures d < 10
  {
    c as int - '0' as int
  }

  function DigitChar(d: nat): (c: char)
    requires d < 10
    ensures IsDigit(c) && DigitValue(c) == d
  {
    ('0' as int + d) as char
  }

  /** `parseInt(s)` for a string of decimal digits: leading zeros add nothing. */
  function ParseDecimal(s: string): nat
    requires AllDigits(s)
    decreases |s|
  {
    if s == [] then 0 else ParseDecimal(s[..|s| - 1]) * 10 + DigitValue(s[|s| - 1])
  }

  /** `${n}` for a non-negative integer `n`. */
  function ToDecimal(n: nat): (r: string)
    ensures Canonical(r)
    decreases n
  {
    if n < 10 then [DigitChar(n)] else ToDecimal(n / 10) + [DigitChar(n % 10)]
  }

  /** Printing and then parsing gives the number back. */
  lemma {:induction false} ParseToDecimal(n: nat)
    ensures ParseDecimal(ToDecimal(n)) == n
    decreases n
  {
    if n >= 10 {
      var t := ToDecimal(n);
      assert t[..|t| - 1] == ToDecimal(n / 10);
      ParseToDecimal(n / 10);
    }
  }

  /** A digit string without leading zero denotes a positive number, unless it is "0". */
  lemma {:induction false} LeadingDigitPositive(s: string)
    requires |s| > 0 && AllDigits(s) && s[0] != '0'
    ensures ParseDecimal(s) > 0
    decreases |s|
  {
    if |s| > 1 {
      LeadingDigitPositive(s[..|s| - 1]);
    }
  }

  /** Parsing and then printing gives a canonical spelling back. */
  lemma {:induction false} ToDecimalParse(s: string)
    requires Canonical(s)
    ensures ToDecimal(ParseDecimal(s)) == s
    decreases |s|
  {
    if |s| > 1 {
      var init := s[..|s| - 1];
      assert Canonical(init);
      LeadingDigitPositive(init);
      ToDecimalParse(init);
      assert s == init + [s[|s| - 1]];
    }
  }

  /** A spelling with a leading zero is never what JavaScript prints back. */
  lemma LeadingZeroNotReprinted(s: string)
    requires |s| > 1 && AllDigits(s) && s[0] == '0'
    ensures ToDecimal(ParseDecimal(s)) != s
  {
  }

  /** `pat` occurs in `s` starting at position `p`. */
  predicate OccursAt(s: string, p: nat, pat: string)
  {
    p + |pat| <= |s| && s[p..p + |pat|] == pat
  }

  /** An occurrence of `a + b` is an occurrence of `a` followed by one of `b`. */
  lemma OccursSplit(s: string, p: nat, a: string, b: string)
    ensures OccursAt(s, p, a + b) <==> OccursAt(s, p, a) && OccursAt(s, p + |a|, b)
  {
    if OccursAt(s, p, a + b) {
      assert s[p..p + |a|] == s[p..p + |a| + |b|][..|a|];
      assert s[p + |a|..p + |a| + |b|] == s[p..p + |a| + |b|][|a|..];
    }
    if OccursAt(s, p, a) && OccursAt(s, p + |a|, b) {
      assert s[p..p + |a| + |b|] == s[p..p + |a|] + s[p + |a|..p + |a| + |b|];
    }
  }

  /** An occurrence fixes the characters it covers. */
  lemma OccursChars(s: string, p: nat, a: string)
    requires OccursAt(s, p, a)
    ensures forall k :: 0 <= k < |a| ==> s[p + k] == a[k]
  {
    forall k | 0 <= k < |a|
      ensures s[p + k] == a[k]
    {
      assert s[p..p + |a|][k] == s[p + k];
    }
  }

  /** The first occurrence of `pat` in `s` at or after `from` (`s.indexOf(pat, from)`). */
  function IndexOfFrom(s: string, pat: string, from: nat): (r: Option<nat>)
    ensures r.Some? ==> from <= r.value && OccursAt(s, r.value, pat)
    ensures r.Some? ==> forall q :: from <= q < r.value ==> !OccursAt(s, q, pat)
    ensures r.None? ==> forall q :: from <= q ==> !OccursAt(s, q, pat)
    decreases |s| - from
  {
    if from + |pat| > |s| then None
    else if OccursAt(s, from, pat) then Some(from)
    else IndexOfFrom(s, pat, from + 1)
  }

  function IndexOf(s: string, pat: string): Option<nat>
  {
    IndexOfFrom(s, pat, 0)
  }

  /** `s.replace(pat, rep)` with a string pattern and a replacement without `$`. */
  function ReplaceFirst(s: string, pat: string, rep: string): string
  {
    match IndexOf(s, pat)
    case None => s
    case Some(i) => s[..i] + rep + s[i + |pat|..]
  }

  /**
   * When the first occurrence of `pat` is at `p`, `replace` swaps exactly
   * that occurrence for `rep` and keeps the text on both sides.
   */
  lemma ReplaceFirstAt(s: string, pat: string, rep: string, p: nat)
    requires OccursAt(s, p, pat)
    requires forall q :: 0 <= q < p ==> !OccursAt(s, q, pat)
    ensures ReplaceFirst(s, pat, rep) == s[..p] + rep + s[p + |pat|..]
  {
  }

  /** Without an occurrence, `replace` returns the string unchanged. */
  lemma ReplaceFirstAbsent(s: string, pat: string, rep: string)
    requires forall q :: 0 <= q ==> !OccursAt(s, q, pat)
    ensures ReplaceFirst(s, pat, rep) == s
  {
  }
}
