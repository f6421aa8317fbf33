/**
 The string helpers of Go's standard library that the driver relies on:
 `strconv.Itoa` (also what `%d` prints), its inverse, the search for the
 last occurrence of a character, and `strings.TrimSpace`.
 */
module Strings {
  import opened Wrappers

  predicate IsDigit(c: char) {
    '0' <= c <= '9'
  }

  predicate AllDigits(s: string) {
    forall i :: 0 <= i < |s| ==> IsDigit(s[i])
  }

  function DigitChar(d: nat): (c: char)
    requires d < 10
    ensures IsDigit(c)
    ensures c as int - '0' as int == d
  {
    ('0' as int + d) as char
  }

  function DigitValue(c: char): (d: nat)
    requires IsDigit(c)
    ensures d < 10
  {
    c as int - '0' as int
  }

  /** The decimal digits of `n`, most significant first, without leading zeros. */
  function NatToDecimal(n: nat): (s: string)
    ensures |s| >= 1
    ensures AllDigits(s)
    ensures |s| > 1 ==> s[0] != '0'
    decreases n
  {
    if n < 10 then [DigitChar(n)] else NatToDecimal(n / 10) + [DigitChar(n % 10)]
  }

  /** Digits with no leading zero, other than "0" itself. */
  predicate Canonical(digits: string) {
    |digits| >= 1 && AllDigits(digits) && (|digits| > 1 ==> digits[0] != '0')
  }

  /** `strconv.Itoa`: the canonical decimal form of `n`, with a leading '-' when negative. */
  function Itoa(n: int): (s: string)
    ensures |s| >= 1
    ensures s[0] == '-' <==> n < 0
    ensures n >= 0 ==> Canonical(s)
    ensures n < 0 ==> |s| > 1 && Canonical(s[1..]) && s[1] != '0'
    ensures ':' !in s
  {
    if n < 0 then "-" + NatToDecimal(-n) else NatToDecimal(n)
  }

  /** The value of a string of decimal digits (0 for the empty string). */
  function DecimalValue(s: string): nat
    requires AllDigits(s)
  {
    if |s| == 0 then 0 else DecimalValue(s[..|s| - 1]) * 10 + DigitValue(s[|s| - 1])
  }

  /** Reads back what `Itoa` writes: an optional '-' followed by at least one digit. */
  function ParseInt(s: string): Option<int> {
    if |s| > 1 && s[0] == '-' && AllDigits(s[1..]) then Some(-(DecimalValue(s[1..]) as int))
    else if |s| > 0 && AllDigits(s) then Some(DecimalValue(s))
    else None
  }

  lemma {:induction false} DecimalRoundTrip(n: nat)
    ensures DecimalValue(NatToDecimal(n)) == n
    decreases n
  {
    if n >= 10 {
      var s := NatToDecimal(n);
      DecimalRoundTrip(n / 10);
      assert s[..|s| - 1] == NatToDecimal(n / 10);
    }
  }

  lemma ItoaRoundTripNeg(n: int)
    requires n < 0
    ensures ParseInt(Itoa(n)) == Some(n)
  {
    var digits := NatToDecimal(-n);
    var s := "-" + digits;
    assert Itoa(n) == s;
    assert s[1..] == digits;
    DecimalRoundTrip(-n);
  }

  lemma ItoaRoundTripNonNeg(n: int)
    requires n >= 0
    ensures ParseInt(Itoa(n)) == Some(n)
  {
    assert Itoa(n) == NatToDecimal(n);
    assert Itoa(n)[0] != '-';
    DecimalRoundTrip(n);
  }

  /** `Itoa` loses nothing: its output parses back to the same integer. */
  lemma ItoaRoundTrip(n: int)
    ensures ParseInt(Itoa(n)) == Some(n)
  {
    if n < 0 {
      ItoaRoundTripNeg(n);
    } else {
      ItoaRoundTripNonNeg(n);
    }
  }

  /** Distinct integers print differently. */
  lemma ItoaInjective(m: int, n: int)
    requires Itoa(m) == Itoa(n)
    ensures m == n
  {
    ItoaRoundTrip(m);
    ItoaRoundTrip(n);
  }

  /** A canonical digit string other than "0" has a positive value. */
  lemma {:induction false} DecimalPositive(t: string)
    requires |t| >= 1 && AllDigits(t) && t[0] != '0'
    ensures DecimalValue(t) >= 1
    decreases |t|
  {
    if |t| > 1 {
      DecimalPositive(t[..|t| - 1]);
    }
  }

  /** Printing the value of a canonical digit string gives the string back. */
  lemma {:induction false} DecimalCanonical(t: string)
    requires Canonical(t)
    ensures NatToDecimal(DecimalValue(t)) == t
    decreases |t|
  {
    if |t| > 1 {
      var init := t[..|t| - 1];
      assert init[0] == t[0];
      DecimalPositive(init);
      DecimalCanonical(init);
      var v := DecimalValue(t);
      assert v / 10 == DecimalValue(init) && v % 10 == DigitValue(t[|t| - 1]);
      assert DigitChar(v % 10) == t[|t| - 1];
      assert t == init + [t[|t| - 1]];
    }
  }

  /**
   `Itoa` prints the only canonical form of each integer: any text of that
   form is `Itoa` of the integer it parses to.
   */
  lemma ItoaCanonicalUnique(s: string)
    requires |s| > 0
    requires if s[0] == '-' then |s| > 1 && Canonical(s[1..]) && s[1] != '0' else Canonical(s)
    ensures ParseInt(s).Some? && Itoa(ParseInt(s).value) == s
  {
    if s[0] == '-' {
      var t := s[1..];
      DecimalPositive(t);
      DecimalCanonical(t);
      assert s == "-" + t;
    } else {
      DecimalCanonical(s);
    }
  }

  /** The index of the last occurrence of `c` in `s`, if any. */
  function LastIndexOf(s: string, c: char): (r: Option<nat>)
    ensures r.Some? ==> r.value < |s| && s[r.value] == c && c !in s[r.value + 1..]
    ensures r.None? ==> c !in s
  {
    if |s| == 0 then None
    else if s[|s| - 1] == c then Some(|s| - 1)
    else LastIndexOf(s[..|s| - 1], c)
  }

  /** `unicode.IsSpace`: the Latin-1 spaces plus the other characters with the White_Space property. */
  predicate IsSpace(c: char) {
    || c == '\t' || c == '\n' || c == '\U{000B}' || c == '\U{000C}' || c == '\r' || c == ' '
    || c == '\U{0085}' || c == '\U{00A0}' || c == '\U{1680}'
    || ('\U{2000}' <= c <= '\U{200A}')
    || c == '\U{2028}' || c == '\U{2029}' || c == '\U{202F}' || c == '\U{205F}' || c == '\U{3000}'
  }

  predicate AllSpace(s: string) {
    forall i :: 0 <= i < |s| ==> IsSpace(s[i])
  }

  /** A string with no white space at either end. */
  predicate Trimmed(s: string) {
    |s| == 0 || (!IsSpace(s[0]) && !IsSpace(s[|s| - 1]))
  }

  /** The end of the run of white space starting at `k`. */
  function SpaceEnd(s: string, k: nat): (n: nat)
    requires k <= |s|
    ensures k <= n <= |s|
    ensures forall m :: k <= m < n ==> IsSpace(s[m])
    ensures n < |s| ==> !IsSpace(s[n])
    decreases |s| - k
  {
    if k < |s| && IsSpace(s[k]) then SpaceEnd(s, k + 1) else k
  }

  /** The start of the run of white space ending at `k`, not going below `lo`. */
  function SpaceStart(s: string, lo: nat, k: nat): (n: nat)
    requires lo <= k <= |s|
    ensures lo <= n <= k
    ensures forall m :: n <= m < k ==> IsSpace(s[m])
    ensures n > lo ==> !IsSpace(s[n - 1])
    decreases k
  {
    if k > lo && IsSpace(s[k - 1]) then SpaceStart(s, lo, k - 1) else k
  }

  /**
   Where `strings.TrimSpace` cuts: `s[..i]` and `s[j..]` are white space, and
   `s[i..j]` neither starts nor ends with white space.
   */
  function TrimBounds(s: string): (b: (nat, nat))
    ensures b.0 <= b.1 <= |s|
    ensures forall m :: 0 <= m < b.0 ==> IsSpace(s[m])
    ensures forall m :: b.1 <= m < |s| ==> IsSpace(s[m])
    ensures b.0 < b.1 ==> !IsSpace(s[b.0]) && !IsSpace(s[b.1 - 1])
  {
    var i := SpaceEnd(s, 0);
    (i, SpaceStart(s, i, |s|))
  }

  /** `strings.TrimSpace`: `s` without its leading and trailing white space. */
  function TrimSpace(s: string): (r: string)
    ensures Trimmed(r)
    ensures |r| <= |s|
    ensures r == [] <==> AllSpace(s)
  {
    var b := TrimBounds(s);
    s[b.0..b.1]
  }

  /** The bounds are determined by where the white-space padding stops. */
  lemma TrimBoundsExact(s: string, i: nat, j: nat)
    requires i < j <= |s|
    requires forall k :: 0 <= k < i ==> IsSpace(s[k])
    requires forall k :: j <= k < |s| ==> IsSpace(s[k])
    requires !IsSpace(s[i]) && !IsSpace(s[j - 1])
    ensures TrimBounds(s) == (i, j)
  {
  }

  /**
   Trimming recovers exactly the text between any white-space padding: this
   pins `TrimSpace` down completely, since every string is such a padding.
   */
  lemma TrimSpaceOfPadded(pre: string, m: string, post: string)
    requires AllSpace(pre) && AllSpace(post) && Trimmed(m)
    ensures TrimSpace(pre + m + post) == m
  {
    var s := pre + m + post;
    var i, j := |pre|, |pre| + |m|;
    assert forall k :: 0 <= k < i ==> s[k] == pre[k];
    assert forall k :: j <= k < |s| ==> s[k] == post[k - j];
    if |m| == 0 {
      assert AllSpace(s);
    } else {
      assert s[i] == m[0] && s[j - 1] == m[|m| - 1];
      TrimBoundsExact(s, i, j);
      assert s[i..j] == m;
    }
  }

  /** Trimming a string that is already trimmed changes nothing. */
  lemma TrimSpaceOfTrimmed(s: string)
    requires Trimmed(s)
    ensures TrimSpace(s) == s
  {
    assert [] + s + [] == s;
    TrimSpaceOfPadded([], s, []);
  }

  /** `TrimSpace` is idempotent. */
  lemma TrimSpaceIdempotent(s: string)
    ensures TrimSpace(TrimSpace(s)) == TrimSpace(s)
  {
    TrimSpaceOfTrimmed(TrimSpace(s));
  }
}
