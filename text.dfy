/**
 * String helpers with Python's meaning: `str.isspace`, `str.strip`,
 * `str.replace(x, '')`, `str(n)` and `int(s)`.
 */
module Text {
  import opened Wrappers

  /** Python's `str.isspace()` for one character. */
  predicate IsSpace(c: char) {
    || c == ' '
    || ('\t' <= c <= '\r')
    || ('\U{1c}' <= c <= '\U{1f}')
    || c == '\U{85}' || c == '\U{a0}' || c == '\U{1680}'
    || ('\U{2000}' <= c <= '\U{200a}')
    || c == '\U{2028}' || c == '\U{2029}' || c == '\U{202f}' || c == '\U{205f}' || c == '\U{3000}'
  }

  predicate AllSpace(s: string) {
    forall i :: 0 <= i < |s| ==> IsSpace(s[i])
  }

  predicate StartsWith(s: string, prefix: string) {
    |prefix| <= |s| && s[..|prefix|] == prefix
  }

  /** The index of the first non-whitespace character at or after `i`, or `|s|` when there is none. */
  function SkipSpaces(s: string, i: nat): (k: nat)
    requires i <= |s|
    ensures i <= k <= |s|
    ensures forall m :: i <= m < k ==> IsSpace(s[m])
    ensures k < |s| ==> !IsSpace(s[k])
    decreases |s| - i
  {
    if i < |s| && IsSpace(s[i]) then SkipSpaces(s, i + 1) else i
  }

  /** The index just past the last non-whitespace character in `s[lo..j]`, or `lo` when there is none. */
  function SkipSpacesBack(s: string, lo: nat, j: nat): (k: nat)
    requires lo <= j <= |s|
    ensures lo <= k <= j
    ensures forall m :: k <= m < j ==> IsSpace(s[m])
    ensures k > lo ==> !IsSpace(s[k - 1])
    decreases j
  {
    if j > lo && IsSpace(s[j - 1]) then SkipSpacesBack(s, lo, j - 1) else j
  }

  /**
   * `s.strip()`: the result is a middle slice of `s`, everything cut away on
   * either side is whitespace, and the result neither starts nor ends with
   * whitespace.
   */
  function Strip(s: string): (r: string)
    ensures exists i :: 0 <= i <= |s| - |r| && r == s[i..i + |r|] && AllSpace(s[..i]) && AllSpace(s[i + |r|..])
    ensures r == [] || (!IsSpace(r[0]) && !IsSpace(r[|r| - 1]))
  {
    var i := SkipSpaces(s, 0);
    var j := SkipSpacesBack(s, i, |s|);
    StripCut(s, i, j);
    s[i..j]
  }

  /** The cut `strip()` makes: the slice `s[i..j]` with whitespace only outside it. */
  lemma StripCut(s: string, i: nat, j: nat)
    requires i == SkipSpaces(s, 0) && j == SkipSpacesBack(s, i, |s|)
    ensures s[i..j] == s[i..i + (j - i)]
    ensures AllSpace(s[..i]) && AllSpace(s[j..])
    ensures s[i..j] == [] || (!IsSpace(s[i..j][0]) && !IsSpace(s[i..j][j - i - 1]))
  {
  }

  /** The slice `strip()` keeps starts at the first non-whitespace character. */
  lemma StripStartsAtFirstNonSpace(s: string)
    ensures var i := SkipSpaces(s, 0);
      i + |Strip(s)| <= |s| && Strip(s) == s[i..i + |Strip(s)|]
      && AllSpace(s[..i]) && AllSpace(s[i + |Strip(s)|..])
  {
    var i := SkipSpaces(s, 0);
    StripCut(s, i, SkipSpacesBack(s, i, |s|));
  }

  lemma StripNoSpace(s: string)
    requires |s| > 0 && !IsSpace(s[0]) && !IsSpace(s[|s| - 1])
    ensures Strip(s) == s
  {
  }

  /** `s.replace(c, '')`: every occurrence of `c` removed, the other characters kept in order. */
  function RemoveChar(s: string, c: char): (r: string)
    ensures c !in r
    ensures |r| <= |s|
    ensures forall x :: x in r <==> x in s && x != c
    ensures c !in s ==> r == s
  {
    if s == [] then [] else (if s[0] == c then [] else [s[0]]) + RemoveChar(s[1..], c)
  }

  /** Every character other than `c` keeps its number of occurrences; `c` has none left. */
  lemma {:induction false} RemoveCharCounts(s: string, c: char)
    ensures multiset(RemoveChar(s, c)) == multiset(s)[c := 0]
    decreases |s|
  {
    if s != [] {
      assert s == [s[0]] + s[1..];
      RemoveCharCounts(s[1..], c);
    }
  }

  /** Removing from a concatenation removes from each part. */
  lemma {:induction false} RemoveCharConcat(a: string, b: string, c: char)
    ensures RemoveChar(a + b, c) == RemoveChar(a, c) + RemoveChar(b, c)
    decreases |a|
  {
    if a != [] {
      var head := if a[0] == c then [] else [a[0]];
      assert (a + b)[0] == a[0];
      assert (a + b)[1..] == a[1..] + b;
      assert RemoveChar(a + b, c) == head + RemoveChar(a[1..] + b, c);
      assert RemoveChar(a, c) == head + RemoveChar(a[1..], c);
      RemoveCharConcat(a[1..], b, c);
      assert head + (RemoveChar(a[1..], c) + RemoveChar(b, c)) == (head + RemoveChar(a[1..], c)) + RemoveChar(b, c);
    } else {
      assert a + b == b;
    }
  }

  /**
   * `s.replace(pattern, '')` for a non-empty pattern: occurrences are found left
   * to right and do not overlap.
   */
  function RemoveAll(s: string, pattern: string): (r: string)
    requires |pattern| > 0
    decreases |s|
  {
    if |s| < |pattern| then s
    else if s[..|pattern|] == pattern then RemoveAll(s[|pattern|..], pattern)
    else [s[0]] + RemoveAll(s[1..], pattern)
  }

  /** A string that does not contain the pattern's first character is left as it is. */
  lemma {:induction false} RemoveAllAbsent(s: string, pattern: string)
    requires |pattern| > 0 && pattern[0] !in s
    ensures RemoveAll(s, pattern) == s
    decreases |s|
  {
    if |s| >= |pattern| {
      assert s[0] != pattern[0];
      assert s[..|pattern|] != pattern;
      RemoveAllAbsent(s[1..], pattern);
      assert s == [s[0]] + s[1..];
    }
  }

  predicate IsDigit(c: char) {
    '0' <= c <= '9'
  }

  predicate AllDigits(s: string) {
    forall i :: 0 <= i < |s| ==> IsDigit(s[i])
  }

  function DigitChar(d: nat): (c: char)
    requires d < 10
    ensures IsDigit(c) && c as int - '0' as int == d
  {
    ('0' as int + d) as char
  }

  /** Python's `str(n)` for a non-negative integer: its decimal digits, no leading zero. */
  function NatToString(n: nat): (r: string)
    ensures |r| >= 1 && AllDigits(r)
    ensures n >= 10 ==> r[0] != '0'
    ensures r[0] == '0' <==> n == 0
    ensures n == 0 ==> r == "0"
    decreases n
  {
    if n < 10 then [DigitChar(n)] else NatToString(n / 10) + [DigitChar(n % 10)]
  }

  /** Python's `str(n)` for any integer. */
  function IntToString(n: int): (r: string)
    ensures |r| >= 1
    ensures n >= 0 ==> AllDigits(r)
    ensures n < 0 ==> r[0] == '-' && AllDigits(r[1..])
  {
    if n < 0 then "-" + NatToString(-n) else NatToString(n)
  }

  /** The value of a string of decimal digits. */
  function DigitsValue(s: string): nat
    requires AllDigits(s)
    decreases |s|
  {
    if |s| == 0 then 0 else DigitsValue(s[..|s| - 1]) * 10 + (s[|s| - 1] as int - '0' as int)
  }

  /**
   * `int(t)` once surrounding whitespace is gone: an optional sign and at
   * least one ASCII digit; anything else raises `ValueError`, rendered as
   * `None`.
   */
  function ParseStripped(t: string): (r: Option<int>)
    ensures r.Some? ==> |t| > 0 && IsDigit(t[|t| - 1])
    ensures r.Some? && t[0] != '-' ==> r.value >= 0
  {
    if |t| > 0 && (t[0] == '-' || t[0] == '+') then
      var d := t[1..];
      if |d| > 0 && AllDigits(d) then
        assert t[|t| - 1] == d[|d| - 1];
        var v: int := DigitsValue(d);
        Some(if t[0] == '-' then -v else v)
      else None
    else if |t| > 0 && AllDigits(t) then
      Some(DigitsValue(t))
    else None
  }

  /** Python's `int(s)` for ASCII input: surrounding whitespace is ignored. */
  function ParseInt(s: string): Option<int> {
    ParseStripped(Strip(s))
  }

  lemma {:induction false} NatToStringValue(n: nat)
    ensures DigitsValue(NatToString(n)) == n
    decreases n
  {
    if n >= 10 {
      var r := NatToString(n);
      NatToStringValue(n / 10);
      assert r[..|r| - 1] == NatToString(n / 10);
    }
  }

  /** Parsing the printed form of an integer gives the integer back. */
  lemma SignedRoundTrip(n: int)
    ensures ParseStripped(IntToString(n)) == Some(n)
  {
    var r := IntToString(n);
    if n < 0 {
      var d := NatToString(-n);
      assert r[1..] == d;
      NatToStringValue(-n);
    } else {
      NatToStringValue(n);
    }
  }

  /** `int(str(n)) == n`: printing an integer and parsing it back is the identity. */
  lemma IntToStringRoundTrip(n: int)
    ensures ParseInt(IntToString(n)) == Some(n)
  {
    var r := IntToString(n);
    assert !IsSpace(r[0]) by {
      if n >= 0 { assert IsDigit(r[0]); }
    }
    assert IsDigit(r[|r| - 1]) by {
      if n < 0 { assert r[|r| - 1] == r[1..][|r| - 2]; }
    }
    StripNoSpace(r);
    SignedRoundTrip(n);
  }
}
