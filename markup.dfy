/**
 * The HTML escape chain that `format_code_blocks` applies to code before
 * wrapping it in markup (server.py):
 * `code.replace('&', '&amp;').replace('<', '&lt;').replace('>', '&gt;')`.
 */
module Markup {

  /** `s.replace(c, rep)` for a single character `c`. */
  function ReplaceChar(s: string, c: char, rep: string): (r: string)
    decreases |s|
  {
    if s == [] then [] else (if s[0] == c then rep else [s[0]]) + ReplaceChar(s[1..], c, rep)
  }

  /** The chain as written: ampersands first, then `<`, then `>`. */
  function EscapeChain(s: string): string {
    ReplaceChar(ReplaceChar(ReplaceChar(s, '&', "&amp;"), '<', "&lt;"), '>', "&gt;")
  }

  /** The entity of one character. */
  function EscapeChar(c: char): string {
    if c == '&' then "&amp;" else if c == '<' then "&lt;" else if c == '>' then "&gt;" else [c]
  }

  /** Character-by-character escaping, the reference the chain is measured against. */
  function EscapeEach(s: string): string
    decreases |s|
  {
    if s == [] then [] else EscapeChar(s[0]) + EscapeEach(s[1..])
  }

  lemma {:induction false} ReplaceCharConcat(a: string, b: string, c: char, rep: string)
    ensures ReplaceChar(a + b, c, rep) == ReplaceChar(a, c, rep) + ReplaceChar(b, c, rep)
    decreases |a|
  {
    if a == [] {
      assert a + b == b;
    } else {
      ReplaceCharConcat(a[1..], b, c, rep);
      assert (a + b)[1..] == a[1..] + b;
    }
  }

  lemma {:induction false} ReplaceCharAbsent(s: string, c: char, rep: string)
    requires c !in s
    ensures ReplaceChar(s, c, rep) == s
    decreases |s|
  {
    if s != [] {
      ReplaceCharAbsent(s[1..], c, rep);
    }
  }

  lemma ReplaceCharSingle(c: char, d: char, rep: string)
    ensures ReplaceChar([c], d, rep) == if c == d then rep else [c]
  {
    assert [c][1..] == [];
  }

  lemma EscapeChainOfChar(c: char)
    ensures EscapeChain([c]) == EscapeChar(c)
  {
    ReplaceCharSingle(c, '&', "&amp;");
    if c == '&' {
      ReplaceCharAbsent("&amp;", '<', "&lt;");
      ReplaceCharAbsent("&amp;", '>', "&gt;");
    } else {
      ReplaceCharSingle(c, '<', "&lt;");
      if c == '<' {
        ReplaceCharAbsent("&lt;", '>', "&gt;");
      } else {
        ReplaceCharSingle(c, '>', "&gt;");
      }
    }
  }

  /**
   * Because `&` is replaced first, the chain escapes every character exactly
   * once: no entity it introduces is escaped again.
   */
  lemma {:induction false} EscapeChainIsEachwise(s: string)
    ensures EscapeChain(s) == EscapeEach(s)
    decreases |s|
  {
    if s != [] {
      EscapeChainIsEachwise(s[1..]);
      assert s == [s[0]] + s[1..];
      var a := ReplaceChar([s[0]], '&', "&amp;");
      var b := ReplaceChar(s[1..], '&', "&amp;");
      ReplaceCharConcat([s[0]], s[1..], '&', "&amp;");
      ReplaceCharConcat(a, b, '<', "&lt;");
      ReplaceCharConcat(ReplaceChar(a, '<', "&lt;"), ReplaceChar(b, '<', "&lt;"), '>', "&gt;");
      EscapeChainOfChar(s[0]);
    }
  }

  predicate StartsWithText(s: string, p: string) {
    |p| <= |s| && s[..|p|] == p
  }

  /** Reads the three entities back; every other character stands for itself. */
  function Unescape(s: string): string
    decreases |s|
  {
    if s == [] then []
    else if StartsWithText(s, "&amp;") then "&" + Unescape(s[5..])
    else if StartsWithText(s, "&lt;") then "<" + Unescape(s[4..])
    else if StartsWithText(s, "&gt;") then ">" + Unescape(s[4..])
    else [s[0]] + Unescape(s[1..])
  }

  /** The escaped text contains no `<` and no `>`: it cannot open or close a tag. */
  lemma {:induction false} EscapedHasNoBrackets(s: string)
    ensures '<' !in EscapeChain(s) && '>' !in EscapeChain(s)
    decreases |s|
  {
    EscapeChainIsEachwise(s);
    EscapeEachNoBrackets(s);
  }

  lemma {:induction false} EscapeEachNoBrackets(s: string)
    ensures '<' !in EscapeEach(s) && '>' !in EscapeEach(s)
    decreases |s|
  {
    if s != [] {
      EscapeEachNoBrackets(s[1..]);
    }
  }

  /** Unescaping the chain's output gives back the original text. */
  lemma {:induction false} UnescapeEscape(s: string)
    ensures Unescape(EscapeChain(s)) == s
  {
    EscapeChainIsEachwise(s);
    UnescapeEach(s);
  }

  /** Text that does not start with `&` does not start with an entity. */
  lemma NotAnEntity(e: string)
    requires |e| > 0 && e[0] != '&'
    ensures !StartsWithText(e, "&amp;") && !StartsWithText(e, "&lt;") && !StartsWithText(e, "&gt;")
  {
    assert |e| >= 5 ==> e[..5][0] == e[0];
    assert |e| >= 4 ==> e[..4][0] == e[0];
  }

  lemma {:induction false} UnescapeEach(s: string)
    ensures Unescape(EscapeEach(s)) == s
    decreases |s|
  {
    if s != [] {
      var c, rest := s[0], EscapeEach(s[1..]);
      var e := EscapeChar(c) + rest;
      UnescapeEach(s[1..]);
      if c == '&' {
        assert e[..5] == "&amp;" && e[5..] == rest;
      } else if c == '<' {
        assert e[..4] == "&lt;" && e[4..] == rest;
        assert |e| >= 5 ==> e[..5][1] == 'l';
      } else if c == '>' {
        assert e[..4] == "&gt;" && e[4..] == rest;
        assert |e| >= 5 ==> e[..5][1] == 'g';
        assert e[..4][1] == 'g';
      } else {
        assert e[0] == c && e[1..] == rest;
        NotAnEntity(e);
      }
      assert s == [c] + s[1..];
    }
  }
}
