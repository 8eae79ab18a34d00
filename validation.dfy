/**
 * Request-field validation of the chat server: message text, model name and
 * conversation id (server.py, `validate_input`, `validate_model`,
 * `validate_conversation_id`).
 */
module Validation {
  import opened Wrappers
  import opened Text

  const MAX_MESSAGE_LENGTH: int := 1000
  const ALLOWED_MODELS: seq<string> := ["phi3:latest", "deepseek-r1:1.5b", "llama3:latest"]
  /** The server's fallback model (the `DEFAULT_MODEL` setting when the environment leaves it unset). */
  const DEFAULT_MODEL: string := "phi3:latest"

  // ---------------------------------------------------------------------------
  // Scanning helpers for the denylist and the id pattern
  // ---------------------------------------------------------------------------

  /** ASCII case folding, as `re.IGNORECASE` applies it to ASCII letters. */
  function LowerAscii(c: char): char {
    if 'A' <= c <= 'Z' then (c as int + 32) as char else c
  }

  function LowerAll(t: string): (r: string)
    ensures |r| == |t|
  {
    seq(|t|, k requires 0 <= k < |t| => LowerAscii(t[k]))
  }

  /** `s` starts with the lower-case `pattern`, ignoring ASCII case. */
  predicate StartsIgnoringCase(s: string, pattern: string) {
    |pattern| <= |s| && LowerAll(s[..|pattern|]) == pattern
  }

  /** `re.search(pattern, s, re.IGNORECASE)` for a pattern made of literal characters. */
  predicate ContainsIgnoringCase(s: string, pattern: string)
    decreases |s|
  {
    |pattern| <= |s| && (StartsIgnoringCase(s, pattern) || ContainsIgnoringCase(s[1..], pattern))
  }

  /** `\w` restricted to ASCII. */
  predicate IsWordChar(c: char) {
    ('a' <= c <= 'z') || ('A' <= c <= 'Z') || ('0' <= c <= '9') || c == '_'
  }

  /** The length of the run of word characters at the front of `s` (a greedy `\w*`). */
  function WordRun(s: string): (n: nat)
    ensures n <= |s|
  {
    if |s| > 0 && IsWordChar(s[0]) then 1 + WordRun(s[1..]) else 0
  }

  /** The length of the run of whitespace at the front of `s` (a greedy `\s*`). */
  function SpaceRun(s: string): (n: nat)
    ensures n <= |s|
  {
    if |s| > 0 && IsSpace(s[0]) then 1 + SpaceRun(s[1..]) else 0
  }

  /** The length of the run of characters other than `>` at the front of `s` (a greedy `[^>]*`). */
  function TagBodyRun(s: string): (n: nat)
    ensures n <= |s|
  {
    if |s| > 0 && s[0] != '>' then 1 + TagBodyRun(s[1..]) else 0
  }

  /** `.*?</script>` matches at the front of `s`: a closing tag comes before any newline. */
  predicate ClosingTagOnLine(s: string)
    decreases |s|
  {
    StartsIgnoringCase(s, "</script>") || (|s| > 0 && s[0] != '\n' && ClosingTagOnLine(s[1..]))
  }

  /**
   * `<script[^>]*>.*?</script>` matches at the front of `s`: the tag opens,
   * `[^>]*>` runs to the first `>`, and a closing tag follows on the same line
   * (`.` does not match a newline).
   */
  predicate ScriptBlockAtStart(s: string) {
    && StartsIgnoringCase(s, "<script")
    && var body := s[7..];
       var g := TagBodyRun(body);
       g < |body| && ClosingTagOnLine(body[g + 1..])
  }

  /** `on\w+\s*=` matches at the front of `s`: `on`, a non-empty word run, optional whitespace, then `=`. */
  predicate EventHandlerAtStart(s: string) {
    && StartsIgnoringCase(s, "on")
    && var rest := s[2..];
       var w := WordRun(rest);
       && w > 0
       && var after := rest[w..];
          var e := SpaceRun(after);
          e < |after| && after[e] == '='
  }

  /** Some match of the script-element pattern starts somewhere in `s`. */
  predicate ContainsScriptBlock(s: string)
    decreases |s|
  {
    |s| > 0 && (ScriptBlockAtStart(s) || ContainsScriptBlock(s[1..]))
  }

  /** Some match of the inline-handler pattern starts somewhere in `s`. */
  predicate ContainsEventHandler(s: string)
    decreases |s|
  {
    |s| > 0 && (EventHandlerAtStart(s) || ContainsEventHandler(s[1..]))
  }

  /** The four-pattern denylist of `validate_input`, each searched anywhere in the text. */
  predicate Dangerous(s: string) {
    || ContainsScriptBlock(s)
    || ContainsIgnoringCase(s, "javascript:")
    || ContainsIgnoringCase(s, "data:text/html")
    || ContainsEventHandler(s)
  }

  // ---------------------------------------------------------------------------
  // validate_input
  // ---------------------------------------------------------------------------

  /** `data.strip().replace('\x00', '')`: whitespace is stripped first, NULs removed after. */
  function Clean(data: string): string {
    RemoveChar(Strip(data), '\0')
  }

  /**
   * `validate_input(data, max_length)`: `None` for empty input, for cleaned text
   * longer than `max_length` and for cleaned text the denylist matches;
   * otherwise the cleaned text.
   */
  function ValidateInput(data: string, maxLength: int): (r: Option<string>)
    ensures r.Some? ==> data != "" && r.value == Clean(data)
    ensures r.Some? ==> '\0' !in r.value && |r.value| <= maxLength && !Dangerous(r.value)
    ensures r.None? <==> data == "" || |Clean(data)| > maxLength || Dangerous(Clean(data))
  {
    if data == "" then None
    else
      var cleaned := Clean(data);
      if |cleaned| > maxLength then None
      else if Dangerous(cleaned) then None
      else Some(cleaned)
  }

  /**
   * An accepted text is a middle slice of the input, bounded by whitespace on
   * both sides, with its NULs removed.
   */
  lemma ValidatedInputIsTrimmedSlice(data: string, maxLength: int)
    requires ValidateInput(data, maxLength).Some?
    ensures exists i, j :: 0 <= i <= j <= |data| && AllSpace(data[..i]) && AllSpace(data[j..])
                           && ValidateInput(data, maxLength).value == RemoveChar(data[i..j], '\0')
  {
    CleanIsTrimmedSlice(data);
  }

  lemma CleanIsTrimmedSlice(data: string)
    ensures exists i, j :: 0 <= i <= j <= |data| && AllSpace(data[..i]) && AllSpace(data[j..])
                           && Clean(data) == RemoveChar(data[i..j], '\0')
  {
    StripStartsAtFirstNonSpace(data);
    var i := SkipSpaces(data, 0);
    var j := i + |Strip(data)|;
    assert Strip(data) == data[i..j];
  }

  /** Input made only of whitespace passes, as the empty string, whenever the limit admits it. */
  lemma WhitespaceOnlyInput(data: string, maxLength: int)
    requires data != "" && AllSpace(data)
    ensures ValidateInput(data, maxLength) == if maxLength >= 0 then Some("") else None
  {
    assert Clean(data) == "";
  }

  /** A leading NUL shields whatever follows it from `strip()`, and is removed afterwards. */
  lemma NulShieldsSpace(t: string)
    requires t != [] && !IsSpace(t[|t| - 1]) && '\0' !in t
    ensures Clean("\0" + t) == t
  {
    var s := "\0" + t;
    assert s[|s| - 1] == t[|t| - 1];
    StripNoSpace(s);
    assert s[1..] == t;
    RemoveCharAbsent(t);
  }

  /**
   * NULs are removed only after stripping, so whitespace behind a leading NUL
   * survives: `"\0 hi"` is accepted as `" hi"`.
   */
  lemma ValidateInputKeepsShieldedSpace(t: string, maxLength: int)
    requires t != [] && !IsSpace(t[|t| - 1]) && '\0' !in t
    requires |t| <= maxLength && !Dangerous(t)
    ensures ValidateInput("\0" + t, maxLength) == Some(t)
  {
    NulShieldsSpace(t);
  }

  /** A short text without any pattern's first letter matches none of the four patterns. */
  lemma {:induction false} NoMatchInShortText(v: string)
    requires |v| < 7 && forall i :: 0 <= i < |v| ==> LowerAscii(v[i]) != 'o'
    ensures !Dangerous(v)
    decreases |v|
  {
    if |v| >= 2 {
      assert LowerAll(v[..2])[0] == LowerAscii(v[0]);
    }
    if |v| > 0 {
      NoMatchInShortText(v[1..]);
    }
  }

  /** Text with no surrounding whitespace and no NUL is left as it is by the cleaning step. */
  lemma CleanOfTrimmed(s: string)
    requires s != [] && !IsSpace(s[0]) && !IsSpace(s[|s| - 1]) && '\0' !in s
    ensures Clean(s) == s
  {
    StripNoSpace(s);
    RemoveCharAbsent(s);
  }

  /** Trimmed, NUL-free text that the denylist matches is refused, whatever the limit. */
  lemma RefusedWhenDangerous(s: string, maxLength: int)
    requires s != [] && !IsSpace(s[0]) && !IsSpace(s[|s| - 1]) && '\0' !in s
    requires Dangerous(s)
    ensures ValidateInput(s, maxLength).None?
  {
    CleanOfTrimmed(s);
  }

  /** `.*?</script>` matches text that reaches a closing tag without crossing a newline. */
  lemma {:induction false} ClosingTagAfter(prefix: string, rest: string)
    requires '\n' !in prefix && StartsIgnoringCase(rest, "</script>")
    ensures ClosingTagOnLine(prefix + rest)
    decreases |prefix|
  {
    if prefix == [] {
      assert prefix + rest == rest;
    } else {
      ClosingTagAfter(prefix[1..], rest);
      assert (prefix + rest)[1..] == prefix[1..] + rest;
    }
  }

  /** A script element whose body stays on one line is refused, e.g. `<script>alert(1)</script>`. */
  lemma ScriptElementRefused(body: string, maxLength: int)
    requires '\n' !in body && '\0' !in body
    ensures ValidateInput("<script>" + body + "</script>", maxLength).None?
  {
    var close := "</script>";
    var s := "<script>" + body + close;
    assert s[..7] == "<script";
    var rest := s[7..];
    assert rest[0] == '>';
    assert rest[1..] == body + close;
    assert StartsIgnoringCase(close, close) by {
      assert close[..9] == close;
    }
    ClosingTagAfter(body, close);
    assert ScriptBlockAtStart(s);
    assert Dangerous(s);
    assert s[|s| - 1] == '>';
    RefusedWhenDangerous(s, maxLength);
  }

  /**
   * A `javascript:` URL is refused whatever the letter case of the scheme,
   * e.g. `JavaScript:go()`.
   */
  lemma ScriptUrlRefused(scheme: string, rest: string, maxLength: int)
    requires LowerAll(scheme) == "javascript:"
    requires '\0' !in rest && (rest == [] || !IsSpace(rest[|rest| - 1]))
    ensures ValidateInput(scheme + rest, maxLength).None?
  {
    var s := scheme + rest;
    assert s[..11] == scheme;
    assert Dangerous(s);
    forall i | 0 <= i < |scheme|
      ensures scheme[i] != '\0'
    {
      assert LowerAll(scheme)[i] == LowerAscii(scheme[i]);
    }
    assert LowerAll(scheme)[0] == LowerAscii(s[0]);
    assert rest == [] ==> LowerAll(scheme)[10] == LowerAscii(s[|s| - 1]);
    RefusedWhenDangerous(s, maxLength);
  }

  lemma {:induction false} WordRunOf(w: string, t: string)
    requires forall i :: 0 <= i < |w| ==> IsWordChar(w[i])
    requires t == [] || !IsWordChar(t[0])
    ensures WordRun(w + t) == |w|
    decreases |w|
  {
    if w != [] {
      WordRunOf(w[1..], t);
      assert (w + t)[1..] == w[1..] + t;
    } else {
      assert w + t == t;
    }
  }

  lemma {:induction false} SpaceRunOf(sp: string, t: string)
    requires AllSpace(sp) && (t == [] || !IsSpace(t[0]))
    ensures SpaceRun(sp + t) == |sp|
    decreases |sp|
  {
    if sp != [] {
      SpaceRunOf(sp[1..], t);
      assert (sp + t)[1..] == sp[1..] + t;
    } else {
      assert sp + t == t;
    }
  }

  /** `on\w+\s*=` matches `on`, a word, optional whitespace and `=`, whatever follows. */
  lemma HandlerAttribute(word: string, sp: string, tail: string)
    requires |word| > 0 && forall i :: 0 <= i < |word| ==> IsWordChar(word[i])
    requires AllSpace(sp)
    ensures EventHandlerAtStart("on" + word + sp + "=" + tail)
  {
    var s := "on" + word + sp + "=" + tail;
    assert s[..2] == "on";
    assert s[2..] == word + (sp + "=" + tail);
    WordRunOf(word, sp + "=" + tail);
    assert s[2..][|word|..] == sp + ("=" + tail);
    SpaceRunOf(sp, "=" + tail);
  }

  /** A handler match that starts after any prefix is found by the search. */
  lemma {:induction false} EventHandlerAfter(prefix: string, rest: string)
    requires EventHandlerAtStart(rest)
    ensures ContainsEventHandler(prefix + rest)
    decreases |prefix|
  {
    if prefix == [] {
      assert prefix + rest == rest;
    } else {
      EventHandlerAfter(prefix[1..], rest);
      assert (prefix + rest)[1..] == prefix[1..] + rest;
    }
  }

  /**
   * An inline event handler is refused, with or without whitespace before its
   * `=`, e.g. `<img onerror = x>`.
   */
  lemma EventHandlerRefused(word: string, sp: string, tail: string, maxLength: int)
    requires |word| > 0 && forall i :: 0 <= i < |word| ==> IsWordChar(word[i])
    requires AllSpace(sp)
    requires tail != [] && !IsSpace(tail[|tail| - 1]) && '\0' !in tail
    ensures ValidateInput("<img " + ("on" + word + sp + "=" + tail), maxLength).None?
  {
    var handler := "on" + word + sp + "=" + tail;
    var s := "<img " + handler;
    HandlerAttribute(word, sp, tail);
    EventHandlerAfter("<img ", handler);
    assert ContainsEventHandler(s);
    assert s[|s| - 1] == tail[|tail| - 1];
    assert '\0' !in handler by {
      assert '\0' !in word && '\0' !in sp;
      assert '\0' !in "on" + word + sp + "=";
    }
    assert s[0] == '<' && '\0' !in "<img ";
    RefusedWhenDangerous(s, maxLength);
  }

  lemma RemoveCharAbsent(s: string)
    requires '\0' !in s
    ensures RemoveChar(s, '\0') == s
  {
  }

  // ---------------------------------------------------------------------------
  // validate_model and validate_conversation_id
  // ---------------------------------------------------------------------------

  /** `validate_model`: membership in the allow-list. */
  predicate ValidateModel(model: string) {
    model in ALLOWED_MODELS
  }

  /** The fallback model is itself allowed, so a fallback never fails validation. */
  lemma DefaultModelIsAllowed()
    ensures ValidateModel(DEFAULT_MODEL)
    ensures forall m :: ValidateModel(m) <==> m == "phi3:latest" || m == "deepseek-r1:1.5b" || m == "llama3:latest"
  {
  }

  predicate IsIdChar(c: char) {
    ('a' <= c <= 'z') || ('A' <= c <= 'Z') || ('0' <= c <= '9') || c == '_' || c == '-'
  }

  predicate AllIdChars(s: string) {
    forall i :: 0 <= i < |s| ==> IsIdChar(s[i])
  }

  /** The length of the run of id characters at the front of `s` (a greedy `[a-zA-Z0-9_-]*`). */
  function IdRun(s: string): (n: nat)
    ensures n <= |s|
    ensures forall m :: 0 <= m < n ==> IsIdChar(s[m])
    ensures n < |s| ==> !IsIdChar(s[n])
  {
    if |s| > 0 && IsIdChar(s[0]) then 1 + IdRun(s[1..]) else 0
  }

  /**
   * `re.match(r'^[a-zA-Z0-9_-]+$', id)`: a greedy non-empty run of id characters
   * from the start, then `$`, which holds at the end of the string or before a
   * single final newline.
   */
  function ValidateConversationId(id: string): (ok: bool)
    ensures ok ==> |id| >= 1 && IsIdChar(id[0])
  {
    var k := IdRun(id);
    k >= 1 && (k == |id| || (k == |id| - 1 && id[k] == '\n'))
  }

  /**
   * The accepted ids are exactly the non-empty strings over `[A-Za-z0-9_-]`,
   * each optionally followed by one newline.
   */
  lemma ConversationIdAccepts(id: string)
    ensures ValidateConversationId(id) <==>
              (|id| >= 1 && AllIdChars(id))
              || (|id| >= 2 && id[|id| - 1] == '\n' && AllIdChars(id[..|id| - 1]))
  {
    var k := IdRun(id);
    if |id| >= 2 && id[|id| - 1] == '\n' && AllIdChars(id[..|id| - 1]) {
      forall m | 0 <= m < |id| - 1 ensures IsIdChar(id[m]) {
        assert id[..|id| - 1][m] == id[m];
      }
    }
  }

  /** A path-like id is refused. */
  lemma PathLikeIdRefused()
    ensures !ValidateConversationId("../etc")
  {
    assert !IsIdChar("../etc"[0]);
  }

  /** `$` also matches before a final newline, so one trailing newline slips through. */
  lemma TrailingNewlineAccepted()
    ensures ValidateConversationId("abc\n")
  {
    ConversationIdAccepts("abc\n");
    assert "abc\n"[..3] == "abc";
  }

  /** Every id the server generates for a new conversation, `chat_` and a timestamp, is valid. */
  lemma GeneratedIdIsValid(n: nat)
    ensures ValidateConversationId("chat_" + NatToString(n))
  {
    var id := "chat_" + NatToString(n);
    ConversationIdAccepts(id);
    assert forall m :: 5 <= m < |id| ==> id[m] == NatToString(n)[m - 5];
  }
}
