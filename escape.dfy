/**
 * `encode` of format.py (lines 36-38): the HTML escape of `&` and `<`,
 * written with Python's `str.replace`.
 */
module Escape {

  /** `s.replace(c, repl)` for a one-character pattern. */
  function ReplaceChar(s: string, c: char, repl: string): (r: string)
    ensures c !in repl ==> c !in r
    ensures c !in s ==> r == s
  {
    if s == [] then []
    else (if s[0] == c then repl else [s[0]]) + ReplaceChar(s[1..], c, repl)
  }

  /** Python's `s.replace(pattern, repl)`: leftmost, non-overlapping occurrences. */
  function ReplaceStr(s: string, pattern: string, repl: string): string
    requires pattern != []
    decreases |s|
  {
    if s == [] then []
    else if pattern <= s then repl + ReplaceStr(s[|pattern|..], pattern, repl)
    else [s[0]] + ReplaceStr(s[1..], pattern, repl)
  }

  /** `encode` (format.py:36-38). */
  function Encode(text: string): (r: string)
    ensures '<' !in r
  {
    ReplaceChar(ReplaceChar(text, '&', "&amp;"), '<', "&lt;")
  }

  /** The escape of one character. */
  function EscapeChar(c: char): string {
    if c == '&' then "&amp;" else if c == '<' then "&lt;" else [c]
  }

  /** Escaping character by character: the reference `encode` is checked against. */
  function EscapeAll(text: string): string {
    if text == [] then [] else EscapeChar(text[0]) + EscapeAll(text[1..])
  }

  lemma {:induction false} ReplaceCharAppend(a: string, b: string, c: char, repl: string)
    ensures ReplaceChar(a + b, c, repl) == ReplaceChar(a, c, repl) + ReplaceChar(b, c, repl)
  {
    if a == [] {
      assert a + b == b;
    } else {
      assert (a + b)[0] == a[0] && (a + b)[1..] == a[1..] + b;
      ReplaceCharAppend(a[1..], b, c, repl);
    }
  }

  /** Text in which `pattern` cannot start is copied through by `replace`. */
  lemma {:induction false} ReplaceStrPast(u: string, rest: string, pattern: string, repl: string)
    requires pattern != []
    requires u != [] ==> !(pattern <= u + rest)
    requires forall i :: 1 <= i < |u| ==> u[i] != pattern[0]
    ensures ReplaceStr(u + rest, pattern, repl) == u + ReplaceStr(rest, pattern, repl)
  {
    if u == [] {
      assert u + rest == rest;
    } else {
      assert (u + rest)[1..] == u[1..] + rest;
      if |u| > 1 {
        assert (u[1..] + rest)[0] == u[1];
      }
      ReplaceStrPast(u[1..], rest, pattern, repl);
      assert u == [u[0]] + u[1..];
    }
  }

  /**
   * Each character is escaped on its own: `&` becomes `&amp;`, `<` becomes
   * `&lt;` and every other character is kept, in place. In particular the
   * `&` of an `&lt;` written by the second replacement is never escaped
   * again, because the replacements run `&` first.
   */
  lemma {:induction false} EncodeEscapes(text: string)
    ensures Encode(text) == EscapeAll(text)
  {
    if text != [] {
      EncodeEscapes(text[1..]);
      var head := if text[0] == '&' then "&amp;" else [text[0]];
      assert ReplaceChar(text, '&', "&amp;") == head + ReplaceChar(text[1..], '&', "&amp;");
      ReplaceCharAppend(head, ReplaceChar(text[1..], '&', "&amp;"), '<', "&lt;");
      if text[0] == '&' {
        assert ReplaceChar(head, '<', "&lt;") == "&amp;";
      } else {
        assert ReplaceChar(head, '<', "&lt;") == EscapeChar(text[0]);
      }
    }
  }

  /** `&` escaped alone, the state between the two decoding replacements. */
  function AmpersandsEscaped(text: string): string {
    ReplaceChar(text, '&', "&amp;")
  }

  /** Undoing `&lt;` first turns an encoding back into the text with only `&` escaped. */
  lemma {:induction false} UndoLess(text: string)
    ensures ReplaceStr(EscapeAll(text), "&lt;", "<") == AmpersandsEscaped(text)
  {
    if text != [] {
      var rest := EscapeAll(text[1..]);
      UndoLess(text[1..]);
      var c := text[0];
      if c == '<' {
        assert "&lt;" <= "&lt;" + rest;
        assert ("&lt;" + rest)[4..] == rest;
      } else if c == '&' {
        assert ("&amp;" + rest)[1] == 'a';
        ReplaceStrPast("&amp;", rest, "&lt;", "<");
      } else {
        assert ([c] + rest)[0] == c;
        ReplaceStrPast([c], rest, "&lt;", "<");
      }
    }
  }

  /** Undoing `&amp;` then gives the text back. */
  lemma {:induction false} UndoAmpersand(text: string)
    ensures ReplaceStr(AmpersandsEscaped(text), "&amp;", "&") == text
  {
    if text != [] {
      var rest := AmpersandsEscaped(text[1..]);
      UndoAmpersand(text[1..]);
      var c := text[0];
      if c == '&' {
        assert "&amp;" <= "&amp;" + rest;
        assert ("&amp;" + rest)[5..] == rest;
      } else {
        assert ([c] + rest)[0] == c;
        ReplaceStrPast([c], rest, "&amp;", "&");
      }
      assert text == [c] + text[1..];
    }
  }

  /** Replacing `&lt;` by `<` and then `&amp;` by `&` decodes `encode`. */
  lemma EncodeRoundTrip(text: string)
    ensures ReplaceStr(ReplaceStr(Encode(text), "&lt;", "<"), "&amp;", "&") == text
  {
    EncodeEscapes(text);
    UndoLess(text);
    UndoAmpersand(text);
  }
}
