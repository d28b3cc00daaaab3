/**
 * `css_links` (tangle.py:213-228): a leftmost, non-overlapping scan of style
 * sheet text with six alternatives tried in order at each position:
 * comment, url("…"), url('…'), bare url(…), "string", 'string'. Only the
 * three url forms carry a payload; comments and strings are consumed so that
 * a url( inside them is never seen.
 */
module StyleSheets {
  import opened Wrappers
  import opened References

  /** `os.path.normpath`, supplied by the caller. */
  type Normaliser = string -> string

  datatype Token = Skipped | Url(payload: string)

  /** `\s` of a byte-string pattern: space, tab, LF, CR, form feed, vertical tab. */
  predicate IsCssSpace(c: char) {
    c == ' ' || c == '\t' || c == '\n' || c == '\r' || c == '\U{000C}' || c == '\U{000B}'
  }

  /** Every character is `\s`. */
  predicate CssBlank(s: string) {
    forall k :: 0 <= k < |s| ==> IsCssSpace(s[k])
  }

  /** `p` stands in `s` from index `a` on. */
  predicate At(p: string, s: string, a: nat) {
    a + |p| <= |s| && s[a..a + |p|] == p
  }

  /** `p` stands somewhere in `s`. */
  predicate Occurs(p: string, s: string) {
    exists a: nat :: a <= |s| && At(p, s, a)
  }

  lemma OccursAt(p: string, s: string, a: nat)
    requires At(p, s, a)
    ensures Occurs(p, s)
  {
  }

  /** What stands in a suffix of `s` stands in `s`. */
  lemma OccursInSuffix(p: string, s: string, n: nat)
    requires n <= |s| && Occurs(p, s[n..])
    ensures Occurs(p, s)
  {
    var t := s[n..];
    var a: nat :| a <= |t| && At(p, t, a);
    assert a + |p| <= |t| && t[a..a + |p|] == p;
    assert s[n + a..n + a + |p|] == t[a..a + |p|];
    OccursAt(p, s, n + a);
  }

  /** The first index at or after `i` that is not `\s`. */
  function SkipSpace(s: string, i: nat): (j: nat)
    requires i <= |s|
    ensures i <= j <= |s|
    ensures forall k :: i <= k < j ==> IsCssSpace(s[k])
    ensures j == |s| || !IsCssSpace(s[j])
    decreases |s| - i
  {
    if i < |s| && IsCssSpace(s[i]) then SkipSpace(s, i + 1) else i
  }

  /**
   * The body `[^q\\]*(?:\\.[^q\\]*)*` of a quoted string starting at `i`,
   * followed by its closing quote: the index of that quote, if the body
   * reaches one (`.` does not match a newline).
   */
  function QuoteEnd(s: string, i: nat, q: char): (r: Option<nat>)
    requires i <= |s|
    ensures r.Some? ==> i <= r.value < |s| && s[r.value] == q
    ensures r.Some? ==> Escaped(s[i..r.value], q)
    decreases |s| - i
  {
    if i == |s| then None
    else if s[i] == q then Some(i)
    else if s[i] == '\\' then
      if i + 1 < |s| && s[i + 1] != '\n' then
        var r := QuoteEnd(s, i + 2, q);
        assert r.Some? ==> s[i..r.value][2..] == s[i + 2..r.value];
        r
      else None
    else
      var r := QuoteEnd(s, i + 1, q);
      assert r.Some? ==> s[i..r.value][1..] == s[i + 1..r.value];
      r
  }

  // The end of the first `*/` whose star is at index `i` or later.
  function CommentClose(s: string, i: nat): (r: Option<nat>)
    requires i <= |s|
    ensures r.Some? ==> i + 2 <= r.value <= |s| && s[r.value - 2] == '*' && s[r.value - 1] == '/'
    ensures r.Some? ==> forall k :: i <= k < r.value - 2 ==> !(s[k] == '*' && s[k + 1] == '/')
    ensures r.None? ==> forall k :: i <= k < |s| - 1 ==> !(s[k] == '*' && s[k + 1] == '/')
    decreases |s| - i
  {
    if i + 1 >= |s| then None
    else if s[i] == '*' && s[i + 1] == '/' then Some(i + 2)
    else CommentClose(s, i + 1)
  }

  // The comment pattern: `/*` up to the first `*/` after it.
  function Comment(s: string): (r: Option<nat>)
    ensures r.Some? ==> 4 <= r.value <= |s| && s[0] == '/' && s[1] == '*'
    ensures r.Some? ==> s[r.value - 2] == '*' && s[r.value - 1] == '/'
    ensures r.Some? ==> forall k :: 2 <= k < r.value - 2 ==> !(s[k] == '*' && s[k + 1] == '/')
    ensures r.None? && |s| >= 2 && s[0] == '/' && s[1] == '*' ==>
      forall k :: 2 <= k < |s| - 1 ==> !(s[k] == '*' && s[k + 1] == '/')
  {
    if |s| >= 2 && s[0] == '/' && s[1] == '*' then CommentClose(s, 2) else None
  }

  /** ASCII-only case folding of `(?i)` on a byte-string pattern. */
  function Lower(c: char): char {
    if 'A' <= c <= 'Z' then (c as int + 32) as char else c
  }

  /** `url\(` case-insensitively. */
  predicate UrlOpen(s: string) {
    |s| >= 4 && Lower(s[0]) == 'u' && Lower(s[1]) == 'r' && Lower(s[2]) == 'l' && s[3] == '('
  }

  /** `url\(\s*q(body)q\s*\)`: the payload and the end of the match. */
  function QuotedUrl(s: string, q: char): (r: Option<(string, nat)>)
    ensures r.Some? ==> 0 < r.value.1 <= |s|
    ensures r.Some? ==> UrlOpen(s) && s[r.value.1 - 1] == ')' && Escaped(r.value.0, q)
    ensures r.Some? ==> exists j: nat :: QuotedAt(s, q, j, r.value.0, r.value.1)
  {
    if !UrlOpen(s) then None
    else
      var j := SkipSpace(s, 4);
      if j == |s| || s[j] != q then None
      else
        match QuoteEnd(s, j + 1, q)
        case None => None
        case Some(k) =>
          var m := SkipSpace(s, k + 1);
          if m < |s| && s[m] == ')' then
            assert s[j + 1..k][..] == s[j + 1..j + 1 + |s[j + 1..k]|];
            assert QuotedAt(s, q, j, s[j + 1..k], m + 1);
            Some((s[j + 1..k], m + 1))
          else None
  }

  /**
   * `s[..n]` is `url(`, whitespace up to index `j`, the quote `q`, the
   * payload, the quote again, whitespace and `)`.
   */
  predicate QuotedAt(s: string, q: char, j: nat, payload: string, n: nat) {
    && 4 <= j && j + |payload| + 2 < n <= |s|
    && s[j] == q && s[j + 1..j + 1 + |payload|] == payload && s[j + 1 + |payload|] == q
    && CssBlank(s[4..j]) && CssBlank(s[j + 2 + |payload|..n - 1])
  }

  /** The first `)` at or after index `i`. */
  function CloseParen(s: string, i: nat): (r: Option<nat>)
    requires i <= |s|
    ensures r.Some? ==> i <= r.value < |s| && s[r.value] == ')'
    ensures r.Some? ==> forall k :: i <= k < r.value ==> s[k] != ')'
    decreases |s| - i
  {
    if i == |s| then None else if s[i] == ')' then Some(i) else CloseParen(s, i + 1)
  }

  /**
   * `url\(\s*([^)]+)\s*\)`: the greedy `[^)]+` runs to the first `)`. When
   * only whitespace stands before it, the regex backtracks one character of
   * `\s*` so that the group holds that single whitespace character.
   */
  function BareUrl(s: string): (r: Option<(string, nat)>)
    ensures r.Some? ==> 0 < r.value.1 <= |s| && r.value.0 != [] && ')' !in r.value.0
    ensures r.Some? ==> Occurs(r.value.0, s)
  {
    if !UrlOpen(s) then None
    else
      var w := SkipSpace(s, 4);
      match CloseParen(s, 4)
      case None => None
      case Some(close) =>
        if close > w then
          OccursAt(s[w..close], s, w);
          Some((s[w..close], close + 1))
        else if w > 4 then
          OccursAt(s[w - 1..close], s, w - 1);
          Some((s[w - 1..close], close + 1))
        else None
  }

  /** A quoted string `q[^q\\]*(?:\\.[^q\\]*)*q` at the front of `s`. */
  function Quoted(s: string, q: char): (r: Option<nat>)
    ensures r.Some? ==> 2 <= r.value <= |s|
    ensures r.Some? ==> s[0] == q && s[r.value - 1] == q && Escaped(s[1..r.value - 1], q)
    ensures s == [] || s[0] != q ==> r.None?
  {
    if s != [] && s[0] == q then
      match QuoteEnd(s, 1, q)
      case None => None
      case Some(k) => Some(k + 1)
    else None
  }

  /** The alternation `r_cssuri` at the front of `s`, in priority order. */
  function Match(s: string): (r: Option<(Token, nat)>)
    ensures r.Some? ==> 0 < r.value.1 <= |s|
    ensures r.Some? && r.value.0.Url? ==> Occurs(r.value.0.payload, s)
  {
    QuotedUrlOccurs(s, '"');
    QuotedUrlOccurs(s, '\'');
    if Comment(s).Some? then Some((Skipped, Comment(s).value))
    else if QuotedUrl(s, '"').Some? then
      Some((Url(QuotedUrl(s, '"').value.0), QuotedUrl(s, '"').value.1))
    else if QuotedUrl(s, '\'').Some? then
      Some((Url(QuotedUrl(s, '\'').value.0), QuotedUrl(s, '\'').value.1))
    else if BareUrl(s).Some? then
      Some((Url(BareUrl(s).value.0), BareUrl(s).value.1))
    else if Quoted(s, '"').Some? then Some((Skipped, Quoted(s, '"').value))
    else if Quoted(s, '\'').Some? then Some((Skipped, Quoted(s, '\'').value))
    else None
  }

  lemma QuotedUrlOccurs(s: string, q: char)
    ensures QuotedUrl(s, q).Some? ==> Occurs(QuotedUrl(s, q).value.0, s)
  {
    if QuotedUrl(s, q).Some? {
      var p := QuotedUrl(s, q).value.0;
      var j: nat :| QuotedAt(s, q, j, p, QuotedUrl(s, q).value.1);
      assert s[j + 1..j + 1 + |p|] == p;
      OccursAt(p, s, j + 1);
    }
  }

  /** `findall`: the url payloads, left to right, of non-overlapping matches; each stands in the text. */
  function Payloads(s: string): (r: seq<string>)
    ensures forall p :: p in r ==> Occurs(p, s)
    decreases |s|
  {
    if s == [] then []
    else
      match Match(s)
      case None =>
        forall p | p in Payloads(s[1..]) ensures Occurs(p, s) {
          OccursInSuffix(p, s, 1);
        }
        Payloads(s[1..])
      case Some((token, n)) =>
        forall p | p in Payloads(s[n..]) ensures Occurs(p, s) {
          OccursInSuffix(p, s, n);
        }
        (if token.Url? then [token.payload] else []) + Payloads(s[n..])
  }

  /** `link and (not ':' in link)`. */
  predicate Kept(link: string) {
    link != [] && ':' !in link
  }

  /** The generator body of `css_links` over a list of payloads. */
  function Yield(base: Option<string>, payloads: seq<string>, join: Joiner, normpath: Normaliser): (r: seq<string>)
    ensures |r| <= |payloads|
    ensures forall u :: u in r <==>
      exists p :: p in payloads && Kept(p) && u == Resolve(join, base, normpath(p))
  {
    if payloads == [] then []
    else
      var p := payloads[0];
      assert forall q :: q in payloads <==> q == p || q in payloads[1..];
      (if Kept(p) then [Resolve(join, base, normpath(p))] else []) + Yield(base, payloads[1..], join, normpath)
  }

  /**
   * `css_links` (tangle.py:223-228): each kept payload, path-normalised and
   * resolved against the base.
   */
  function CssLinks(base: Option<string>, css: string, join: Joiner, normpath: Normaliser): (r: seq<string>)
    ensures |r| <= |Payloads(css)|
    ensures forall u :: u in r <==>
      exists p :: p in Payloads(css) && Kept(p) && u == Resolve(join, base, normpath(p))
  {
    Yield(base, Payloads(css), join, normpath)
  }

  /** A well-formed string body for quote `q`: no bare `q`, every backslash escaping a non-newline. */
  predicate Escaped(body: string, q: char) {
    if body == [] then true
    else if body[0] == '\\' then |body| >= 2 && body[1] != '\n' && Escaped(body[2..], q)
    else body[0] != q && Escaped(body[1..], q)
  }

  /** Text with neither the quote nor a backslash is a well-formed body. */
  lemma {:induction false} PlainIsEscaped(body: string, q: char)
    requires forall i :: 0 <= i < |body| ==> body[i] != q && body[i] != '\\'
    ensures Escaped(body, q)
    decreases |body|
  {
    if body != [] {
      PlainIsEscaped(body[1..], q);
    }
  }

  lemma {:induction false} QuoteEndOfEscaped(s: string, i: nat, body: string, q: char)
    requires i + |body| < |s| && s[i..i + |body|] == body && s[i + |body|] == q
    requires q != '\\' && Escaped(body, q)
    ensures QuoteEnd(s, i, q) == Some(i + |body|)
    decreases |body|
  {
    if body != [] {
      assert s[i] == body[0];
      if body[0] == '\\' {
        assert s[i + 1] == body[1];
        assert s[i + 2..i + |body|] == body[2..];
        QuoteEndOfEscaped(s, i + 2, body[2..], q);
      } else {
        assert s[i + 1..i + |body|] == body[1..];
        QuoteEndOfEscaped(s, i + 1, body[1..], q);
      }
    }
  }

  lemma {:induction false} CommentCloseAfter(s: string, i: nat, e: nat)
    requires 2 <= i <= e && e + 2 <= |s| && s[e] == '*' && s[e + 1] == '/'
    requires forall k :: i <= k < e ==> !(s[k] == '*' && s[k + 1] == '/')
    ensures CommentClose(s, i) == Some(e + 2)
    decreases e - i
  {
    if i < e {
      CommentCloseAfter(s, i + 1, e);
    }
  }

  /** A complete comment is consumed whole: a url( inside it yields nothing. */
  lemma CommentSkipped(body: string, rest: string)
    requires forall k :: 0 < k < |body| ==> !(body[k - 1] == '*' && body[k] == '/')
    ensures Payloads("/*" + body + "*/" + rest) == Payloads(rest)
  {
    var s := "/*" + body + "*/" + rest;
    var e := |body| + 2;
    forall k | 2 <= k < e ensures !(s[k] == '*' && s[k + 1] == '/') {
      if k + 1 < e {
        assert s[k] == body[k - 2] && s[k + 1] == body[k - 1];
      } else {
        assert s[k + 1] == '*';
      }
    }
    CommentCloseAfter(s, 2, e);
    assert Match(s) == Some((Skipped, e + 2));
    assert s[e + 2..] == rest;
  }

  /** A complete quoted string is consumed whole: a url( inside it yields nothing. */
  lemma StringSkipped(q: char, body: string, rest: string)
    requires q == '"' || q == '\''
    requires Escaped(body, q)
    ensures Payloads([q] + body + [q] + rest) == Payloads(rest)
  {
    var s := [q] + body + [q] + rest;
    assert s[1..1 + |body|] == body;
    QuoteEndOfEscaped(s, 1, body, q);
    assert !UrlOpen(s);
    assert Comment(s).None?;
    assert Match(s) == Some((Skipped, |body| + 2));
    assert s[|body| + 2..] == rest;
  }

  /** `url('x')` at the front yields exactly `x`, then scanning resumes after it. */
  lemma SingleQuotedUrlYields(body: string, rest: string)
    requires Escaped(body, '\'')
    ensures Payloads(SingleQuotedUrl(body) + rest) == [body] + Payloads(rest)
  {
    var s := SingleQuotedUrl(body) + rest;
    assert s[5..5 + |body|] == body;
    QuoteEndOfEscaped(s, 5, body, '\'');
    assert SkipSpace(s, 4) == 4;
    assert SkipSpace(s, 6 + |body|) == 6 + |body|;
    assert QuotedUrl(s, '"').None?;
    assert QuotedUrl(s, '\'') == Some((body, |body| + 7));
    assert s[|body| + 7..] == rest;
  }

  /** `url("x")` at the front yields exactly `x`, then scanning resumes after it. */
  lemma DoubleQuotedUrlYields(body: string, rest: string)
    requires Escaped(body, '"')
    ensures Payloads("url(\"" + body + "\")" + rest) == [body] + Payloads(rest)
  {
    var s := "url(\"" + body + "\")" + rest;
    assert s[5..5 + |body|] == body;
    QuoteEndOfEscaped(s, 5, body, '"');
    assert SkipSpace(s, 4) == 4;
    assert SkipSpace(s, 6 + |body|) == 6 + |body|;
    assert QuotedUrl(s, '"') == Some((body, |body| + 7));
    assert s[|body| + 7..] == rest;
  }

  /** `url(x)` with an unquoted `x` yields exactly `x`. */
  lemma BareUrlYields(body: string, rest: string)
    requires body != [] && ')' !in body
    requires !IsCssSpace(body[0]) && body[0] != '"' && body[0] != '\''
    ensures Payloads("url(" + body + ")" + rest) == [body] + Payloads(rest)
  {
    var s := "url(" + body + ")" + rest;
    assert s[4] == body[0];
    assert SkipSpace(s, 4) == 4;
    assert QuotedUrl(s, '"').None? && QuotedUrl(s, '\'').None?;
    assert s[4..4 + |body|] == body;
    assert CloseParen(s, 4) == Some(4 + |body|) by {
      assert forall k :: 4 <= k < 4 + |body| ==> s[k] == body[k - 4];
      CloseParenAt(s, 4, 4 + |body|);
    }
    assert BareUrl(s) == Some((body, |body| + 5));
    assert s[|body| + 5..] == rest;
  }

  lemma {:induction false} CloseParenAt(s: string, i: nat, c: nat)
    requires i <= c < |s| && s[c] == ')'
    requires forall k :: i <= k < c ==> s[k] != ')'
    ensures CloseParen(s, i) == Some(c)
    decreases c - i
  {
    if i < c {
      CloseParenAt(s, i + 1, c);
    }
  }

  /**
   * `url( )` with only whitespace inside: the regex backtracks so that the
   * payload is the last whitespace character, which is kept.
   */
  lemma BlankUrlYieldsOneSpace(blank: string, rest: string)
    requires blank != [] && forall k :: 0 <= k < |blank| ==> IsCssSpace(blank[k])
    ensures Payloads("url(" + blank + ")" + rest) == [[blank[|blank| - 1]]] + Payloads(rest)
  {
    var s := "url(" + blank + ")" + rest;
    var n := |blank|;
    assert s[4..4 + n] == blank;
    assert forall k :: 4 <= k < 4 + n ==> s[k] == blank[k - 4];
    assert s[4 + n] == ')';
    assert SkipSpace(s, 4) == 4 + n;
    assert QuotedUrl(s, '"').None? && QuotedUrl(s, '\'').None?;
    CloseParenAt(s, 4, 4 + n);
    assert s[3 + n..4 + n] == [blank[n - 1]];
    assert BareUrl(s) == Some(([blank[n - 1]], n + 5));
    assert s[n + 5..] == rest;
  }

  /** Text that no alternative matches at any of its positions is passed over. */
  lemma {:induction false} Unmatched(prefix: string, rest: string)
    requires forall i :: 0 <= i < |prefix| ==>
      prefix[i] != '/' && prefix[i] != '"' && prefix[i] != '\'' && !UrlOpen(prefix[i..] + rest)
    ensures Payloads(prefix + rest) == Payloads(rest)
    decreases |prefix|
  {
    if prefix != [] {
      var s := prefix + rest;
      assert prefix[0..] == prefix;
      assert s[0] == prefix[0] && !UrlOpen(s);
      assert Comment(s).None? && Quoted(s, '"').None? && Quoted(s, '\'').None?;
      assert QuotedUrl(s, '"').None? && QuotedUrl(s, '\'').None? && BareUrl(s).None?;
      assert Match(s).None?;
      assert Payloads(s) == Payloads(s[1..]);
      assert s[1..] == prefix[1..] + rest;
      forall i | 0 <= i < |prefix[1..]|
        ensures prefix[1..][i] != '/' && prefix[1..][i] != '"' && prefix[1..][i] != '\''
        ensures !UrlOpen(prefix[1..][i..] + rest)
      {
        assert prefix[1..][i..] == prefix[i + 1..];
      }
      Unmatched(prefix[1..], rest);
    } else {
      assert prefix + rest == rest;
    }
  }

  /** The url form of a single-quoted payload. */
  function SingleQuotedUrl(body: string): string {
    "url('" + body + "')"
  }

  lemma PayloadsAfterText(prefix: string, body: string, rest: string)
    requires forall i :: 0 <= i < |prefix| ==>
      prefix[i] != '/' && prefix[i] != '"' && prefix[i] != '\'' && !UrlOpen(prefix[i..] + (SingleQuotedUrl(body) + rest))
    requires Escaped(body, '\'')
    ensures Payloads(prefix + (SingleQuotedUrl(body) + rest)) == [body] + Payloads(rest)
  {
    Unmatched(prefix, SingleQuotedUrl(body) + rest);
    SingleQuotedUrlYields(body, rest);
  }

  /**
   * Text no alternative matches, then `url('x')`: the style sheet's first
   * link is `x` (if kept), path-normalised and resolved against the base, and
   * the rest is scanned afresh.
   */
  lemma UrlAfterText(base: Option<string>, prefix: string, body: string, rest: string, join: Joiner, normpath: Normaliser)
    requires forall i :: 0 <= i < |prefix| ==>
      prefix[i] != '/' && prefix[i] != '"' && prefix[i] != '\'' && !UrlOpen(prefix[i..] + (SingleQuotedUrl(body) + rest))
    requires Escaped(body, '\'')
    ensures CssLinks(base, prefix + (SingleQuotedUrl(body) + rest), join, normpath)
         == (if Kept(body) then [Resolve(join, base, normpath(body))] else []) + CssLinks(base, rest, join, normpath)
  {
    PayloadsAfterText(prefix, body, rest);
    var ps := [body] + Payloads(rest);
    assert ps[1..] == Payloads(rest);
  }
}
