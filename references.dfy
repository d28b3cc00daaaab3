/**
 * The reference helpers of tangle.py: whitespace normalisation, choosing and
 * resolving the URI of an element, the locality test and `rel` tokens.
 */
module References {
  import opened Wrappers

  type Attributes = map<string, string>

  /** `urlparse.urljoin(base, reference)`, supplied by the caller. */
  type Joiner = (string, string) -> string

  /** The characters of `r_whitespace`: space, tab, CR, LF and form feed. */
  predicate IsRunSpace(c: char) {
    c == ' ' || c == '\t' || c == '\r' || c == '\n' || c == '\U{000C}'
  }

  /** The code points for which Python 2.7's `unicode.isspace()` holds, as closed ranges. */
  const StripRanges: seq<(char, char)> := [
    ('\U{0009}', '\U{000D}'), ('\U{001C}', '\U{0020}'), ('\U{0085}', '\U{0085}'),
    ('\U{00A0}', '\U{00A0}'), ('\U{1680}', '\U{1680}'), ('\U{180E}', '\U{180E}'),
    ('\U{2000}', '\U{200A}'), ('\U{2028}', '\U{2029}'), ('\U{202F}', '\U{202F}'),
    ('\U{205F}', '\U{205F}'), ('\U{3000}', '\U{3000}')]

  predicate InRanges(c: char, ranges: seq<(char, char)>) {
    ranges != [] && ((ranges[0].0 <= c <= ranges[0].1) || InRanges(c, ranges[1..]))
  }

  /** Python 2.7's `unicode.isspace()`: what a bare `strip()` removes. */
  predicate IsStripSpace(c: char) {
    InRanges(c, StripRanges)
  }

  /** The characters of `r_whitespace` are whitespace to `strip()` too. */
  lemma RunIsStrip(c: char)
    requires IsRunSpace(c)
    ensures IsStripSpace(c)
  {
    assert StripRanges[0] == ('\U{0009}', '\U{000D}');
    assert StripRanges[1..][0] == ('\U{001C}', '\U{0020}');
    if c == ' ' {
      assert InRanges(c, StripRanges[1..]);
    }
  }

  /** No tab, CR, LF or form feed, and no two spaces side by side. */
  predicate Collapsed(s: string) {
    && (forall i :: 0 <= i < |s| ==> s[i] == ' ' || !IsRunSpace(s[i]))
    && (forall i :: 0 < i < |s| ==> !(s[i - 1] == ' ' && s[i] == ' '))
  }

  /** Neither end is whitespace in the sense of `strip()`. */
  predicate Trimmed(s: string) {
    s == [] || (!IsStripSpace(s[0]) && !IsStripSpace(s[|s| - 1]))
  }

  /** The characters of `s` that `strip()` would not count as whitespace, in order. */
  function Ink(s: string): string {
    if s == [] then [] else (if IsStripSpace(s[0]) then [] else [s[0]]) + Ink(s[1..])
  }

  lemma {:induction false} InkAppend(a: string, b: string)
    ensures Ink(a + b) == Ink(a) + Ink(b)
    decreases |a|
  {
    if a != [] {
      assert (a + b)[1..] == a[1..] + b;
      InkAppend(a[1..], b);
    } else {
      assert a + b == b;
    }
  }

  /** Every character is whitespace in the sense of `strip()`. */
  predicate Blank(s: string) {
    forall i :: 0 <= i < |s| ==> IsStripSpace(s[i])
  }

  lemma {:induction false} InkBlank(s: string)
    requires Blank(s)
    ensures Ink(s) == []
    decreases |s|
  {
    if s != [] {
      InkBlank(s[1..]);
    }
  }

  /** Drops the run of `r_whitespace` characters at the front of `s`. */
  function SkipRun(s: string): (r: string)
    ensures |r| <= |s| && r == s[|s| - |r|..]
    ensures r == [] || !IsRunSpace(r[0])
    ensures r == [] ==> s == [] || IsRunSpace(s[|s| - 1])
  {
    if s != [] && IsRunSpace(s[0]) then SkipRun(s[1..]) else s
  }

  lemma {:induction false} SkipRunInk(s: string)
    ensures Ink(SkipRun(s)) == Ink(s)
    decreases |s|
  {
    if s != [] && IsRunSpace(s[0]) {
      SkipRunInk(s[1..]);
    }
  }

  /** `r_whitespace.sub(' ', s)`: every maximal run becomes one space. */
  function Collapse(s: string): (r: string)
    ensures Collapsed(r)
    ensures s != [] ==> r != [] && r[0] == (if IsRunSpace(s[0]) then ' ' else s[0])
    decreases |s|
  {
    if s == [] then []
    else if IsRunSpace(s[0]) then " " + Collapse(SkipRun(s[1..]))
    else [s[0]] + Collapse(s[1..])
  }

  /** Collapsing keeps every visible character, in order. */
  lemma {:induction false} CollapseInk(s: string)
    ensures Ink(Collapse(s)) == Ink(s)
    decreases |s|
  {
    if s != [] {
      CollapseFront(s);
      if IsRunSpace(s[0]) {
        var rest := Collapse(SkipRun(s[1..]));
        CollapseInk(SkipRun(s[1..]));
        SkipRunInk(s[1..]);
        assert (" " + rest)[1..] == rest;
      } else {
        var rest := Collapse(s[1..]);
        CollapseInk(s[1..]);
        assert ([s[0]] + rest)[1..] == rest;
      }
    }
  }

  lemma {:induction false} SkipRunSnoc(s: string, c: char)
    ensures SkipRun(s + [c]) == if SkipRun(s) == [] then SkipRun([c]) else SkipRun(s) + [c]
    decreases |s|
  {
    if s == [] {
      assert s + [c] == [c];
    } else {
      assert (s + [c])[0] == s[0] && (s + [c])[1..] == s[1..] + [c];
      if IsRunSpace(s[0]) {
        SkipRunSnoc(s[1..], c);
      }
    }
  }

  /**
   * `Collapse` read from the back: a run character right after another adds
   * nothing, the first of a run adds one space, anything else is kept.
   * Together with `Collapse([]) == []` this determines `Collapse` outright.
   */
  lemma {:induction false} CollapseSnoc(s: string, c: char)
    ensures Collapse(s + [c]) == CollapseStep(s, c)
    decreases |s|, 1
  {
    if s == [] {
      assert s + [c] == [c] && [c][1..] == [];
    } else if IsRunSpace(s[0]) {
      CollapseSnocAfterRun(s, c);
    } else {
      CollapseKeepFront(s, c);
      CollapseSnoc(s[1..], c);
      CollapseFront(s);
      if |s| > 1 {
        assert s[1..][|s| - 2] == s[|s| - 1];
      }
      ExtendFront([s[0]], Collapse(s[1..]), EndsInRun(s), c);
    }
  }

  lemma {:induction false} CollapseSnocAfterRun(s: string, c: char)
    requires s != [] && IsRunSpace(s[0])
    ensures Collapse(s + [c]) == CollapseStep(s, c)
    decreases |s|, 0
  {
    var y := SkipRun(s[1..]);
    if y == [] {
      CollapseAfterWholeRun(s, c);
    } else {
      CollapseSnoc(y, c);
      CollapseAfterPartRun(s, c);
    }
  }

  /** `s` is a run followed by nothing else. */
  lemma CollapseAfterWholeRun(s: string, c: char)
    requires s != [] && IsRunSpace(s[0]) && SkipRun(s[1..]) == []
    ensures Collapse(s + [c]) == CollapseStep(s, c)
  {
    WholeRunSnoc(s, c);
    WholeRunAlone(s);
    RunOnly(s);
    CollapseSingle(c);
  }

  lemma WholeRunSnoc(s: string, c: char)
    requires s != [] && IsRunSpace(s[0]) && SkipRun(s[1..]) == []
    ensures Collapse(s + [c]) == " " + Collapse(SkipRun([c]))
  {
    CollapseRunFront(s, c);
    SkipRunSnoc(s[1..], c);
  }

  lemma WholeRunAlone(s: string)
    requires s != [] && IsRunSpace(s[0]) && SkipRun(s[1..]) == []
    ensures Collapse(s) == " "
  {
    var y := SkipRun(s[1..]);
    assert Collapse(y) == [];
    CollapseFront(s);
  }

  /** `s` is a run followed by the non-empty `y`, for which the step is already known. */
  lemma CollapseAfterPartRun(s: string, c: char)
    requires s != [] && IsRunSpace(s[0]) && SkipRun(s[1..]) != []
    requires Collapse(SkipRun(s[1..]) + [c]) == CollapseStep(SkipRun(s[1..]), c)
    ensures Collapse(s + [c]) == CollapseStep(s, c)
  {
    var y := SkipRun(s[1..]);
    CollapseRunFront(s, c);
    SkipRunSnoc(s[1..], c);
    CollapseFront(s);
    assert y[|y| - 1] == s[|s| - 1];
    ExtendFront(" ", Collapse(y), EndsInRun(y), c);
  }

  lemma CollapseSingle(c: char)
    ensures Collapse(SkipRun([c])) == if IsRunSpace(c) then [] else [c]
  {
    assert [c][1..] == [];
  }

  /** The string ends with a run character. */
  predicate EndsInRun(s: string) {
    s != [] && IsRunSpace(s[|s| - 1])
  }

  /** Collapsed text `x` followed by `c`, given whether the text before it ended in a run. */
  function Extend(x: string, ended: bool, c: char): string {
    if !IsRunSpace(c) then x + [c]
    else if ended then x
    else x + " "
  }

  /** The right-hand side of `CollapseSnoc`. */
  function CollapseStep(s: string, c: char): string {
    Extend(Collapse(s), EndsInRun(s), c)
  }

  lemma ExtendFront(head: string, x: string, ended: bool, c: char)
    ensures head + Extend(x, ended, c) == Extend(head + x, ended, c)
  {
    if !IsRunSpace(c) {
      assert head + (x + [c]) == (head + x) + [c];
    } else if !ended {
      assert head + (x + " ") == (head + x) + " ";
    }
  }

  lemma CollapseKeepFront(s: string, c: char)
    requires s != [] && !IsRunSpace(s[0])
    ensures Collapse(s + [c]) == [s[0]] + Collapse(s[1..] + [c])
  {
    var t := s + [c];
    assert t[1..] == s[1..] + [c];
    CollapseFront(t);
  }

  lemma CollapseRunFront(s: string, c: char)
    requires s != [] && IsRunSpace(s[0])
    ensures Collapse(s + [c]) == " " + Collapse(SkipRun(s[1..] + [c]))
  {
    var t := s + [c];
    assert t[1..] == s[1..] + [c];
    CollapseFront(t);
  }

  lemma CollapseFront(t: string)
    requires t != []
    ensures Collapse(t) == if IsRunSpace(t[0]) then " " + Collapse(SkipRun(t[1..])) else [t[0]] + Collapse(t[1..])
  {
  }

  /** When the run at the front of `s[1..]` is all of it, `s` ends with a run character. */
  lemma RunOnly(s: string)
    requires s != [] && IsRunSpace(s[0]) && SkipRun(s[1..]) == []
    ensures IsRunSpace(s[|s| - 1])
  {
    if |s| > 1 {
      assert s[|s| - 1] == s[1..][|s| - 2];
    }
  }


  /** The first index at or after `i` whose character is not `strip()` whitespace, or `|s|`. */
  function LeadEnd(s: string, i: nat): (j: nat)
    requires i <= |s|
    ensures i <= j <= |s|
    ensures forall k :: i <= k < j ==> IsStripSpace(s[k])
    ensures j == |s| || !IsStripSpace(s[j])
    decreases |s| - i
  {
    if i < |s| && IsStripSpace(s[i]) then LeadEnd(s, i + 1) else i
  }

  /** The start of the run of `strip()` whitespace that ends at `j`, going no lower than `lo`. */
  function TrailStart(s: string, lo: nat, j: nat): (b: nat)
    requires lo <= j <= |s|
    ensures lo <= b <= j
    ensures forall k :: b <= k < j ==> IsStripSpace(s[k])
    ensures b == lo || !IsStripSpace(s[b - 1])
    decreases j
  {
    if j > lo && IsStripSpace(s[j - 1]) then TrailStart(s, lo, j - 1) else j
  }

  /** Number of `strip()` whitespace characters at the front of `s`. */
  function Leading(s: string): nat {
    LeadEnd(s, 0)
  }

  lemma BlankSplit(s: string, a: nat)
    requires a <= |s|
    ensures Blank(s) <==> Blank(s[..a]) && Blank(s[a..])
  {
    if Blank(s[..a]) && Blank(s[a..]) {
      forall i | 0 <= i < |s| ensures IsStripSpace(s[i]) {
        if i < a {
          assert s[i] == s[..a][i];
        } else {
          assert s[i] == s[a..][i - a];
        }
      }
    }
  }

  lemma CollapsedSlice(s: string, a: nat, b: nat)
    requires a <= b <= |s|
    ensures Collapsed(s) ==> Collapsed(s[a..b])
  {
    assert forall i :: 0 <= i < b - a ==> s[a..b][i] == s[a + i];
  }

  /**
   * Python's `s.strip()`: the slice of `s` left once the whitespace at both
   * ends is gone; empty exactly when `s` is all whitespace.
   */
  function Strip(s: string): (r: string)
    ensures Trimmed(r)
    ensures Collapsed(s) ==> Collapsed(r)
    ensures Leading(s) + |r| <= |s| && r == s[Leading(s)..Leading(s) + |r|]
    ensures Blank(s[..Leading(s)]) && Blank(s[Leading(s) + |r|..])
    ensures r == [] <==> Blank(s)
    ensures Ink(r) == Ink(s)
  {
    var a := Leading(s);
    var b := TrailStart(s, a, |s|);
    StripBounds(s, a, b);
    CollapsedSlice(s, a, b);
    var r := s[a..b];
    assert a + |r| == b;
    r
  }

  /** The facts behind `Strip`, about the bounds it cuts at. */
  lemma StripBounds(s: string, a: nat, b: nat)
    requires a == LeadEnd(s, 0) && b == TrailStart(s, a, |s|)
    ensures Trimmed(s[a..b])
    ensures Blank(s[..a]) && Blank(s[b..])
    ensures a == b <==> Blank(s)
    ensures Ink(s[a..b]) == Ink(s)
  {
    assert Blank(s[..a]) by {
      assert forall k :: 0 <= k < a ==> s[..a][k] == s[k];
    }
    assert Blank(s[b..]) by {
      assert forall k :: 0 <= k < |s| - b ==> s[b..][k] == s[b + k];
    }
    InkOfMiddle(s, a, b);
    if a == b {
      BlankSplit(s, a);
    }
    if a < b {
      assert s[a..b][0] == s[a] && s[a..b][b - a - 1] == s[b - 1];
    }
  }

  /** Cutting whitespace off both ends keeps the visible characters. */
  lemma InkOfMiddle(s: string, a: nat, b: nat)
    requires a <= b <= |s|
    requires Blank(s[..a]) && Blank(s[b..])
    ensures Ink(s[a..b]) == Ink(s)
  {
    var x, y, z := s[..a], s[a..b], s[b..];
    assert s == x + (y + z);
    InkBlank(x);
    InkBlank(z);
    InkAppend(x, y + z);
    InkAppend(y, z);
  }

  /**
   * `normalise` (tangle.py:166-168): the visible characters are kept in
   * order, the result is empty exactly when there are none.
   */
  function Normalise(s: string): (r: string)
    ensures Collapsed(r) && Trimmed(r)
    ensures Ink(r) == Ink(s)
    ensures r == [] <==> Ink(s) == []
  {
    var r := Strip(Collapse(s));
    CollapseInk(s);
    assert r != [] ==> Ink(r) == [r[0]] + Ink(r[1..]);
    r
  }

  lemma {:induction false} CollapseFixed(s: string)
    requires Collapsed(s)
    ensures Collapse(s) == s
    decreases |s|
  {
    if s != [] {
      assert Collapsed(s[1..]);
      if IsRunSpace(s[0]) {
        assert s[0] == ' ';
        assert SkipRun(s[1..]) == s[1..] by {
          assert s[1..] == [] || s[1] != ' ';
        }
        CollapseFixed(s[1..]);
        assert Collapse(s) == " " + s[1..];
      } else {
        CollapseFixed(s[1..]);
        assert Collapse(s) == [s[0]] + s[1..];
      }
    }
  }

  /** Normalising twice changes nothing more. */
  lemma NormaliseIdempotent(s: string)
    ensures Normalise(Normalise(s)) == Normalise(s)
  {
    var t := Normalise(s);
    CollapseFixed(t);
    assert Leading(t) == 0;
    assert TrailStart(t, 0, |t|) == |t|;
  }

  /** Python's `s.split(c)`: the pieces between occurrences of `c`. */
  function Split(s: string, c: char): (r: seq<string>)
    ensures |r| >= 1
    ensures forall i :: 0 <= i < |r| ==> c !in r[i]
    ensures Join(r, c) == s
  {
    if s == [] then [[]]
    else
      var rest := Split(s[1..], c);
      if s[0] == c then [[]] + rest
      else [[s[0]] + rest[0]] + rest[1..]
  }

  /** Python's `c.join(pieces)`. */
  function Join(pieces: seq<string>, c: char): string
    requires |pieces| >= 1
  {
    if |pieces| == 1 then pieces[0] else pieces[0] + [c] + Join(pieces[1..], c)
  }

  /** With no separator at either end and none doubled, no piece is empty. */
  lemma {:induction false} SplitPiecesNonEmpty(s: string, c: char)
    requires s != [] && s[0] != c && s[|s| - 1] != c
    requires forall i :: 0 < i < |s| ==> !(s[i - 1] == c && s[i] == c)
    ensures forall i :: 0 <= i < |Split(s, c)| ==> Split(s, c)[i] != []
    decreases |s|
  {
    var t := s[1..];
    if t != [] {
      if t[0] == c {
        // the piece after this separator starts with a non-separator
        var u := t[1..];
        assert u != [] && u[0] != c;
        SplitPiecesNonEmpty(u, c);
        assert Split(t, c) == [[]] + Split(u, c);
      } else {
        SplitPiecesNonEmpty(t, c);
      }
    }
  }

  /** The text before the first `#`: `s.split('#', 1)[0]`. */
  function BeforeHash(s: string): (r: string)
    ensures '#' !in r
    ensures |r| <= |s| && r == s[..|r|]
    ensures |r| == |s| || s[|r|] == '#'
  {
    if s == [] || s[0] == '#' then [] else [s[0]] + BeforeHash(s[1..])
  }

  function Lookup(attributes: Attributes, key: string): Option<string> {
    if key in attributes then Some(attributes[key]) else None
  }

  /** Python truthiness of an optional string: present and non-empty. */
  predicate Truthy(v: Option<string>) {
    v.Some? && v.value != []
  }

  /** `urljoin(base, ref)`; urljoin returns `ref` itself when `base` is falsy. */
  function Resolve(join: Joiner, base: Option<string>, ref: string): (r: string)
    ensures !Truthy(base) ==> r == ref
    ensures Truthy(base) ==> r == join(base.value, ref)
  {
    if Truthy(base) then join(base.value, ref) else ref
  }

  /** `reference` (tangle.py:170-177). */
  function Reference(base: Option<string>, attributes: Attributes, join: Joiner): (r: Option<string>)
    ensures r.None? <==> !Truthy(Lookup(attributes, "href")) && !Truthy(Lookup(attributes, "src"))
    ensures r.Some? ==> '#' !in r.value
  {
    var href := Lookup(attributes, "href");
    var src := Lookup(attributes, "src");
    if Truthy(href) || Truthy(src) then
      var chosen := if Truthy(href) then href.value else src.value;
      Some(BeforeHash(Resolve(join, base, Normalise(chosen))))
    else
      None
  }

  /** A non-empty `href` decides the reference: `src` is never looked at. */
  lemma ReferenceHrefWins(base: Option<string>, attributes: Attributes, join: Joiner, src: string)
    requires Truthy(Lookup(attributes, "href"))
    ensures Reference(base, attributes["src" := src], join) == Reference(base, attributes, join)
    ensures Reference(base, attributes, join) == Reference(base, map["href" := attributes["href"]], join)
  {
  }

  /** With a falsy `href`, the reference is the one `src` alone gives. */
  lemma ReferenceFallsBackToSrc(base: Option<string>, attributes: Attributes, join: Joiner)
    requires !Truthy(Lookup(attributes, "href"))
    ensures Reference(base, attributes, join)
         == if "src" in attributes then Reference(base, map["src" := attributes["src"]], join) else None
  {
  }

  /**
   * With no base (a `base` element without href or src sets it to None) the
   * reference is not joined: the joiner is irrelevant and the result is the
   * fragment-free prefix of the normalised attribute value.
   */
  lemma ReferenceWithoutBase(base: Option<string>, attributes: Attributes, join1: Joiner, join2: Joiner)
    requires !Truthy(base)
    ensures Reference(base, attributes, join1) == Reference(base, attributes, join2)
    ensures Reference(base, attributes, join1).Some? ==>
      var v := Reference(base, attributes, join1).value;
      || ("href" in attributes && v <= Normalise(attributes["href"]))
      || ("src" in attributes && v <= Normalise(attributes["src"]))
  {
  }

  /** `local` (tangle.py:179-182): present, non-empty and without `:`. */
  predicate Local(uri: Option<string>) {
    uri.Some? && uri.value != [] && ':' !in uri.value
  }

  /** `roles` (tangle.py:184-187): the distinct tokens of a `rel` value. */
  function Roles(rel: Option<string>): (r: set<string>)
    ensures forall t :: t in r ==> t != [] && ' ' !in t
    ensures r == {} <==> rel.None? || Normalise(rel.value) == []
    ensures forall t :: t in r ==> rel.Some? && t in Split(Normalise(rel.value), ' ')
    ensures rel.Some? && Normalise(rel.value) != [] ==>
      forall t :: t in Split(Normalise(rel.value), ' ') ==> t in r
  {
    if rel.None? then {}
    else
      var text := Normalise(rel.value);
      if text == [] then {}
      else
        SplitPiecesNonEmpty(text, ' ');
        var tokens := set t | t in Split(text, ' ');
        assert Split(text, ' ')[0] in tokens;
        tokens
  }
}
