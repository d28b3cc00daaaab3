/**
 * The title `plain` (tangle.py:189-197) gives a text file: its first line
 * with `#`, `/`, spaces, CR and LF stripped from both ends. Opening and
 * reading the file is not modelled; the first line is the input.
 */
module Plain {
  import opened Wrappers

  /** The characters of `strip('#/ \r\n')`. */
  const Junk: set<char> := {'#', '/', ' ', '\r', '\n'}

  /** Number of characters of `cs` at the front of `s`. */
  function LeadingIn(s: string, cs: set<char>): (n: nat)
    ensures n <= |s|
    ensures forall i :: 0 <= i < n ==> s[i] in cs
    ensures n == |s| || s[n] !in cs
  {
    if s != [] && s[0] in cs then 1 + LeadingIn(s[1..], cs) else 0
  }

  /** Number of characters of `cs` at the back of `s`. */
  function TrailingIn(s: string, cs: set<char>): (n: nat)
    ensures n <= |s|
    ensures forall i :: |s| - n <= i < |s| ==> s[i] in cs
    ensures n == |s| || s[|s| - n - 1] !in cs
  {
    if s != [] && s[|s| - 1] in cs then 1 + TrailingIn(s[..|s| - 1], cs) else 0
  }

  /** Python's `s.strip(chars)` for the characters `cs`. */
  function StripIn(s: string, cs: set<char>): (r: string)
    ensures r == [] || (r[0] !in cs && r[|r| - 1] !in cs)
    ensures LeadingIn(s, cs) + |r| <= |s|
    ensures forall i :: 0 <= i < |r| ==> r[i] == s[LeadingIn(s, cs) + i]
    ensures forall i :: LeadingIn(s, cs) + |r| <= i < |s| ==> s[i] in cs
    ensures forall i :: 0 <= i < |s| && s[i] !in cs ==> r != []
  {
    var a := LeadingIn(s, cs);
    var t := s[a..];
    var b := |t| - TrailingIn(t, cs);
    assert t[..b] == s[a..a + b];
    t[..b]
  }

  /** Stripping twice strips nothing more. */
  lemma StripInIdempotent(s: string, cs: set<char>)
    ensures StripIn(StripIn(s, cs), cs) == StripIn(s, cs)
  {
    var r := StripIn(s, cs);
    assert LeadingIn(r, cs) == 0;
    assert TrailingIn(r, cs) == 0;
  }

  /** `plain` (tangle.py:189-197): `None` for an empty file, else the stripped first line. */
  function PlainTitle(firstLine: Option<string>): (title: Option<string>)
    ensures title.None? <==> firstLine.None?
    ensures title.Some? && title.value != [] ==> title.value[0] !in Junk && title.value[|title.value| - 1] !in Junk
    ensures firstLine.Some? ==> title == Some(StripIn(firstLine.value, Junk))
    ensures firstLine.Some? ==>
      (title.value == [] <==> forall i :: 0 <= i < |firstLine.value| ==> firstLine.value[i] in Junk)
  {
    match firstLine
    case None => None
    case Some(line) => Some(StripIn(line, Junk))
  }
}
