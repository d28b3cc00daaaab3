/**
 * The order Python's `sorted` puts strings in (code point by code point, a
 * proper prefix first), and sorting a list of distinct strings by it, as
 * format.py does with directory names, kinds and paths.
 */
module Ordering {

  /** Python's `a < b` on strings. */
  predicate Less(a: string, b: string) {
    if a == [] then b != []
    else if b == [] then false
    else if a[0] != b[0] then a[0] < b[0]
    else Less(a[1..], b[1..])
  }

  lemma {:induction false} LessIrreflexive(a: string)
    ensures !Less(a, a)
  {
    if a != [] {
      LessIrreflexive(a[1..]);
    }
  }

  lemma {:induction false} LessTransitive(a: string, b: string, c: string)
    requires Less(a, b) && Less(b, c)
    ensures Less(a, c)
  {
    if a != [] && b != [] && c != [] && a[0] == b[0] && b[0] == c[0] {
      LessTransitive(a[1..], b[1..], c[1..]);
    }
  }

  /** Any two different strings are ordered one way or the other. */
  lemma {:induction false} LessTotal(a: string, b: string)
    ensures a == b || Less(a, b) || Less(b, a)
  {
    if a != [] && b != [] && a[0] == b[0] {
      LessTotal(a[1..], b[1..]);
      if a[1..] == b[1..] {
        assert a == [a[0]] + a[1..] && b == [b[0]] + b[1..];
      }
    }
  }

  lemma {:induction false} LessAsymmetric(a: string, b: string)
    requires Less(a, b)
    ensures !Less(b, a)
  {
    if Less(b, a) {
      LessTransitive(a, b, a);
      LessIrreflexive(a);
    }
  }

  /** Strictly ascending: sorted and without repeats. */
  predicate Ascending(s: seq<string>) {
    forall i, j :: 0 <= i < j < |s| ==> Less(s[i], s[j])
  }

  /** No element occurs twice. */
  predicate Distinct(s: seq<string>) {
    forall i, j :: 0 <= i < j < |s| ==> s[i] != s[j]
  }

  /** `r` with `x` put in its place. */
  function Insert(r: seq<string>, x: string): (t: seq<string>)
    requires Ascending(r) && x !in r
    ensures Ascending(t)
    ensures forall y :: y in t <==> y in r || y == x
    ensures |t| == |r| + 1
  {
    if r == [] then [x]
    else
      LessTotal(x, r[0]);
      if Less(x, r[0]) then
        forall k | 0 <= k < |r|
          ensures Less(x, r[k])
        {
          if k > 0 {
            LessTransitive(x, r[0], r[k]);
          }
        }
        [x] + r
      else
        var u := Insert(r[1..], x);
        assert forall y :: y in u ==> Less(r[0], y) by {
          forall y | y in u
            ensures Less(r[0], y)
          {
            if y != x {
              var k :| 0 <= k < |r[1..]| && r[1..][k] == y;
              assert r[k + 1] == y;
            }
          }
        }
        [r[0]] + u
  }

  /** The strings of `s` in ascending order. */
  ghost function SortedSet(s: set<string>): (r: seq<string>)
    ensures Ascending(r)
    ensures forall y :: y in r <==> y in s
    decreases |s|
  {
    if s == {} then []
    else
      var x :| x in s;
      Insert(SortedSet(s - {x}), x)
  }

  /** There is one ascending sequence of a given set of strings. */
  lemma {:induction false} AscendingUnique(a: seq<string>, b: seq<string>)
    requires Ascending(a) && Ascending(b)
    requires forall y :: y in a <==> y in b
    ensures a == b
  {
    assert a != [] ==> a[0] in a && a[0] in b;
    assert b != [] ==> b[0] in b && b[0] in a;
    if a != [] && b != [] {
      if a[0] != b[0] {
        var j :| 0 <= j < |b| && b[j] == a[0];
        var i :| 0 <= i < |a| && a[i] == b[0];
        assert Less(b[0], a[0]) && Less(a[0], b[0]);
        LessAsymmetric(a[0], b[0]);
      }
      forall y
        ensures y in a[1..] <==> y in b[1..]
      {
        if y in a[1..] {
          var i :| 0 <= i < |a[1..]| && a[1..][i] == y;
          assert Less(a[0], a[i + 1]);
          LessIrreflexive(y);
          assert y in b && y != b[0];
          var j :| 0 <= j < |b| && b[j] == y;
          assert j > 0 && b[1..][j - 1] == y;
        }
        if y in b[1..] {
          var i :| 0 <= i < |b[1..]| && b[1..][i] == y;
          assert Less(b[0], b[i + 1]);
          LessIrreflexive(y);
          assert y in a && y != a[0];
          var j :| 0 <= j < |a| && a[j] == y;
          assert j > 0 && a[1..][j - 1] == y;
        }
      }
      AscendingUnique(a[1..], b[1..]);
      assert a == [a[0]] + a[1..] && b == [b[0]] + b[1..];
    }
  }

  /** Python's `sorted` on a list without repeats. */
  method Sort(s: seq<string>) returns (r: seq<string>)
    requires Distinct(s)
    ensures r == SortedSet(set x | x in s)
  {
    r := [];
    for i := 0 to |s|
      invariant Ascending(r)
      invariant forall y :: y in r <==> y in s[..i]
    {
      assert s[i] !in s[..i];
      r := Insert(r, s[i]);
      assert s[..i + 1] == s[..i] + [s[i]];
    }
    assert s[..|s|] == s;
    AscendingUnique(r, SortedSet(set x | x in s));
  }
}
