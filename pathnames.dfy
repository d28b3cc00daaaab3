/**
 * The path helpers of format.py: `directory` (Python's `os.path.dirname`),
 * `os.path.basename`, `extension` (the kind behind `os.path.splitext`),
 * `str.endswith` and `str.count('/')`.
 */
module Pathnames {

  /** `s.rfind(c) + 1`: the index just after the last `c`, or 0 without one. */
  function AfterLast(s: string, c: char): (i: nat)
    ensures i <= |s|
    ensures c !in s[i..]
    ensures i > 0 ==> s[i - 1] == c
  {
    if s == [] || s[|s| - 1] == c then |s|
    else
      var q := s[..|s| - 1];
      var j := AfterLast(q, c);
      assert s[j..] == q[j..] + [s[|s| - 1]];
      j
  }

  /** Pins `AfterLast` down: a `c` just before `i` and none from `i` on. */
  lemma {:induction false} AfterLastAt(s: string, c: char, i: nat)
    requires i <= |s| && c !in s[i..]
    requires i > 0 ==> s[i - 1] == c
    ensures AfterLast(s, c) == i
    decreases |s|
  {
    if s != [] && s[|s| - 1] != c {
      assert s[|s| - 1] in s[i..] by {
        if i == |s| {
          assert false;
        }
      }
    }
    if s != [] && s[|s| - 1] != c && i < |s| {
      var q := s[..|s| - 1];
      assert q[i..] <= s[i..];
      AfterLastAt(q, c, i);
    }
  }

  /** Every character is `/` (true of the empty string). */
  predicate AllSlashes(s: string) {
    forall i :: 0 <= i < |s| ==> s[i] == '/'
  }

  /** `s.rstrip('/')`. */
  function TrimSlashes(s: string): (r: string)
    ensures r <= s
    ensures r == [] || r[|r| - 1] != '/'
    ensures forall i :: |r| <= i < |s| ==> s[i] == '/'
    ensures r == [] ==> AllSlashes(s)
  {
    if s != [] && s[|s| - 1] == '/' then TrimSlashes(s[..|s| - 1]) else s
  }

  /**
   * `directory` (format.py:7-8), which is `posixpath.dirname`: everything up
   * to the last `/`, without its trailing slashes unless it is all slashes.
   */
  function Directory(p: string): (r: string)
    ensures r <= p
    ensures AllSlashes(r) || r[|r| - 1] != '/'
    ensures forall i :: |r| <= i < |p| ==> (p[i] == '/' <==> i < AfterLast(p, '/'))
    ensures |r| <= AfterLast(p, '/')
    ensures AfterLast(p, '/') > 0 ==> r != []
    ensures AllSlashes(p[..AfterLast(p, '/')]) ==> r == p[..AfterLast(p, '/')]
  {
    var head := p[..AfterLast(p, '/')];
    if head != [] && !AllSlashes(head) then TrimSlashes(head) else head
  }

  /** A name in a directory has that directory. */
  lemma DirectoryOfJoin(d: string, b: string)
    requires d != [] && d[|d| - 1] != '/'
    requires '/' !in b
    ensures Directory(d + "/" + b) == d
  {
    var p := d + "/" + b;
    assert p[|d|] == '/' && p[|d| + 1..] == b;
    assert AfterLast(p, '/') == |d| + 1;
    assert p[..|d| + 1] == d + "/";
    assert (d + "/")[|d| - 1] == d[|d| - 1];
  }

  /** A name without `/` is in the directory `''`, which the report shows as `.`. */
  lemma DirectoryOfName(p: string)
    requires '/' !in p
    ensures Directory(p) == []
  {
    assert AfterLast(p, '/') == 0;
  }

  /** `os.path.basename`: the text after the last `/`. */
  function Basename(p: string): (r: string)
    ensures '/' !in r
    ensures |r| <= |p| && p == p[..|p| - |r|] + r
    ensures |r| == |p| || p[|p| - |r| - 1] == '/'
  {
    p[AfterLast(p, '/')..]
  }

  /** Every character is `.`. */
  predicate AllDots(s: string) {
    forall i :: 0 <= i < |s| ==> s[i] == '.'
  }

  /**
   * `os.path.splitext(p)[1].lstrip('.')`: the text after the last `.` of the
   * last component, or `''` when that component has no dot or only leading
   * dots before it (`.profile`).
   */
  function ExtensionText(p: string): (e: string)
    ensures '.' !in e && '/' !in e
    ensures |e| <= |p| && e == p[|p| - |e|..]
    ensures e != [] ==> |e| < |p| && p[|p| - |e| - 1] == '.'
  {
    var s := AfterLast(p, '/');
    var d := AfterLast(p, '.');
    if d > s && !AllDots(p[s..d - 1]) then
      assert p[d..] == p[s..][d - s..];
      p[d..]
    else []
  }

  /** A name without a dot has no extension, in any directory. */
  lemma ExtensionTextWithoutDot(dir: string, name: string)
    requires dir == [] || dir[|dir| - 1] == '/'
    requires '/' !in name && '.' !in name
    ensures ExtensionText(dir + name) == []
  {
    var p := dir + name;
    assert p[|dir|..] == name;
    assert dir != [] ==> p[|dir| - 1] == '/';
    AfterLastAt(p, '/', |dir|);
  }

  /** A name whose only dots lead it (`.profile`, `..x`) has no extension. */
  lemma ExtensionTextOfDotName(dir: string, dots: string, x: string)
    requires dir == [] || dir[|dir| - 1] == '/'
    requires dots != [] && AllDots(dots)
    requires '/' !in x && '.' !in x
    ensures ExtensionText(dir + dots + x) == []
  {
    var p := dir + dots + x;
    var d := |dir| + |dots|;
    DotNameLastDot(dir, dots, x);
    DotNameLastSlash(dir, dots, x);
    assert p[|dir|..d - 1] == dots[..|dots| - 1];
    NoExtension(p, |dir|, d);
  }

  lemma DotNameLastDot(dir: string, dots: string, x: string)
    requires dots != [] && AllDots(dots)
    requires '.' !in x
    ensures AfterLast(dir + dots + x, '.') == |dir| + |dots|
  {
    var p := dir + dots + x;
    var d := |dir| + |dots|;
    assert p[d - 1] == dots[|dots| - 1] && p[d..] == x;
    AfterLastAt(p, '.', d);
  }

  lemma DotNameLastSlash(dir: string, dots: string, x: string)
    requires dir == [] || dir[|dir| - 1] == '/'
    requires AllDots(dots)
    requires '/' !in x
    ensures AfterLast(dir + dots + x, '/') == |dir|
  {
    var p := dir + dots + x;
    DotsHaveNoSlash(dots);
    assert p[|dir|..] == dots + x;
    assert dir != [] ==> p[|dir| - 1] == '/';
    AfterLastAt(p, '/', |dir|);
  }

  /** With the last `/` and the last `.` where they are, only leading dots precede the last dot. */
  lemma NoExtension(p: string, s: nat, d: nat)
    requires AfterLast(p, '/') == s && AfterLast(p, '.') == d
    requires s < d ==> AllDots(p[s..d - 1])
    ensures ExtensionText(p) == []
  {
    if s < d {
      assert AllDots(p[AfterLast(p, '/')..AfterLast(p, '.') - 1]);
    }
  }

  lemma DotsHaveNoSlash(dots: string)
    requires AllDots(dots)
    ensures '/' !in dots
  {
  }

  /** The extension of `stem.x` in any directory is `x`, for a stem with a non-dot character. */
  lemma ExtensionTextOfJoin(dir: string, stem: string, x: string)
    requires dir == [] || dir[|dir| - 1] == '/'
    requires '/' !in stem && !AllDots(stem)
    requires '/' !in x && '.' !in x
    ensures ExtensionText(dir + stem + "." + x) == x
  {
    var p := dir + stem + "." + x;
    var d := |dir| + |stem| + 1;
    assert p[d - 1] == '.' && p[d..] == x;
    AfterLastAt(p, '.', d);
    assert p[|dir|..] == stem + "." + x;
    assert dir != [] ==> p[|dir| - 1] == '/';
    AfterLastAt(p, '/', |dir|);
    assert p[|dir|..d - 1] == stem;
  }

  /** The `kinds` table of `extension` (format.py:11-23). */
  const Kinds: seq<(string, string)> := [
    ("html", "hypertext"), ("txt", "text"), ("png", "image"), ("jpg", "image"),
    ("svg", "image"), ("gif", "image"), ("ico", "image"), ("webp", "image"),
    ("py", "code"), ("js", "code"), ("sh", "code")]

  /** `dict(table).get(e, 'other')`: the kind of the first entry for `e`. */
  function KindIn(table: seq<(string, string)>, e: string): (r: string)
    ensures r == "other" || exists i :: 0 <= i < |table| && table[i] == (e, r)
    ensures (forall i :: 0 <= i < |table| ==> table[i].0 != e) ==> r == "other"
    ensures forall i :: 0 <= i < |table| && table[i].0 == e && (forall j :: 0 <= j < i ==> table[j].0 != e) ==> r == table[i].1
  {
    if table == [] then "other"
    else if table[0].0 == e then table[0].1
    else KindIn(table[1..], e)
  }

  /** `extension` (format.py:10-26). */
  function Extension(p: string): string {
    KindIn(Kinds, ExtensionText(p))
  }

  /** A name without an extension, such as `README` or `.profile`, is of kind `other`. */
  lemma ExtensionWithoutSuffix(p: string)
    requires ExtensionText(p) == []
    ensures Extension(p) == "other"
  {
    assert forall i :: 0 <= i < |Kinds| ==> |Kinds[i].0| > 0;
  }

  /** `p.endswith(suffix)`. */
  predicate EndsWith(p: string, suffix: string) {
    |suffix| <= |p| && p[|p| - |suffix|..] == suffix
  }

  /** `p.count(c)`. */
  function Count(p: string, c: char): (n: nat)
    ensures n <= |p|
    ensures n == 0 <==> c !in p
  {
    if p == [] then 0 else (if p[0] == c then 1 else 0) + Count(p[1..], c)
  }

  /** Counting distributes over concatenation. */
  lemma {:induction false} CountAppend(a: string, b: string, c: char)
    ensures Count(a + b, c) == Count(a, c) + Count(b, c)
    decreases |a|
  {
    if a == [] {
      assert a + b == b;
    } else {
      assert (a + b)[1..] == a[1..] + b;
      CountAppend(a[1..], b, c);
    }
  }

  /** A single character counts once when it is `c`, else not at all. */
  lemma CountSingle(x: char, c: char)
    ensures Count([x], c) == if x == c then 1 else 0
  {
    assert [x][1..] == [];
  }
}
