/**
 * The contents page of format.py: which paths are listed, which are
 * reported NOT FOUND, and how they are grouped by directory and kind
 * (lines 40-104). The page is modelled as a sequence of `Line`s; the HTML
 * around them (`<ul>`, blank lines, the fixed preamble) is not.
 */
module Report {
  import opened Wrappers
  import opened Ordering
  import opened Grouping
  import opened Escape
  import opened Pathnames
  import Graph
  import Hypertext

  /** Python truthiness of `metadata[path].get(key)`. */
  predicate Holds(v: Option<Graph.Value>) {
    match v
    case None => false
    case Some(Yes) => true
    case Some(Title(t)) => t.Some? && t.value != []
    case Some(Names(l)) => l != []
  }

  /** `', '.join(names)`. */
  function JoinNames(names: seq<string>): (r: string)
    ensures names == [] ==> r == []
    ensures |names| == 1 ==> r == names[0]
  {
    if names == [] then []
    else if |names| == 1 then names[0]
    else names[0] + ", " + JoinNames(names[1..])
  }

  /** Joining two non-empty lists puts one separator between their joins. */
  lemma {:induction false} JoinNamesAppend(a: seq<string>, b: seq<string>)
    requires a != [] && b != []
    ensures JoinNames(a + b) == JoinNames(a) + ", " + JoinNames(b)
    decreases |a|
  {
    if |a| == 1 {
      assert (a + b)[1..] == b;
    } else {
      assert (a + b)[1..] == a[1..] + b;
      JoinNamesAppend(a[1..], b);
    }
  }

  /** What the report does with one path. */
  datatype Verdict =
    | Skipped                            // a `.DS_Store` file
    | Item(href: string, text: string)  // listed as a link
    | Missing(name: string, from: string) // reported NOT FOUND, from the pages naming it
    | Unlisted                           // exists, but is not listed

  /** The title text of a page, or `fallback` when it has none. */
  function TitleOr(v: Option<Graph.Value>, fallback: string): string {
    match v
    case Some(Title(Some(t))) => if t != [] then t else fallback
    case _ => fallback
  }

  /** The item of a listed path (format.py:59-62). */
  function ItemOf(m: Graph.Store, path: string): (v: Verdict)
    ensures v.Item? && '<' !in v.text && v.text != []
    ensures v.href == (if path == [] then "." else path)
    ensures TitleOr(Graph.Get(m, path, Graph.TitleKey), []) != [] ==>
      v.text == Encode(TitleOr(Graph.Get(m, path, Graph.TitleKey), []))
    ensures TitleOr(Graph.Get(m, path, Graph.TitleKey), []) == [] ==>
      v.text == Encode(if Basename(v.href) == [] then "." else Basename(v.href))
  {
    var href := if path == [] then "." else path;
    var title := TitleOr(Graph.Get(m, path, Graph.TitleKey), Basename(href));
    Item(href, Encode(if title == [] then "." else title))
  }

  /** The names of an `inbound` value as the report shows them; no list reads as none. */
  function From(inbound: Option<Graph.Value>): string {
    Encode(JoinNames(Graph.ListOf(inbound)))
  }

  /**
   * The loop body of `contents` (format.py:46-66), with the NOT FOUND text
   * built from `From`, which reads a missing `inbound` as an empty list.
   */
  function Decide(m: Graph.Store, path: string): (v: Verdict)
    requires path in m
    ensures v.Skipped? <==> EndsWith(path, ".DS_Store")
    ensures v.Missing? <==> !EndsWith(path, ".DS_Store") && !Holds(Graph.Get(m, path, Graph.Exists))
    ensures v.Missing? ==> v.name == Encode(path) && v.from == From(Graph.Get(m, path, Graph.Inbound))
  {
    if EndsWith(path, ".DS_Store") then Skipped
    else
      var found := Holds(Graph.Get(m, path, Graph.Exists));
      var isNotIncluded := !Holds(Graph.Get(m, path, Graph.Included));
      var isHtml := EndsWith(path, ".html");
      var isNotLinked := !Holds(Graph.Get(m, path, Graph.Linked));
      var bold := isNotIncluded && (isHtml || isNotLinked);
      var isNotArchived := !Holds(Graph.Get(m, path, Graph.Is("archived")));
      var isNotChapter := !Holds(Graph.Get(m, path, Graph.Is("chapter")));
      if found && bold && isNotArchived && isNotChapter then ItemOf(m, path)
      else if !found then Missing(Encode(path), From(Graph.Get(m, path, Graph.Inbound)))
      else Unlisted
  }

  /**
   * The NOT FOUND text as format.py:65 computes it: `None` stands for the
   * `TypeError` that `', '.join(None)` raises when there is no `inbound`.
   */
  function FromAsWritten(inbound: Option<Graph.Value>): (r: Option<string>)
    ensures r.None? <==> !(inbound.Some? && inbound.value.Names?)
  {
    match inbound
    case Some(Names(l)) => Some(Encode(JoinNames(l)))
    case _ => None
  }

  /** The loop body as written: `None` when it raises. */
  function DecideAsWritten(m: Graph.Store, path: string): (r: Option<Verdict>)
    requires path in m
    ensures r.None? <==>
      && !EndsWith(path, ".DS_Store")
      && !Holds(Graph.Get(m, path, Graph.Exists))
      && !(Graph.Get(m, path, Graph.Inbound).Some? && Graph.Get(m, path, Graph.Inbound).value.Names?)
  {
    var v := Decide(m, path);
    if v.Missing? then
      match FromAsWritten(Graph.Get(m, path, Graph.Inbound))
      case Some(from) => Some(Missing(v.name, from))
      case None => None
    else Some(v)
  }

  /** Where the code as written does not raise, it agrees with `Decide`. */
  lemma DecideAgrees(m: Graph.Store, path: string)
    requires path in m
    ensures DecideAsWritten(m, path).Some? ==> DecideAsWritten(m, path).value == Decide(m, path)
    ensures DecideAsWritten(m, path).None? <==>
      Decide(m, path).Missing? && FromAsWritten(Graph.Get(m, path, Graph.Inbound)).None?
  {
  }

  /**
   * A path is listed exactly when it is not a `.DS_Store` file, exists, is
   * not included, is HTML or not linked, and is neither archived nor a
   * chapter (format.py:46-58).
   */
  lemma DecideItem(m: Graph.Store, path: string)
    requires path in m
    ensures Decide(m, path).Item? <==>
      && !EndsWith(path, ".DS_Store")
      && Holds(Graph.Get(m, path, Graph.Exists))
      && !Holds(Graph.Get(m, path, Graph.Included))
      && (EndsWith(path, ".html") || !Holds(Graph.Get(m, path, Graph.Linked)))
      && !Holds(Graph.Get(m, path, Graph.Is("archived")))
      && !Holds(Graph.Get(m, path, Graph.Is("chapter")))
  {
  }

  /** Reading the metadata `tangle` built from `existing` and `parsed`. */
  ghost predicate Tangled(m: Graph.Store, existing: seq<string>, parsed: map<string, Hypertext.Doc>)
    requires Graph.Parsed(existing, parsed)
  {
    && (forall n :: n in m <==> Graph.In2(existing, parsed, |existing|, n))
    && (forall n, k :: Graph.Get(m, n, k) == Graph.TangledGet(existing, parsed, n, k))
  }

  /**
   * On the metadata `tangle` builds, a path is reported NOT FOUND exactly
   * when it was not found on disk, and the report names every source of an
   * edge to it: the style sheets, then the unskipped pages.
   */
  lemma MissingAfterTangle(m: Graph.Store, existing: seq<string>, parsed: map<string, Hypertext.Doc>, p: string)
    requires Graph.Parsed(existing, parsed) && Tangled(m, existing, parsed)
    requires p in m && !EndsWith(p, ".DS_Store")
    ensures Decide(m, p).Missing? <==> p !in existing
    ensures Decide(m, p).Missing? ==>
      Decide(m, p).from == Encode(JoinNames(Graph.SheetsTo(existing, parsed, |existing|, p) + Graph.PagesTo(existing, parsed, |existing|, p)))
  {
    Graph.ExistsMarked(existing, parsed, p);
    Graph.InboundListed(existing, parsed, p);
    Graph.ListOfListed(Graph.SheetsTo(existing, parsed, |existing|, p) + Graph.PagesTo(existing, parsed, |existing|, p));
  }

  /**
   * On the metadata `tangle` builds, a path is listed exactly when it was
   * found on disk, no style sheet and no unskipped page includes it, it is
   * HTML or no unskipped page links to it, and no page gives it the role
   * `archived` or `chapter`.
   */
  lemma ListedAfterTangle(m: Graph.Store, existing: seq<string>, parsed: map<string, Hypertext.Doc>, p: string)
    requires Graph.Parsed(existing, parsed) && Tangled(m, existing, parsed)
    requires p in m
    ensures Decide(m, p).Item? <==>
      && !EndsWith(p, ".DS_Store")
      && p in existing
      && !(exists j :: 0 <= j < |existing| && Graph.SheetIncludes(existing, parsed, j, p))
      && !(exists j :: 0 <= j < |existing| && Graph.PageIncludes(existing, parsed, j, p))
      && (EndsWith(p, ".html") || !exists j :: 0 <= j < |existing| && Graph.PageLinks(existing, parsed, j, p))
      && !Graph.Archived(existing, parsed, p)
      && !(exists j :: 0 <= j < |existing| && Graph.Carries(existing, parsed, j, p, "chapter"))
  {
    DecideItem(m, p);
    Graph.ExistsMarked(existing, parsed, p);
    Graph.IncludedMarked(existing, parsed, p);
    Graph.LinkedMarked(existing, parsed, p);
    Graph.IsMarked(existing, parsed, p, "archived");
    Graph.IsMarked(existing, parsed, p, "chapter");
  }

  /**
   * The report as written raises on a name that does not exist, is the
   * target of a role pair, and has edges only from skipped pages: its
   * entry has no `inbound` (format.py:64-65, tangle.py:36-41, 61-64).
   * `Decide` reports it NOT FOUND from no page.
   */
  lemma RoleTargetRaises(m: Graph.Store, existing: seq<string>, parsed: map<string, Hypertext.Doc>, t: string, j: nat, role: string)
    requires Graph.Parsed(existing, parsed) && Tangled(m, existing, parsed)
    requires t !in existing && !EndsWith(t, ".DS_Store")
    requires j < |existing| && Graph.Carries(existing, parsed, j, t, role)
    requires Graph.EdgesTo(existing, parsed, |existing|, t) == 0
    ensures t in m
    ensures DecideAsWritten(m, t).None?
    ensures Decide(m, t) == Missing(Encode(t), [])
  {
    Graph.RoleTargetWithoutInbound(existing, parsed, t, j, role);
  }

  /**
   * The smallest such entry: a path such as `gone.html` whose entry holds
   * only `is chapter`, because the page naming it a chapter is archived.
   */
  lemma ChapterOnlyRaises(p: string)
    requires !EndsWith(p, ".DS_Store")
    ensures var m := map[p := map[Graph.Is("chapter") := Graph.Yes]];
      DecideAsWritten(m, p).None? && Decide(m, p) == Missing(Encode(p), [])
  {
    var m := map[p := map[Graph.Is("chapter") := Graph.Yes]];
    assert Graph.Get(m, p, Graph.Exists) == None;
    assert Graph.Get(m, p, Graph.Inbound) == None;
  }

  /** The entry of `gone.html` in that case, which the report as written cannot print. */
  lemma GoneChapterRaises()
    ensures DecideAsWritten(map["gone.html" := map[Graph.Is("chapter") := Graph.Yes]], "gone.html").None?
  {
    assert !EndsWith("gone.html", ".DS_Store") by {
      assert "gone.html"[0] == 'g';
    }
    ChapterOnlyRaises("gone.html");
  }

  // The page `contents` prints.

  /** One line of the contents page. */
  datatype Line =
    | NotFound(name: string, from: string) // `<p>NOT FOUND: name, from from`
    | DirHeading(dir: string)              // `<h2>dir</h2>`
    | KindHeading(kind: string)            // `<h3>kind</h3>`, opening the list that follows
    | ListItem(href: string, text: string) // `<li><a href="href">text</a>`

  /** Every name is a key of the metadata, as `metadata[path]` needs. */
  predicate Known(m: Graph.Store, names: seq<string>) {
    forall p :: p in names ==> p in m
  }

  /**
   * The NOT FOUND lines one kind's paths print as they are visited, and the
   * items they collect (format.py:44-67).
   */
  function Listing(m: Graph.Store, paths: seq<string>): (r: (seq<Line>, seq<Line>))
    requires Known(m, paths)
    ensures forall i :: 0 <= i < |r.0| ==> r.0[i].NotFound?
    ensures forall i :: 0 <= i < |r.1| ==> r.1[i].ListItem?
  {
    if paths == [] then ([], [])
    else
      var init := paths[..|paths| - 1];
      var p := paths[|paths| - 1];
      assert forall q :: q in init ==> q in paths;
      var r := Listing(m, init);
      var v := Decide(m, p);
      if v.Item? then (r.0, r.1 + [ListItem(v.href, v.text)])
      else if v.Missing? then (r.0 + [NotFound(v.name, v.from)], r.1)
      else r
  }

  /** Every group holds names of the metadata. */
  predicate KnownGroups(m: Graph.Store, groups: seq<(string, seq<string>)>) {
    forall i :: 0 <= i < |groups| ==> Known(m, groups[i].1)
  }

  /**
   * The NOT FOUND lines of one directory's kinds, in kind order, and the
   * kinds with at least one item, with their items (format.py:43-69).
   */
  function KindBlocks(m: Graph.Store, groups: seq<(string, seq<string>)>): (r: (seq<Line>, seq<(string, seq<Line>)>))
    requires KnownGroups(m, groups)
    ensures forall i :: 0 <= i < |r.0| ==> r.0[i].NotFound?
    ensures forall i :: 0 <= i < |r.1| ==> r.1[i].1 != [] && forall j :: 0 <= j < |r.1[i].1| ==> r.1[i].1[j].ListItem?
  {
    if groups == [] then ([], [])
    else
      var prev := KindBlocks(m, groups[..|groups| - 1]);
      var g := groups[|groups| - 1];
      var l := Listing(m, g.1);
      (prev.0 + l.0, if l.1 != [] then prev.1 + [(g.0, l.1)] else prev.1)
  }

  /** Each kind's heading followed by its items (format.py:74-81). */
  function Flatten(things: seq<(string, seq<Line>)>): seq<Line> {
    if things == [] then []
    else
      var last := things[|things| - 1];
      Flatten(things[..|things| - 1]) + [KindHeading(last.0)] + last.1
  }

  /** The heading of a directory: `dir or '.'`. */
  function DirName(dir: string): string {
    if dir == [] then "." else dir
  }

  /** What `contents` prints for one directory (format.py:41-81). */
  ghost function DirLines(m: Graph.Store, dir: string, paths: seq<string>): seq<Line>
    requires Known(m, paths)
  {
    var b := KindBlocks(m, GroupsOf(paths, Extension));
    b.0 + if b.1 == [] then [] else [DirHeading(DirName(dir))] + Flatten(b.1)
  }

  /** What `contents` prints for the directory groups `groups`, in order. */
  ghost function ContentsFrom(m: Graph.Store, groups: seq<(string, seq<string>)>): seq<Line>
    requires KnownGroups(m, groups)
  {
    if groups == [] then []
    else
      var g := groups[|groups| - 1];
      ContentsFrom(m, groups[..|groups| - 1]) + DirLines(m, g.0, g.1)
  }

  /** The groups of known names hold known names. */
  lemma GroupsKnown(m: Graph.Store, names: seq<string>, key: KeyOf)
    requires Known(m, names)
    ensures KnownGroups(m, GroupsOf(names, key))
  {
    GroupsPartition(names, key);
  }

  /** What `contents(metadata, names)` prints (format.py:40-81). */
  ghost function ContentsOf(m: Graph.Store, names: seq<string>): seq<Line>
    requires Known(m, names)
  {
    GroupsKnown(m, names, Directory);
    ContentsFrom(m, GroupsOf(names, Directory))
  }

  /** The inner loop of `contents` over one kind's paths. */
  method ListKind(m: Graph.Store, paths: seq<string>) returns (missing: seq<Line>, items: seq<Line>)
    requires Known(m, paths)
    ensures (missing, items) == Listing(m, paths)
  {
    missing, items := [], [];
    for i := 0 to |paths|
      invariant (missing, items) == Listing(m, paths[..i])
    {
      assert paths[..i + 1][..i] == paths[..i];
      var v := Decide(m, paths[i]);
      if v.Item? {
        items := items + [ListItem(v.href, v.text)];
      } else if v.Missing? {
        missing := missing + [NotFound(v.name, v.from)];
      }
    }
    assert paths[..|paths|] == paths;
  }

  /** The loop of `contents` over one directory's kinds (format.py:43-69). */
  method ListKinds(m: Graph.Store, kinds: seq<(string, seq<string>)>) returns (missing: seq<Line>, things: seq<(string, seq<Line>)>)
    requires KnownGroups(m, kinds)
    ensures (missing, things) == KindBlocks(m, kinds)
  {
    missing, things := [], [];
    for i := 0 to |kinds|
      invariant (missing, things) == KindBlocks(m, kinds[..i])
    {
      assert kinds[..i + 1][..i] == kinds[..i];
      var notFound, items := ListKind(m, kinds[i].1);
      missing := missing + notFound;
      if items != [] {
        things := things + [(kinds[i].0, items)];
      }
    }
    assert kinds[..|kinds|] == kinds;
  }

  /** The headings and lists of one directory (format.py:71-81). */
  method Headings(dir: string, things: seq<(string, seq<Line>)>) returns (lines: seq<Line>)
    ensures lines == if things == [] then [] else [DirHeading(DirName(dir))] + Flatten(things)
  {
    lines := [];
    if things != [] {
      lines := [DirHeading(DirName(dir))];
      for i := 0 to |things|
        invariant lines == [DirHeading(DirName(dir))] + Flatten(things[..i])
      {
        assert things[..i + 1][..i] == things[..i];
        lines := lines + [KindHeading(things[i].0)] + things[i].1;
      }
      assert things[..|things|] == things;
    }
  }

  /** What `contents` prints for one directory. */
  method ListDirectory(m: Graph.Store, dir: string, paths: seq<string>) returns (lines: seq<Line>)
    requires Known(m, paths)
    ensures lines == DirLines(m, dir, paths)
  {
    var kinds := Groups(paths, Extension);
    GroupsKnown(m, paths, Extension);
    var missing, things := ListKinds(m, kinds);
    var headed := Headings(dir, things);
    lines := missing + headed;
  }

  /** The outer loop of `contents` over directory groups. */
  method ListDirectories(m: Graph.Store, dirs: seq<(string, seq<string>)>) returns (lines: seq<Line>)
    requires KnownGroups(m, dirs)
    ensures lines == ContentsFrom(m, dirs)
  {
    lines := [];
    for i := 0 to |dirs|
      invariant lines == ContentsFrom(m, dirs[..i])
    {
      assert dirs[..i + 1][..i] == dirs[..i];
      var block := ListDirectory(m, dirs[i].0, dirs[i].1);
      lines := lines + block;
    }
    assert dirs[..|dirs|] == dirs;
  }

  /** `contents` (format.py:40-81). */
  method Contents(m: Graph.Store, names: seq<string>) returns (lines: seq<Line>)
    requires Known(m, names)
    ensures lines == ContentsOf(m, names)
  {
    var dirs := Groups(names, Directory);
    GroupsKnown(m, names, Directory);
    lines := ListDirectories(m, dirs);
  }

  /** Names with fewer than two `/`: listed first. */
  function Shallow(m: Graph.Store): set<string> {
    set n | n in m && Count(n, '/') < 2
  }

  /** Names with two `/` or more: listed after the shallow ones. */
  function Deep(m: Graph.Store): set<string> {
    set n | n in m && Count(n, '/') >= 2
  }

  /** The first half of `format` (format.py:84-93): the names split by depth and sorted. */
  method Layers(m: Graph.Store) returns (shallow: seq<string>, deep: seq<string>)
    ensures forall n :: n in shallow <==> n in m && Count(n, '/') < 2
    ensures forall n :: n in deep <==> n in m && Count(n, '/') >= 2
    ensures Ascending(shallow) && Ascending(deep)
    ensures shallow == SortedSet(Shallow(m)) && deep == SortedSet(Deep(m))
  {
    var s: seq<string> := [];
    var d: seq<string> := [];
    var rest := m.Keys;
    while rest != {}
      invariant rest <= m.Keys
      invariant Distinct(s) && Distinct(d)
      invariant forall n :: n in s <==> n in m && n !in rest && Count(n, '/') < 2
      invariant forall n :: n in d <==> n in m && n !in rest && Count(n, '/') >= 2
      decreases rest
    {
      var name :| name in rest;
      if Count(name, '/') < 2 {
        s := s + [name];
      } else {
        d := d + [name];
      }
      rest := rest - {name};
    }
    assert (set n | n in s) == Shallow(m);
    assert (set n | n in d) == Deep(m);
    shallow := Sort(s);
    deep := Sort(d);
  }

  /** `format` (format.py:83-104), less the fixed preamble it prints first. */
  method Format(m: Graph.Store) returns (lines: seq<Line>)
    ensures var shallow := SortedSet(Shallow(m));
      var deep := SortedSet(Deep(m));
      Known(m, shallow) && Known(m, deep) && lines == ContentsOf(m, shallow) + ContentsOf(m, deep)
  {
    var shallow, deep := Layers(m);
    var first := Contents(m, shallow);
    var second := Contents(m, deep);
    lines := first + second;
  }

  // What the page shows.

  /** Each heading opens something: a directory heading a kind, a kind heading an item. */
  predicate Headed(lines: seq<Line>) {
    forall i :: 0 <= i < |lines| ==> Opens(lines, i)
  }

  /** Whether the `i`th line is a heading whose next line is what it opens. */
  predicate Opens(lines: seq<Line>, i: nat)
    requires i < |lines|
  {
    && (lines[i].DirHeading? ==> i + 1 < |lines| && lines[i + 1].KindHeading?)
    && (lines[i].KindHeading? ==> i + 1 < |lines| && lines[i + 1].ListItem?)
  }

  lemma HeadedAppend(a: seq<Line>, b: seq<Line>)
    requires Headed(a) && Headed(b)
    ensures Headed(a + b)
  {
    var c := a + b;
    forall i | 0 <= i < |c|
      ensures Opens(c, i)
    {
      if i < |a| {
        assert c[i] == a[i];
        assert Opens(a, i);
        if i + 1 < |a| {
          assert c[i + 1] == a[i + 1];
        }
      } else {
        assert c[i] == b[i - |a|];
        assert Opens(b, i - |a|);
        if i + 1 < |c| {
          assert c[i + 1] == b[i + 1 - |a|];
        }
      }
    }
  }

  /** Kind headings over non-empty item lists: each heading is followed by an item. */
  lemma {:induction false} FlattenHeaded(things: seq<(string, seq<Line>)>)
    requires forall i :: 0 <= i < |things| ==> things[i].1 != [] && forall j :: 0 <= j < |things[i].1| ==> things[i].1[j].ListItem?
    ensures Headed(Flatten(things))
    ensures things != [] ==> Flatten(things)[0].KindHeading?
  {
    if things != [] {
      var init := things[..|things| - 1];
      var last := things[|things| - 1];
      FlattenHeaded(init);
      var block := [KindHeading(last.0)] + last.1;
      assert block[1] == last.1[0];
      assert Headed(block) by {
        forall i | 0 < i < |block|
          ensures block[i].ListItem?
        {
          assert block[i] == last.1[i - 1];
        }
      }
      HeadedAppend(Flatten(init), block);
      assert Flatten(things) == Flatten(init) + block;
      if init != [] {
        assert Flatten(things)[0] == Flatten(init)[0];
      }
    }
  }

  /** NOT FOUND lines, then a directory heading over headed kinds. */
  lemma BlockHeaded(missing: seq<Line>, dir: string, things: seq<(string, seq<Line>)>)
    requires forall i :: 0 <= i < |missing| ==> missing[i].NotFound?
    requires forall i :: 0 <= i < |things| ==> things[i].1 != [] && forall j :: 0 <= j < |things[i].1| ==> things[i].1[j].ListItem?
    ensures Headed(missing + if things == [] then [] else [DirHeading(DirName(dir))] + Flatten(things))
  {
    assert Headed(missing) by {
      forall i | 0 <= i < |missing|
        ensures Opens(missing, i)
      {
      }
    }
    if things == [] {
      assert missing + [] == missing;
    } else {
      FlattenHeaded(things);
      var f := Flatten(things);
      var tail := [DirHeading(DirName(dir))] + f;
      assert Headed(tail) by {
        forall i | 0 <= i < |tail|
          ensures Opens(tail, i)
        {
          if i == 0 {
            assert tail[1] == f[0];
          } else {
            assert tail[i] == f[i - 1];
            assert Opens(f, i - 1);
            if i + 1 < |tail| {
              assert tail[i + 1] == f[i];
            }
          }
        }
      }
      HeadedAppend(missing, tail);
    }
  }

  /** One directory's lines are headed. */
  lemma DirHeaded(m: Graph.Store, dir: string, paths: seq<string>)
    requires Known(m, paths)
    ensures Headed(DirLines(m, dir, paths))
  {
    GroupsKnown(m, paths, Extension);
    var b := KindBlocks(m, GroupsOf(paths, Extension));
    BlockHeaded(b.0, dir, b.1);
  }

  /**
   * A kind heading appears only above at least one item, and a directory
   * heading only above at least one kind (format.py:69-72).
   */
  lemma {:induction false} ContentsHeaded(m: Graph.Store, dirs: seq<(string, seq<string>)>)
    requires KnownGroups(m, dirs)
    ensures Headed(ContentsFrom(m, dirs))
  {
    if dirs != [] {
      var init := dirs[..|dirs| - 1];
      var g := dirs[|dirs| - 1];
      ContentsHeaded(m, init);
      DirHeaded(m, g.0, g.1);
      HeadedAppend(ContentsFrom(m, init), DirLines(m, g.0, g.1));
    }
  }

  /** Whether the report prints a line for `p`: an item or a NOT FOUND. */
  predicate Shown(m: Graph.Store, p: string)
    requires p in m
  {
    Decide(m, p).Item? || Decide(m, p).Missing?
  }

  /** The line printed for a shown path. */
  function LineFor(m: Graph.Store, p: string): Line
    requires p in m
  {
    var v := Decide(m, p);
    if v.Item? then ListItem(v.href, v.text)
    else if v.Missing? then NotFound(v.name, v.from)
    else NotFound([], [])
  }

  /** Every item and NOT FOUND line is the line of one of `names`. */
  ghost predicate Sound(m: Graph.Store, names: seq<string>, lines: seq<Line>)
    requires Known(m, names)
  {
    forall line :: line in lines && (line.ListItem? || line.NotFound?) ==>
      exists p :: p in names && Shown(m, p) && line == LineFor(m, p)
  }

  /** Every shown name of `names` has its line. */
  ghost predicate Complete(m: Graph.Store, names: seq<string>, lines: seq<Line>)
    requires Known(m, names)
  {
    forall p :: p in names && Shown(m, p) ==> LineFor(m, p) in lines
  }

  /** One kind's NOT FOUND lines and items are exactly the lines of its shown paths. */
  lemma {:induction false} ListingReports(m: Graph.Store, paths: seq<string>)
    requires Known(m, paths)
    ensures Sound(m, paths, Listing(m, paths).0 + Listing(m, paths).1)
    ensures Complete(m, paths, Listing(m, paths).0 + Listing(m, paths).1)
  {
    if paths != [] {
      var init := paths[..|paths| - 1];
      var p := paths[|paths| - 1];
      assert paths == init + [p];
      assert Known(m, init);
      ListingReports(m, init);
      var before := Listing(m, init).0 + Listing(m, init).1;
      var after := Listing(m, paths).0 + Listing(m, paths).1;
      assert forall line :: line in after ==> line in before || (Shown(m, p) && line == LineFor(m, p));
      assert Shown(m, p) ==> LineFor(m, p) in after;
      assert forall line :: line in before ==> line in after;
    }
  }

  /** The names of all groups, in order. */
  function Members(groups: seq<(string, seq<string>)>): (r: seq<string>)
    ensures forall x :: x in r <==> exists i :: 0 <= i < |groups| && x in groups[i].1
  {
    if groups == [] then []
    else
      var init := groups[..|groups| - 1];
      var r := Members(init) + groups[|groups| - 1].1;
      assert forall i :: 0 <= i < |init| ==> init[i] == groups[i];
      r
  }

  /** A directory's NOT FOUND lines and items are exactly the lines of its shown paths. */
  lemma {:induction false} KindBlocksReport(m: Graph.Store, groups: seq<(string, seq<string>)>)
    requires KnownGroups(m, groups)
    ensures Known(m, Members(groups))
    ensures var b := KindBlocks(m, groups);
      Sound(m, Members(groups), b.0 + Flatten(b.1)) && Complete(m, Members(groups), b.0 + Flatten(b.1))
  {
    if groups != [] {
      var init := groups[..|groups| - 1];
      var g := groups[|groups| - 1];
      assert KnownGroups(m, init) by {
        forall i | 0 <= i < |init|
          ensures Known(m, init[i].1)
        {
          assert init[i] == groups[i];
        }
      }
      KindBlocksReport(m, init);
      ListingReports(m, g.1);
      var b := KindBlocks(m, init);
      var l := Listing(m, g.1);
      var before := b.0 + Flatten(b.1);
      var here := l.0 + l.1;
      var after := KindBlocks(m, groups).0 + Flatten(KindBlocks(m, groups).1);
      if l.1 != [] {
        assert (b.1 + [(g.0, l.1)])[..|b.1|] == b.1;
        assert Flatten(b.1 + [(g.0, l.1)]) == Flatten(b.1) + [KindHeading(g.0)] + l.1;
      }
      assert forall line :: line in after ==> line in before || line in here || line.KindHeading?;
      assert forall line :: line in before || line in here ==> line in after;
      assert Members(groups) == Members(init) + g.1;
    }
  }

  /** One directory's NOT FOUND lines and items are exactly the lines of its shown paths. */
  lemma DirReport(m: Graph.Store, dir: string, paths: seq<string>)
    requires Known(m, paths)
    ensures Sound(m, paths, DirLines(m, dir, paths)) && Complete(m, paths, DirLines(m, dir, paths))
  {
    var groups := GroupsOf(paths, Extension);
    GroupsKnown(m, paths, Extension);
    GroupsPartition(paths, Extension);
    KindBlocksReport(m, groups);
    assert forall x :: x in Members(groups) <==> x in paths;
    var b := KindBlocks(m, groups);
    var lines := DirLines(m, dir, paths);
    assert forall line :: line in lines ==> line in b.0 + Flatten(b.1) || line.DirHeading?;
    assert forall line :: line in b.0 + Flatten(b.1) ==> line in lines;
  }

  /** The page's NOT FOUND lines and items are exactly the lines of the shown names of the groups. */
  lemma {:induction false} ContentsFromReport(m: Graph.Store, dirs: seq<(string, seq<string>)>)
    requires KnownGroups(m, dirs)
    ensures Known(m, Members(dirs))
    ensures Sound(m, Members(dirs), ContentsFrom(m, dirs)) && Complete(m, Members(dirs), ContentsFrom(m, dirs))
  {
    if dirs != [] {
      var init := dirs[..|dirs| - 1];
      var g := dirs[|dirs| - 1];
      assert KnownGroups(m, init) by {
        forall i | 0 <= i < |init|
          ensures Known(m, init[i].1)
        {
          assert init[i] == dirs[i];
        }
      }
      ContentsFromReport(m, init);
      DirReport(m, g.0, g.1);
      assert Members(dirs) == Members(init) + g.1;
    }
  }

  /**
   * `contents(metadata, names)` prints a line for every shown name (an item
   * or a NOT FOUND) and no item or NOT FOUND line of anything else.
   */
  lemma ContentsReport(m: Graph.Store, names: seq<string>)
    requires Known(m, names)
    ensures Sound(m, names, ContentsOf(m, names)) && Complete(m, names, ContentsOf(m, names))
    ensures Headed(ContentsOf(m, names))
  {
    var dirs := GroupsOf(names, Directory);
    GroupsKnown(m, names, Directory);
    GroupsPartition(names, Directory);
    ContentsFromReport(m, dirs);
    ContentsHeaded(m, dirs);
    assert forall x :: x in Members(dirs) <==> x in names;
  }

  /**
   * The page `format` prints: every name of the metadata that is shown has
   * its line, every item and NOT FOUND line belongs to a name of the
   * metadata, and every heading opens something.
   */
  lemma FormatReport(m: Graph.Store)
    ensures var shallow := SortedSet(Shallow(m));
      var deep := SortedSet(Deep(m));
      Known(m, shallow) && Known(m, deep) &&
      var lines := ContentsOf(m, shallow) + ContentsOf(m, deep);
      && Headed(lines)
      && (forall p :: p in m && Shown(m, p) ==> LineFor(m, p) in lines)
      && (forall line :: line in lines && (line.ListItem? || line.NotFound?) ==>
            exists p :: p in m && Shown(m, p) && line == LineFor(m, p))
  {
    var shallow := SortedSet(Shallow(m));
    var deep := SortedSet(Deep(m));
    ContentsReport(m, shallow);
    ContentsReport(m, deep);
    HeadedAppend(ContentsOf(m, shallow), ContentsOf(m, deep));
    forall p | p in m
      ensures p in shallow || p in deep
    {
      if Count(p, '/') < 2 {
        assert p in Shallow(m);
      } else {
        assert p in Deep(m);
      }
    }
  }
}
