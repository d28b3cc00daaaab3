/**
 * `hypertext` (tangle.py:88-130): one forward pass over a page's element
 * stream, carrying a running base, collecting the title, links, inclusions
 * and role pairs, and stopping at a `meta` element whose `data-catalogue`
 * attribute is truthy. Parsing the page is not modelled: the element stream,
 * each element's attributes and its descendant text are given.
 */
module Hypertext {
  import opened Wrappers
  import opened References
  import opened StyleSheets

  type Path = string

  /** An element in document order: tag name, attributes and `text(element)`. */
  datatype Element = Element(name: string, attributes: Attributes, text: string)

  /** The facts extracted from one file; the builder reads only some of them per file type. */
  datatype Doc = Doc(title: Option<string>, links: set<Path>, inclusions: set<Path>, roles: set<(Path, string)>)

  /** Which branch of the pass an element takes, decided by its tag name alone. */
  datatype Kind = TitleKind | BaseKind | MetaKind | StyleKind | LinkerKind | IncluderKind | OtherKind

  /** The `if`/`elif` chain on `element.name`, with `linkers` and `includers` (tangle.py:88-89). */
  function KindOf(name: string): Kind {
    if name == "title" then TitleKind
    else if name == "base" then BaseKind
    else if name == "meta" then MetaKind
    else if name == "style" then StyleKind
    else if name == "a" || name == "area" then LinkerKind
    else if || name == "audio" || name == "embed" || name == "iframe" || name == "img" || name == "input"
            || name == "link" || name == "script" || name == "source" || name == "track" || name == "video"
    then IncluderKind
    else OtherKind
  }

  /** `element.name in linkers | includers`. */
  predicate IsReferrer(e: Element) {
    KindOf(e.name) == LinkerKind || KindOf(e.name) == IncluderKind
  }

  /** A `meta` element whose `data-catalogue` is truthy; any non-empty value, "false" included. */
  predicate Stops(e: Element) {
    KindOf(e.name) == MetaKind && Truthy(Lookup(e.attributes, "data-catalogue"))
  }

  /** The role pairs of one element: its `rel` tokens, each paired with its reference. */
  function RolePairs(uri: Path, attributes: Attributes): set<(Path, string)> {
    set role | role in Roles(Lookup(attributes, "rel")) :: (uri, role)
  }

  /** The links a `style` element contributes, as a set. */
  function StyleLinks(base: Option<string>, css: string, join: Joiner, normpath: Normaliser): set<Path> {
    var found := CssLinks(base, css, join, normpath);
    set u | u in found
  }

  /** The index of the first stopping element, or the length of the stream. */
  function Cutoff(es: seq<Element>): (c: nat)
    ensures c <= |es|
    ensures forall j :: 0 <= j < c ==> !Stops(es[j])
    ensures c < |es| ==> Stops(es[c])
  {
    if es == [] then 0
    else if Stops(es[0]) then 0
    else 1 + Cutoff(es[1..])
  }

  /**
   * The three helpers the pass calls on an element: `reference`, the CSS
   * scan of a `style` element, and the role pairs of `roles`. The pass is
   * stated for any choice of them; `Standard` supplies the modelled ones.
   */
  datatype Resolver = Resolver(
    reference: (Option<string>, Attributes) -> Option<string>,
    styleLinks: (Option<string>, string) -> set<Path>,
    rolePairs: (Path, Attributes) -> set<(Path, string)>)

  /** The helpers of tangle.py, with `urljoin` and `normpath` supplied. */
  function Standard(join: Joiner, normpath: Normaliser): Resolver {
    Resolver((base, attributes) => Reference(base, attributes, join),
             (base, css) => StyleLinks(base, css, join, normpath),
             (uri, attributes) => RolePairs(uri, attributes))
  }

  /** The running state of the pass: the fields of the document, base included. */
  datatype Scan = Scan(title: Option<string>, base: Option<string>, links: set<Path>, inclusions: set<Path>, roles: set<(Path, string)>)

  /** The state before the first element: no title, and the page's own name as base. */
  function Start(name: Path): Scan {
    Scan(None, Some(name), {}, {}, {})
  }

  /** One element's effect on the running state, branch by branch; a stopping `meta` is handled by `Cutoff`. */
  function Step(s: Scan, e: Element, r: Resolver): (t: Scan)
    ensures s.links <= t.links && s.inclusions <= t.inclusions && s.roles <= t.roles
    ensures forall u :: u in t.links - s.links ==> KindOf(e.name) == LinkerKind && Local(Some(u))
    ensures t.title == if KindOf(e.name) == TitleKind then Some(e.text) else s.title
    ensures KindOf(e.name) != BaseKind ==> t.base == s.base
  {
    match KindOf(e.name)
    case TitleKind => s.(title := Some(e.text))
    case BaseKind => s.(base := r.reference(s.base, e.attributes))
    case MetaKind => s
    case StyleKind => s.(inclusions := s.inclusions + r.styleLinks(s.base, e.text))
    case LinkerKind =>
      var uri := r.reference(s.base, e.attributes);
      if Local(uri) then s.(links := s.links + {uri.value}, roles := s.roles + r.rolePairs(uri.value, e.attributes))
      else s
    case IncluderKind =>
      var uri := r.reference(s.base, e.attributes);
      if Local(uri) then s.(inclusions := s.inclusions + {uri.value}, roles := s.roles + r.rolePairs(uri.value, e.attributes))
      else s
    case OtherKind => s
  }

  /** The state after the first `i` elements. */
  function ScanTo(name: Path, es: seq<Element>, i: nat, r: Resolver): (s: Scan)
    requires i <= |es|
    ensures forall u :: u in s.links ==> Local(Some(u))
  {
    if i == 0 then Start(name) else Step(ScanTo(name, es, i - 1, r), es[i - 1], r)
  }

  /** What `hypertext(name)` returns for a page with element stream `es`. */
  function Extract(name: Path, es: seq<Element>, join: Joiner, normpath: Normaliser): (d: Doc)
    ensures forall u :: u in d.links ==> Local(Some(u))
    ensures d.title.None? <==> forall k :: 0 <= k < Cutoff(es) ==> KindOf(es[k].name) != TitleKind
    ensures d.title.Some? ==>
      exists k :: 0 <= k < Cutoff(es) && KindOf(es[k].name) == TitleKind && d.title.value == es[k].text
  {
    var s := ScanTo(name, es, Cutoff(es), Standard(join, normpath));
    ScanTitle(name, es, Cutoff(es), Standard(join, normpath));
    Doc(s.title, s.links, s.inclusions, s.roles)
  }

  /** None of the first `i` elements stops the pass. */
  predicate Unstopped(es: seq<Element>, i: nat)
    requires i <= |es|
  {
    i == 0 || (Unstopped(es, i - 1) && !Stops(es[i - 1]))
  }

  lemma {:induction false} UnstoppedAll(es: seq<Element>, i: nat)
    requires i <= |es| && Unstopped(es, i)
    ensures forall j :: 0 <= j < i ==> !Stops(es[j])
  {
    if i > 0 {
      UnstoppedAll(es, i - 1);
    }
  }

  /** The cut-off is the first stopping element, or the end of the stream. */
  lemma CutoffAt(es: seq<Element>, i: nat)
    requires i <= |es| && Unstopped(es, i)
    requires i == |es| || Stops(es[i])
    ensures Cutoff(es) == i
  {
    UnstoppedAll(es, i);
  }

  /** `hypertext` (tangle.py:94-130). */
  method ReadHypertext(name: Path, elements: seq<Element>, join: Joiner, normpath: Normaliser) returns (doc: Doc)
    ensures doc == Extract(name, elements, join, normpath)
  {
    var s := Start(name);
    var i := 0;
    while i < |elements|
      invariant i <= |elements|
      invariant Unstopped(elements, i)
      invariant s == ScanTo(name, elements, i, Standard(join, normpath))
    {
      var element := elements[i];
      if Stops(element) {
        CutoffAt(elements, i);
        return Doc(s.title, s.links, s.inclusions, s.roles);
      }
      s := Visit(s, element, join, normpath);
      i := i + 1;
    }
    CutoffAt(elements, i);
    doc := Doc(s.title, s.links, s.inclusions, s.roles);
  }

  /** The body of the loop for an element that does not stop it: the `if`/`elif` chain on its name. */
  method Visit(s: Scan, element: Element, join: Joiner, normpath: Normaliser) returns (t: Scan)
    ensures t == Step(s, element, Standard(join, normpath))
  {
    t := s;
    match KindOf(element.name) {
      case TitleKind =>
        t := t.(title := Some(element.text));
      case BaseKind =>
        t := t.(base := Reference(s.base, element.attributes, join));
      case MetaKind =>
      case StyleKind =>
        t := t.(inclusions := t.inclusions + StyleLinks(s.base, element.text, join, normpath));
      case LinkerKind =>
        var uri := Reference(s.base, element.attributes, join);
        if Local(uri) {
          t := t.(links := t.links + {uri.value});
          t := t.(roles := t.roles + RolePairs(uri.value, element.attributes));
        }
      case IncluderKind =>
        var uri := Reference(s.base, element.attributes, join);
        if Local(uri) {
          t := t.(inclusions := t.inclusions + {uri.value});
          t := t.(roles := t.roles + RolePairs(uri.value, element.attributes));
        }
      case OtherKind =>
    }
  }


  /** The reference element `j` makes, resolved against the base in force there. */
  function RefAt(name: Path, es: seq<Element>, j: nat, r: Resolver): Option<string>
    requires j < |es|
  {
    r.reference(ScanTo(name, es, j, r).base, es[j].attributes)
  }

  /** Element `j` is an `a` or `area` whose reference is the local `u`. */
  predicate LinksTo(name: Path, es: seq<Element>, j: nat, r: Resolver, u: Path)
    requires j < |es|
  {
    KindOf(es[j].name) == LinkerKind && RefAt(name, es, j, r) == Some(u) && Local(Some(u))
  }

  /** Element `j` includes `u`: as an includer's local reference, or among a `style` element's CSS links. */
  predicate IncludesAt(name: Path, es: seq<Element>, j: nat, r: Resolver, u: Path)
    requires j < |es|
  {
    || (KindOf(es[j].name) == IncluderKind && RefAt(name, es, j, r) == Some(u) && Local(Some(u)))
    || (KindOf(es[j].name) == StyleKind && u in r.styleLinks(ScanTo(name, es, j, r).base, es[j].text))
  }

  /** Element `j` is a referrer with a local reference whose role pairs hold `(u, role)`. */
  predicate RoleAt(name: Path, es: seq<Element>, j: nat, r: Resolver, u: Path, role: string)
    requires j < |es|
  {
    var uri := RefAt(name, es, j, r);
    IsReferrer(es[j]) && Local(uri) && (u, role) in r.rolePairs(uri.value, es[j].attributes)
  }

  /** Every local reference of an `a` or `area` element seen is a link. */
  lemma {:induction false} LinksComplete(name: Path, es: seq<Element>, i: nat, j: nat, r: Resolver, u: Path)
    requires j < i <= |es|
    requires LinksTo(name, es, j, r, u)
    ensures u in ScanTo(name, es, i, r).links
  {
    if j < i - 1 {
      LinksComplete(name, es, i - 1, j, r, u);
    }
  }

  /** Every link is the local reference of some `a` or `area` element seen. */
  lemma {:induction false} LinksSound(name: Path, es: seq<Element>, i: nat, r: Resolver, u: Path)
    requires i <= |es|
    requires u in ScanTo(name, es, i, r).links
    ensures exists j :: 0 <= j < i && LinksTo(name, es, j, r, u)
  {
    if u in ScanTo(name, es, i - 1, r).links {
      LinksSound(name, es, i - 1, r, u);
    } else {
      assert LinksTo(name, es, i - 1, r, u);
    }
  }

  /** Every includer reference and every `style` link seen is an inclusion. */
  lemma {:induction false} InclusionsComplete(name: Path, es: seq<Element>, i: nat, j: nat, r: Resolver, u: Path)
    requires j < i <= |es|
    requires IncludesAt(name, es, j, r, u)
    ensures u in ScanTo(name, es, i, r).inclusions
  {
    if j < i - 1 {
      InclusionsComplete(name, es, i - 1, j, r, u);
    }
  }

  /** Every inclusion comes from an includer element or a `style` element seen. */
  lemma {:induction false} InclusionsSound(name: Path, es: seq<Element>, i: nat, r: Resolver, u: Path)
    requires i <= |es|
    requires u in ScanTo(name, es, i, r).inclusions
    ensures exists j :: 0 <= j < i && IncludesAt(name, es, j, r, u)
  {
    if u in ScanTo(name, es, i - 1, r).inclusions {
      InclusionsSound(name, es, i - 1, r, u);
    } else {
      assert IncludesAt(name, es, i - 1, r, u);
    }
  }

  /** Every role pair of a referrer with a local reference is recorded. */
  lemma {:induction false} RolesComplete(name: Path, es: seq<Element>, i: nat, j: nat, r: Resolver, u: Path, role: string)
    requires j < i <= |es|
    requires RoleAt(name, es, j, r, u, role)
    ensures (u, role) in ScanTo(name, es, i, r).roles
  {
    if j < i - 1 {
      RolesComplete(name, es, i - 1, j, r, u, role);
    }
  }

  /** Every role pair comes from a referrer element seen. */
  lemma {:induction false} RolesSound(name: Path, es: seq<Element>, i: nat, r: Resolver, u: Path, role: string)
    requires i <= |es|
    requires (u, role) in ScanTo(name, es, i, r).roles
    ensures exists j :: 0 <= j < i && RoleAt(name, es, j, r, u, role)
  {
    if (u, role) in ScanTo(name, es, i - 1, r).roles {
      RolesSound(name, es, i - 1, r, u, role);
    } else {
      assert RoleAt(name, es, i - 1, r, u, role);
    }
  }

  /**
   * When the role helper pairs only the reference it is given, every role
   * pair names a local reference that is also a link or an inclusion.
   */
  lemma {:induction false} RolesReferenced(name: Path, es: seq<Element>, i: nat, r: Resolver)
    requires i <= |es|
    requires forall u, attributes, p :: p in r.rolePairs(u, attributes) ==> p.0 == u
    ensures var s := ScanTo(name, es, i, r);
      forall p :: p in s.roles ==> Local(Some(p.0)) && p.0 in s.links + s.inclusions
  {
    if i > 0 {
      RolesReferenced(name, es, i - 1, r);
    }
  }

  /** The modelled role helper pairs each `rel` token with the reference it is given, and nothing else. */
  lemma StandardRolePairs(join: Joiner, normpath: Normaliser, uri: Path, attributes: Attributes)
    ensures forall p :: p in Standard(join, normpath).rolePairs(uri, attributes) <==>
      p.0 == uri && p.1 in Roles(Lookup(attributes, "rel"))
  {
  }

  /** In the document `hypertext` returns, every role pair names a local link or inclusion. */
  lemma ExtractRolesReferenced(name: Path, es: seq<Element>, join: Joiner, normpath: Normaliser)
    ensures var d := Extract(name, es, join, normpath);
      forall p :: p in d.roles ==> Local(Some(p.0)) && p.0 in d.links + d.inclusions
  {
    forall u, attributes, p | p in Standard(join, normpath).rolePairs(u, attributes)
      ensures p.0 == u
    {
      StandardRolePairs(join, normpath, u, attributes);
    }
    RolesReferenced(name, es, Cutoff(es), Standard(join, normpath));
  }

  /** The title is set iff a `title` element has been seen, and it is the text of one of them. */
  lemma {:induction false} ScanTitle(name: Path, es: seq<Element>, i: nat, r: Resolver)
    requires i <= |es|
    ensures var s := ScanTo(name, es, i, r);
      && (s.title.None? <==> forall k :: 0 <= k < i ==> KindOf(es[k].name) != TitleKind)
      && (s.title.Some? ==> exists k :: 0 <= k < i && KindOf(es[k].name) == TitleKind && s.title.value == es[k].text)
  {
    if i > 0 {
      ScanTitle(name, es, i - 1, r);
    }
  }

  /** The title is the text of the last `title` element seen. */
  lemma {:induction false} TitleIsLast(name: Path, es: seq<Element>, i: nat, j: nat, r: Resolver)
    requires j < i <= |es|
    requires KindOf(es[j].name) == TitleKind
    requires forall k :: j < k < i ==> KindOf(es[k].name) != TitleKind
    ensures ScanTo(name, es, i, r).title == Some(es[j].text)
  {
    if j < i - 1 {
      TitleIsLast(name, es, i - 1, j, r);
    }
  }

  /** The running state after `i` elements depends only on those elements. */
  lemma {:induction false} ScanPrefix(name: Path, es: seq<Element>, tail: seq<Element>, i: nat, r: Resolver)
    requires i <= |es|
    ensures ScanTo(name, es + tail, i, r) == ScanTo(name, es, i, r)
  {
    if i > 0 {
      ScanPrefix(name, es, tail, i - 1, r);
      assert (es + tail)[i - 1] == es[i - 1];
    }
  }

  /** Appending elements after a stopping `meta` leaves the cut-off where it was. */
  lemma {:induction false} CutoffPrefix(es: seq<Element>, tail: seq<Element>)
    requires Cutoff(es) < |es|
    ensures Cutoff(es + tail) == Cutoff(es)
  {
    if !Stops(es[0]) {
      assert (es + tail)[1..] == es[1..] + tail;
      CutoffPrefix(es[1..], tail);
    }
  }

  /** Once a stopping `meta` has been seen, whatever follows contributes nothing. */
  lemma {:induction false} CutoffIgnoresRest(name: Path, es: seq<Element>, tail: seq<Element>, join: Joiner, normpath: Normaliser)
    requires Cutoff(es) < |es|
    ensures Extract(name, es + tail, join, normpath) == Extract(name, es, join, normpath)
  {
    var c, r := Cutoff(es), Standard(join, normpath);
    CutoffPrefix(es, tail);
    ScanPrefix(name, es, tail, c, r);
    var s := ScanTo(name, es, c, r);
    assert Extract(name, es, join, normpath) == Doc(s.title, s.links, s.inclusions, s.roles);
  }

  /**
   * A `base` element with neither `href` nor `src` clears the running base,
   * so the references that follow are taken as written, unjoined.
   */
  lemma BaseCleared(s: Scan, e: Element, join: Joiner, normpath: Normaliser)
    requires KindOf(e.name) == BaseKind
    requires !Truthy(Lookup(e.attributes, "href")) && !Truthy(Lookup(e.attributes, "src"))
    ensures Step(s, e, Standard(join, normpath)).base == None
    ensures forall attributes, other: Joiner ::
      Reference(Step(s, e, Standard(join, normpath)).base, attributes, join) == Reference(None, attributes, other)
  {
    forall attributes, other: Joiner {
      ReferenceWithoutBase(None, attributes, join, other);
    }
  }
}
