/**
 * The metadata store and the two-pass builder of tangle.py (lines 9-74):
 * a map from path to a map from key to value, filled by `store` and
 * `append`. Reading files is not modelled: what each reader returned for a
 * file is given as a `Doc`.
 */
module Graph {
  import opened Wrappers
  import opened References
  import opened Hypertext

  /** The keys tangle.py writes; `Has` and `Is` carry a `rel` token. */
  datatype Key = Exists | TitleKey | Linked | Included | Inbound | Has(role: string) | Is(role: string)

  /** The key as the source spells it: `'has %s' % role` and `'is %s' % role` for the role keys. */
  function KeyName(k: Key): string {
    match k
    case Exists => "exists"
    case TitleKey => "title"
    case Linked => "linked"
    case Included => "included"
    case Inbound => "inbound"
    case Has(role) => "has " + role
    case Is(role) => "is " + role
  }

  /** Different keys have different names, so the datatype loses nothing. */
  lemma KeyNameInjective(a: Key, b: Key)
    requires KeyName(a) == KeyName(b)
    ensures a == b
  {
    var s := KeyName(a);
    if a.Has? || a.Is? {
      var n := if a.Has? then 4 else 3;
      assert s[..n] == (if a.Has? then "has " else "is ");
      assert a.role == s[n..];
    }
    if b.Has? || b.Is? {
      var n := if b.Has? then 4 else 3;
      assert s[..n] == (if b.Has? then "has " else "is ");
      assert b.role == s[n..];
    }
    assert s[0] == KeyName(b)[0] && s[1] == KeyName(b)[1];
  }

  /** The values tangle.py stores: `True`, a title (possibly None) and the `inbound` list. */
  datatype Value = Yes | Title(title: Option<string>) | Names(names: seq<Path>)

  type Entry = map<Key, Value>
  type Store = map<Path, Entry>

  /** `metadata[name].get(key)`, with a missing entry read as a missing key. */
  function Get(m: Store, name: Path, key: Key): Option<Value> {
    if name in m && key in m[name] then Some(m[name][key]) else None
  }

  /** `metadata.setdefault(name, {})`. */
  function EntryOf(m: Store, name: Path): Entry {
    if name in m then m[name] else map[]
  }

  /** The list under `key`, or the empty list `setdefault(key, [])` would create. */
  function NamesAt(m: Store, name: Path, key: Key): seq<Path> {
    ListOf(Get(m, name, key))
  }

  /** The list an `inbound` value holds, or the empty list `setdefault` would start from. */
  function ListOf(v: Option<Value>): seq<Path> {
    match v
    case Some(Names(l)) => l
    case _ => []
  }

  /** Every `inbound` value is a list, so `append` can extend it. */
  ghost predicate Lists(m: Store) {
    forall n :: Get(m, n, Inbound).Some? ==> Get(m, n, Inbound).value.Names?
  }

  /** `store` (tangle.py:14-16): sets one key of one entry, creating the entry if need be. */
  function Stored(m: Store, name: Path, key: Key, value: Value): (r: Store)
    ensures forall n :: n in r <==> n in m || n == name
    ensures forall n, k :: Get(r, n, k) == if n == name && k == key then Some(value) else Get(m, n, k)
  {
    m[name := EntryOf(m, name)[key := value]]
  }

  /** `append` (tangle.py:18-21): extends one list at its end, starting from the empty list. */
  function Appended(m: Store, name: Path, key: Key, value: Path): (r: Store)
    ensures forall n :: n in r <==> n in m || n == name
    ensures forall n, k :: Get(r, n, k) ==
                          if n == name && k == key then Some(Names(NamesAt(m, name, key) + [value])) else Get(m, n, k)
  {
    m[name := EntryOf(m, name)[key := Names(NamesAt(m, name, key) + [value])]]
  }

  /** The targets of a set of role pairs. */
  function Objects(roles: set<(Path, string)>): set<Path> {
    set p | p in roles :: p.0
  }

  /** The tokens of a set of role pairs. */
  function RoleNames(roles: set<(Path, string)>): set<string> {
    set p | p in roles :: p.1
  }

  /** An entry with every key of `keys` set to `True` and the others kept. */
  function Marked(entry: Entry, keys: set<Key>): (r: Entry)
    ensures forall k :: k in r <==> k in entry || k in keys
    ensures forall k :: k in r ==> r[k] == if k in keys then Yes else entry[k]
  {
    map k | k in entry.Keys + keys :: if k in keys then Yes else entry[k]
  }

  /** The `has` keys of a set of tokens. */
  function HasKeys(tokens: set<string>): set<Key> {
    set t | t in tokens :: Has(t)
  }

  /** The `is` keys the pairs put on `n`. */
  function IsKeys(n: Path, roles: set<(Path, string)>): set<Key> {
    set p | p in roles && p.0 == n :: Is(p.1)
  }

  /** What `metadata[n].get(k)` reads after the role loop of `name` over `roles`. */
  function RoleMark(m: Store, name: Path, roles: set<(Path, string)>, n: Path, k: Key): Option<Value> {
    match k
    case Has(role) => if n == name && role in RoleNames(roles) then Some(Yes) else Get(m, n, k)
    case Is(role) => if (n, role) in roles then Some(Yes) else Get(m, n, k)
    case _ => Get(m, n, k)
  }

  /** The store after `store(name, 'has ' + t, True)` for every token `t`. */
  function HasStored(m: Store, name: Path, tokens: set<string>): (r: Store)
    requires name in m
    ensures r.Keys == m.Keys
    ensures forall n, k :: Get(r, n, k) ==
                          if n == name && k.Has? && k.role in tokens then Some(Yes) else Get(m, n, k)
  {
    m[name := Marked(m[name], HasKeys(tokens))]
  }

  /** The store after `store(obj, 'is ' + role, True)` for every pair. */
  function IsStored(m: Store, roles: set<(Path, string)>): (r: Store)
    ensures forall n :: n in r <==> n in m || n in Objects(roles)
    ensures forall n, k :: Get(r, n, k) ==
                          if k.Is? && (n, k.role) in roles then Some(Yes) else Get(m, n, k)
  {
    map n | n in m.Keys + Objects(roles) :: Marked(EntryOf(m, n), IsKeys(n, roles))
  }

  /**
   * The store after `store(name, 'has ' + role, True)` and
   * `store(obj, 'is ' + role, True)` for every pair, in any order
   * (tangle.py:36-41); `name`'s entry exists already, since
   * tangle.py:29 stores `exists` first.
   */
  function RolesStored(m: Store, name: Path, roles: set<(Path, string)>): (r: Store)
    requires name in m
    ensures forall n :: n in r <==> n in m || n in Objects(roles)
    ensures forall n, k :: Get(r, n, k) == RoleMark(m, name, roles, n, k)
  {
    IsStored(HasStored(m, name, RoleNames(roles)), roles)
  }

  /** What `metadata[n].get(k)` reads after one edge loop of `source` over `targets`. */
  function EdgeMark(m: Store, source: Path, targets: set<Path>, key: Key, n: Path, k: Key): Option<Value> {
    if n !in targets then Get(m, n, k)
    else if k == key then Some(Yes)
    else if k == Inbound then Some(Names(NamesAt(m, n, Inbound) + [source]))
    else Get(m, n, k)
  }

  function EdgesStored(m: Store, source: Path, targets: set<Path>, key: Key): (r: Store)
    requires key != Inbound
    ensures forall n :: n in r <==> n in m || n in targets
    ensures forall n, k :: Get(r, n, k) == EdgeMark(m, source, targets, key, n, k)
  {
    map n | n in m.Keys + targets ::
      if n in targets then EntryOf(m, n)[key := Yes][Inbound := Names(NamesAt(m, n, Inbound) + [source])]
      else m[n]
  }

  /** Two stores that agree on their entries and on every key are the same store. */
  lemma SameStore(a: Store, b: Store)
    requires forall n :: n in a <==> n in b
    requires forall n, k :: Get(a, n, k) == Get(b, n, k)
    ensures a == b
  {
    forall n | n in a
      ensures a[n] == b[n]
    {
      forall k | k in a[n]
        ensures k in b[n] && a[n][k] == b[n][k]
      {
        assert Get(a, n, k) == Get(b, n, k);
      }
      forall k | k in b[n]
        ensures k in a[n]
      {
        assert Get(a, n, k) == Get(b, n, k);
      }
    }
  }

  /** One pass of the role loop: the two stores of one pair extend the marks to that pair. */
  lemma RoleStep(start: Store, before: Store, name: Path, done: set<(Path, string)>, p: (Path, string))
    requires forall n, k :: Get(before, n, k) == RoleMark(start, name, done, n, k)
    ensures forall n, k :: Get(Stored(Stored(before, name, Has(p.1), Yes), p.0, Is(p.1), Yes), n, k)
                          == RoleMark(start, name, done + {p}, n, k)
  {
    var after := Stored(Stored(before, name, Has(p.1), Yes), p.0, Is(p.1), Yes);
    forall n, k
      ensures Get(after, n, k) == RoleMark(start, name, done + {p}, n, k)
    {
      assert Get(before, n, k) == RoleMark(start, name, done, n, k);
      if k.Has? {
        assert k.role in RoleNames(done + {p}) <==> k.role in RoleNames(done) || k.role == p.1;
      }
    }
  }

  /** One pass of an edge loop: marking one more target and appending the source to its list. */
  lemma EdgeStep(start: Store, before: Store, source: Path, done: set<Path>, key: Key, target: Path)
    requires key != Inbound && target !in done
    requires Lists(before)
    requires forall n, k :: Get(before, n, k) == EdgeMark(start, source, done, key, n, k)
    ensures Lists(Stored(before, target, key, Yes))
    ensures Get(Stored(before, target, key, Yes), target, Inbound) == Get(before, target, Inbound)
    ensures forall n, k :: Get(Appended(Stored(before, target, key, Yes), target, Inbound, source), n, k)
                          == EdgeMark(start, source, done + {target}, key, n, k)
  {
    var mid := Stored(before, target, key, Yes);
    var after := Appended(mid, target, Inbound, source);
    assert Get(before, target, Inbound) == Get(start, target, Inbound);
    forall n, k
      ensures Get(after, n, k) == EdgeMark(start, source, done + {target}, key, n, k)
    {
      assert Get(before, n, k) == EdgeMark(start, source, done, key, n, k);
    }
  }

  /** The global `metadata` dictionary of tangle.py. */
  class Metadata {
    var entries: Store

    constructor()
      ensures entries == map[]
    {
      entries := map[];
    }

    /** `store` (tangle.py:14-16). */
    method Put(name: Path, key: Key, value: Value)
      modifies this
      ensures entries == Stored(old(entries), name, key, value)
    {
      var entry := if name in entries then entries[name] else map[];
      entries := entries[name := entry[key := value]];
    }

    /** `append` (tangle.py:18-21); the value already under `key`, if any, must be a list. */
    method Append(name: Path, key: Key, value: Path)
      modifies this
      requires Get(entries, name, key).None? || Get(entries, name, key).value.Names?
      ensures entries == Appended(old(entries), name, key, value)
    {
      var entry := if name in entries then entries[name] else map[];
      var list := if key in entry then entry[key].names else [];
      entries := entries[name := entry[key := Names(list + [value])]];
    }

    /** The role loop of tangle.py:36-41, over the pairs in whatever order the set yields them. */
    method PutRoles(name: Path, roles: set<(Path, string)>)
      modifies this
      requires name in entries
      ensures entries == RolesStored(old(entries), name, roles)
    {
      ghost var start := entries;
      var rest := roles;
      while rest != {}
        invariant rest <= roles
        invariant forall n :: n in entries <==> n in start || n in Objects(roles - rest)
        invariant forall n, k :: Get(entries, n, k) == RoleMark(start, name, roles - rest, n, k)
        decreases rest
      {
        var p :| p in rest;
        RoleStep(start, entries, name, roles - rest, p);
        Put(name, Has(p.1), Yes);
        Put(p.0, Is(p.1), Yes);
        rest := rest - {p};
      }
      assert roles - rest == roles;
      SameStore(entries, RolesStored(start, name, roles));
    }

    /** One edge loop of tangle.py:53-57 or 66-74: mark each target and append the source to its `inbound`. */
    method PutEdges(source: Path, targets: set<Path>, key: Key)
      modifies this
      requires key != Inbound
      requires Lists(entries)
      ensures Lists(entries)
      ensures entries == EdgesStored(old(entries), source, targets, key)
    {
      ghost var start := entries;
      var rest := targets;
      while rest != {}
        invariant rest <= targets
        invariant Lists(entries)
        invariant forall n :: n in entries <==> n in start || n in targets - rest
        invariant forall n, k :: Get(entries, n, k) == EdgeMark(start, source, targets - rest, key, n, k)
        decreases rest
      {
        var target :| target in rest;
        EdgeStep(start, entries, source, targets - rest, key, target);
        Put(target, key, Yes);
        Append(target, Inbound, source);
        rest := rest - {target};
      }
      assert targets - rest == targets;
      SameStore(entries, EdgesStored(start, source, targets, key));
    }
  }

  /** `name.split('.')[-1]`: the text after the last dot, or the whole name when it has none. */
  function Ext(name: Path): string {
    var pieces := Split(name, '.');
    pieces[|pieces| - 1]
  }

  /** The extension holds no dot, and it is the whole name or what follows one of its dots. */
  lemma ExtAfterLastDot(name: Path)
    ensures '.' !in Ext(name)
    ensures Ext(name) == name || exists i :: 0 <= i < |name| && name[i] == '.' && Ext(name) == name[i + 1..]
  {
    LastPiece(Split(name, '.'));
  }

  /** The last piece of a split is the whole text or the text after one of its separators. */
  lemma {:induction false} LastPiece(pieces: seq<string>)
    requires |pieces| >= 1
    ensures var s := Join(pieces, '.');
            pieces[|pieces| - 1] == s ||
            exists i :: 0 <= i < |s| && s[i] == '.' && pieces[|pieces| - 1] == s[i + 1..]
  {
    if |pieces| > 1 {
      var s := Join(pieces, '.');
      var rest := Join(pieces[1..], '.');
      var last := pieces[|pieces| - 1];
      LastPiece(pieces[1..]);
      assert pieces[1..][|pieces[1..]| - 1] == last;
      var offset := |pieces[0]| + 1;
      assert s == pieces[0] + ['.'] + rest;
      if last == rest {
        assert s[offset - 1] == '.' && last == s[offset..];
      } else {
        var i :| 0 <= i < |rest| && rest[i] == '.' && last == rest[i + 1..];
        assert s[offset + i] == '.' && last == s[offset + i + 1..];
      }
    }
  }

  /** Which branch of tangle.py:31-57 a name takes. */
  datatype FileKind = Page | Text | Picture | Sheet | Unread

  /** The extensions tangle.py:31-50 tests for, in the order it tests them. */
  const Readers: seq<(string, FileKind)> := [("html", Page), ("txt", Text), ("png", Picture), ("jpg", Picture), ("css", Sheet)]

  /** The kind the first entry of `table` for `e` gives, or `Unread` when there is none. */
  function KindIn(table: seq<(string, FileKind)>, e: string): FileKind {
    if table == [] then Unread
    else if table[0].0 == e then table[0].1
    else KindIn(table[1..], e)
  }

  /** The branch of tangle.py:31-57 a name takes, by its extension. */
  function FileKindOf(name: Path): FileKind {
    KindIn(Readers, Ext(name))
  }

  /**
   * The branches of tangle.py:31-57: `html` pages, `txt` text, `png` and
   * `jpg` pictures, `css` style sheets, and no reader for anything else.
   */
  lemma FileKinds(name: Path)
    ensures FileKindOf(name) == Page <==> Ext(name) == "html"
    ensures FileKindOf(name) == Text <==> Ext(name) == "txt"
    ensures FileKindOf(name) == Picture <==> Ext(name) == "png" || Ext(name) == "jpg"
    ensures FileKindOf(name) == Sheet <==> Ext(name) == "css"
    ensures FileKindOf(name) == Unread <==> Ext(name) !in {"html", "txt", "png", "jpg", "css"}
  {
    var e := Ext(name);
    var t1: seq<(string, FileKind)> := [("txt", Text), ("png", Picture), ("jpg", Picture), ("css", Sheet)];
    var t2: seq<(string, FileKind)> := [("png", Picture), ("jpg", Picture), ("css", Sheet)];
    var t3: seq<(string, FileKind)> := [("jpg", Picture), ("css", Sheet)];
    var t4: seq<(string, FileKind)> := [("css", Sheet)];
    assert Readers[1..] == t1 && t1[1..] == t2 && t2[1..] == t3 && t3[1..] == t4 && t4[1..] == [];
    assert KindIn(t4, e) == if e == "css" then Sheet else Unread;
    assert KindIn(t3, e) == if e == "jpg" then Picture else KindIn(t4, e);
    assert KindIn(t2, e) == if e == "png" then Picture else KindIn(t3, e);
    assert KindIn(t1, e) == if e == "txt" then Text else KindIn(t2, e);
    assert KindIn(Readers, e) == if e == "html" then Page else KindIn(t1, e);
  }

  /** Every name a reader is applied to has been read. */
  predicate Parsed(existing: seq<Path>, parsed: map<Path, Doc>) {
    forall i :: 0 <= i < |existing| ==> FileKindOf(existing[i]) != Unread ==> existing[i] in parsed
  }

  /** The kinds of file whose reader's title is stored. */
  predicate Titled(kind: FileKind) {
    kind == Page || kind == Text || kind == Picture
  }

  /**
   * What `metadata[n].get(k)` reads after the first loop's body for `x`
   * (tangle.py:28-57), when it read `prev` before.
   */
  function Visit1Mark(prev: Option<Value>, x: Path, parsed: map<Path, Doc>, n: Path, k: Key): Option<Value>
    requires FileKindOf(x) != Unread ==> x in parsed
  {
    var kind := FileKindOf(x);
    match k
    case Exists => if n == x then Some(Yes) else prev
    case TitleKey => if n == x && Titled(kind) then Some(Title(parsed[x].title)) else prev
    case Has(role) => if n == x && kind == Page && role in RoleNames(parsed[x].roles) then Some(Yes) else prev
    case Is(role) => if kind == Page && (n, role) in parsed[x].roles then Some(Yes) else prev
    case Included => if kind == Sheet && n in parsed[x].inclusions then Some(Yes) else prev
    case Inbound => if kind == Sheet && n in parsed[x].inclusions then Some(Names(ListOf(prev) + [x])) else prev
    case Linked => prev
  }

  /** Whether `n` has an entry after the first loop's body for `x`, when `had` said so before. */
  predicate Visit1Has(had: bool, x: Path, parsed: map<Path, Doc>, n: Path)
    requires FileKindOf(x) != Unread ==> x in parsed
  {
    var kind := FileKindOf(x);
    had || n == x || (kind == Page && n in Objects(parsed[x].roles)) || (kind == Sheet && n in parsed[x].inclusions)
  }

  /** What `metadata[n].get(k)` reads after the first loop has visited `existing[..i]`. */
  function Pass1Get(existing: seq<Path>, parsed: map<Path, Doc>, i: nat, n: Path, k: Key): Option<Value>
    requires i <= |existing| && Parsed(existing, parsed)
  {
    if i == 0 then None
    else Visit1Mark(Pass1Get(existing, parsed, i - 1, n, k), existing[i - 1], parsed, n, k)
  }

  /** Whether `n` has an entry after the first loop has visited `existing[..i]`. */
  predicate In1(existing: seq<Path>, parsed: map<Path, Doc>, i: nat, n: Path)
    requires i <= |existing| && Parsed(existing, parsed)
  {
    i > 0 && Visit1Has(In1(existing, parsed, i - 1, n), existing[i - 1], parsed, n)
  }

  /** A page the second loop does not skip: `is archived` is absent from its entry. */
  predicate Unskipped(x: Path, archived: Option<Value>) {
    FileKindOf(x) == Page && archived.None?
  }

  /**
   * What `metadata[n].get(k)` reads after the second loop's body for `x`
   * (tangle.py:59-74), when it read `prev` before and `x`'s entry held
   * `archived` under `is archived`.
   */
  function Visit2Mark(prev: Option<Value>, x: Path, archived: Option<Value>, parsed: map<Path, Doc>, n: Path, k: Key): Option<Value>
    requires FileKindOf(x) != Unread ==> x in parsed
  {
    if Unskipped(x, archived) then PageEdges(prev, x, parsed[x], n, k) else prev
  }

  /** The edges of `x` in the second pass: each link, then each inclusion, marked and given `x` as a source. */
  function PageEdges(prev: Option<Value>, x: Path, doc: Doc, n: Path, k: Key): Option<Value> {
    match k
    case Linked => if n in doc.links then Some(Yes) else prev
    case Included => if n in doc.inclusions then Some(Yes) else prev
    case Inbound =>
      var added := (if n in doc.links then [x] else []) + (if n in doc.inclusions then [x] else []);
      if added == [] then prev else Some(Names(ListOf(prev) + added))
    case _ => prev
  }

  /** The link loop then the inclusion loop of tangle.py:66-74 make what `PageEdges` says. */
  lemma TwoEdgeLoops(m0: Store, m1: Store, m2: Store, x: Path, doc: Doc, n: Path, k: Key)
    requires Get(m1, n, k) == EdgeMark(m0, x, doc.links, Linked, n, k)
    requires Get(m1, n, Inbound) == EdgeMark(m0, x, doc.links, Linked, n, Inbound)
    requires Get(m2, n, k) == EdgeMark(m1, x, doc.inclusions, Included, n, k)
    ensures Get(m2, n, k) == PageEdges(Get(m0, n, k), x, doc, n, k)
  {
    if k == Inbound {
      var before := ListOf(Get(m0, n, k));
      if n in doc.links && n in doc.inclusions {
        assert before + [x] + [x] == before + ([x] + [x]);
      } else if n in doc.links {
        assert [x] + [] == [x];
      } else if n in doc.inclusions {
        assert [] + [x] == [x];
      }
    }
  }

  /** Appending a page's edges to a listed value lists the longer list. */
  lemma PageEdgesListed(l: seq<Path>, x: Path, doc: Doc, t: Path)
    ensures PageEdges(Listed(l), x, doc, t, Inbound) ==
            Listed(l + ((if t in doc.links then [x] else []) + (if t in doc.inclusions then [x] else [])))
  {
    var added := (if t in doc.links then [x] else []) + (if t in doc.inclusions then [x] else []);
    if added == [] {
      assert l + added == l;
    }
  }

  /** Whether `n` has an entry after the second loop's body for `x`. */
  predicate Visit2Has(had: bool, x: Path, archived: Option<Value>, parsed: map<Path, Doc>, n: Path)
    requires FileKindOf(x) != Unread ==> x in parsed
  {
    had || (Unskipped(x, archived) && (n in parsed[x].links || n in parsed[x].inclusions))
  }

  /** Some page found on disk gives `x` the role `archived`. */
  predicate Archived(existing: seq<Path>, parsed: map<Path, Doc>, x: Path)
    requires Parsed(existing, parsed)
  {
    exists h :: 0 <= h < |existing| && Carries(existing, parsed, h, x, "archived")
  }

  /** The `j`th name is a page the second loop does not skip. */
  predicate Active(existing: seq<Path>, parsed: map<Path, Doc>, j: nat)
    requires j < |existing| && Parsed(existing, parsed)
  {
    FileKindOf(existing[j]) == Page && !Archived(existing, parsed, existing[j])
  }

  /**
   * What `metadata[n].get(k)` reads after the second loop has visited
   * `existing[..i]`, when it read `start` after the first loop: the edges
   * of every page visited that is not archived.
   */
  function Edges2(existing: seq<Path>, parsed: map<Path, Doc>, i: nat, start: Option<Value>, n: Path, k: Key): Option<Value>
    requires i <= |existing| && Parsed(existing, parsed)
  {
    if i == 0 then start
    else if Active(existing, parsed, i - 1) then
      PageEdges(Edges2(existing, parsed, i - 1, start, n, k), existing[i - 1], parsed[existing[i - 1]], n, k)
    else Edges2(existing, parsed, i - 1, start, n, k)
  }

  /** What `metadata[n].get(k)` reads after the second loop has visited `existing[..i]`. */
  function Pass2Get(existing: seq<Path>, parsed: map<Path, Doc>, i: nat, n: Path, k: Key): Option<Value>
    requires i <= |existing| && Parsed(existing, parsed)
  {
    Edges2(existing, parsed, i, Pass1Get(existing, parsed, |existing|, n, k), n, k)
  }

  /** Whether `n` has an entry after the second loop has visited `existing[..i]`. */
  predicate In2(existing: seq<Path>, parsed: map<Path, Doc>, i: nat, n: Path)
    requires i <= |existing| && Parsed(existing, parsed)
  {
    if i == 0 then In1(existing, parsed, |existing|, n)
    else
      In2(existing, parsed, i - 1, n) ||
      (Active(existing, parsed, i - 1) && (n in parsed[existing[i - 1]].links || n in parsed[existing[i - 1]].inclusions))
  }

  /** What `metadata[n].get(k)` reads once `tangle` has finished. */
  function TangledGet(existing: seq<Path>, parsed: map<Path, Doc>, n: Path, k: Key): Option<Value>
    requires Parsed(existing, parsed)
  {
    Pass2Get(existing, parsed, |existing|, n, k)
  }

  /** `store` of any key but `inbound` keeps every `inbound` value a list. */
  lemma ListsStored(m: Store, name: Path, key: Key, value: Value)
    requires Lists(m) && key != Inbound
    ensures Lists(Stored(m, name, key, value))
  {
    var r := Stored(m, name, key, value);
    forall n | Get(r, n, Inbound).Some?
      ensures Get(r, n, Inbound).value.Names?
    {
      assert Get(r, n, Inbound) == Get(m, n, Inbound);
    }
  }

  /** The role loop keeps every `inbound` value a list. */
  lemma ListsRolesStored(m: Store, name: Path, roles: set<(Path, string)>)
    requires Lists(m) && name in m
    ensures Lists(RolesStored(m, name, roles))
  {
    var r := RolesStored(m, name, roles);
    forall n | Get(r, n, Inbound).Some?
      ensures Get(r, n, Inbound).value.Names?
    {
      assert Get(r, n, Inbound) == Get(m, n, Inbound);
    }
  }

  /** The text and image branches of the first loop's body: only the title is stored after `exists`. */
  method TitleOnly(store: Metadata, name: Path, parsed: map<Path, Doc>, ghost m0: Store)
    modifies store
    requires Titled(FileKindOf(name)) && FileKindOf(name) != Page && name in parsed
    requires Lists(store.entries)
    requires store.entries == Stored(m0, name, Exists, Yes)
    ensures Lists(store.entries)
    ensures forall n :: n in store.entries <==> Visit1Has(n in m0, name, parsed, n)
    ensures forall n, k :: Get(store.entries, n, k) == Visit1Mark(Get(m0, n, k), name, parsed, n, k)
  {
    ghost var m1 := store.entries;
    ListsStored(store.entries, name, TitleKey, Title(parsed[name].title));
    store.Put(name, TitleKey, Title(parsed[name].title));
    forall n, k
      ensures Get(store.entries, n, k) == Visit1Mark(Get(m0, n, k), name, parsed, n, k)
    {
      assert Get(store.entries, n, k) == if n == name && k == TitleKey then Some(Title(parsed[name].title)) else Get(m1, n, k);
      assert Get(m1, n, k) == if n == name && k == Exists then Some(Yes) else Get(m0, n, k);
    }
  }

  /** The html branch of the first loop's body: the title, then the role pairs (tangle.py:33-43). */
  method PageFirst(store: Metadata, name: Path, parsed: map<Path, Doc>, ghost m0: Store)
    modifies store
    requires FileKindOf(name) == Page && name in parsed
    requires Lists(store.entries)
    requires store.entries == Stored(m0, name, Exists, Yes)
    ensures Lists(store.entries)
    ensures forall n :: n in store.entries <==> Visit1Has(n in m0, name, parsed, n)
    ensures forall n, k :: Get(store.entries, n, k) == Visit1Mark(Get(m0, n, k), name, parsed, n, k)
  {
    ghost var m1 := store.entries;
    var doc := parsed[name];
    ListsStored(store.entries, name, TitleKey, Title(doc.title));
    store.Put(name, TitleKey, Title(doc.title));
    ghost var m2 := store.entries;
    ListsRolesStored(store.entries, name, doc.roles);
    store.PutRoles(name, doc.roles);
    forall n, k
      ensures Get(store.entries, n, k) == Visit1Mark(Get(m0, n, k), name, parsed, n, k)
    {
      PageMarks(m0, m1, m2, store.entries, name, parsed, n, k);
    }
  }

  /** The three stores of the html branch, read at one name and key, compose to the first loop's mark. */
  lemma PageMarks(m0: Store, m1: Store, m2: Store, m3: Store, name: Path, parsed: map<Path, Doc>, n: Path, k: Key)
    requires FileKindOf(name) == Page && name in parsed
    requires Get(m1, n, k) == if n == name && k == Exists then Some(Yes) else Get(m0, n, k)
    requires Get(m2, n, k) == if n == name && k == TitleKey then Some(Title(parsed[name].title)) else Get(m1, n, k)
    requires Get(m3, n, k) == RoleMark(m2, name, parsed[name].roles, n, k)
    ensures Get(m3, n, k) == Visit1Mark(Get(m0, n, k), name, parsed, n, k)
  {
  }

  /** The css branch of the first loop's body: the sheet's inclusions are recorded at once (tangle.py:52-57). */
  method SheetFirst(store: Metadata, name: Path, parsed: map<Path, Doc>, ghost m0: Store)
    modifies store
    requires FileKindOf(name) == Sheet && name in parsed
    requires Lists(store.entries)
    requires store.entries == Stored(m0, name, Exists, Yes)
    ensures Lists(store.entries)
    ensures forall n :: n in store.entries <==> Visit1Has(n in m0, name, parsed, n)
    ensures forall n, k :: Get(store.entries, n, k) == Visit1Mark(Get(m0, n, k), name, parsed, n, k)
  {
    ghost var m1 := store.entries;
    var doc := parsed[name];
    store.PutEdges(name, doc.inclusions, Included);
    forall n, k
      ensures Get(store.entries, n, k) == Visit1Mark(Get(m0, n, k), name, parsed, n, k)
    {
      assert Get(store.entries, n, k) == EdgeMark(m1, name, doc.inclusions, Included, n, k);
      if n in doc.inclusions && k == Inbound {
        assert Get(m1, n, k) == Get(m0, n, k);
      } else if !(n in doc.inclusions && k == Included) {
        assert Get(m1, n, k) == if n == name && k == Exists then Some(Yes) else Get(m0, n, k);
      }
    }
  }

  /** The first loop's body (tangle.py:28-57), applied to the metadata object. */
  method VisitFirst(store: Metadata, name: Path, parsed: map<Path, Doc>)
    modifies store
    requires FileKindOf(name) != Unread ==> name in parsed
    requires Lists(store.entries)
    ensures Lists(store.entries)
    ensures forall n :: n in store.entries <==> Visit1Has(n in old(store.entries), name, parsed, n)
    ensures forall n, k :: Get(store.entries, n, k) == Visit1Mark(Get(old(store.entries), n, k), name, parsed, n, k)
  {
    ghost var m0 := store.entries;
    ListsStored(store.entries, name, Exists, Yes);
    store.Put(name, Exists, Yes);
    var kind := FileKindOf(name);
    match kind {
      case Page =>
        PageFirst(store, name, parsed, m0);
      case Text =>
        TitleOnly(store, name, parsed, m0);
      case Picture =>
        TitleOnly(store, name, parsed, m0);
      case Sheet =>
        SheetFirst(store, name, parsed, m0);
      case Unread =>
    }
  }

  /** The second loop's body (tangle.py:59-74), applied to the metadata object. */
  method VisitSecond(store: Metadata, name: Path, parsed: map<Path, Doc>)
    modifies store
    requires FileKindOf(name) != Unread ==> name in parsed
    requires Lists(store.entries)
    ensures Lists(store.entries)
    ensures forall n :: n in store.entries <==> Visit2Has(n in old(store.entries), name, Get(old(store.entries), name, Is("archived")), parsed, n)
    ensures forall n, k :: Get(store.entries, n, k) ==
                          Visit2Mark(Get(old(store.entries), n, k), name, Get(old(store.entries), name, Is("archived")), parsed, n, k)
  {
    ghost var m0 := store.entries;
    var archived := Get(store.entries, name, Is("archived"));
    if FileKindOf(name) == Page && archived.None? {
      var doc := parsed[name];
      store.PutEdges(name, doc.links, Linked);
      ghost var m1 := store.entries;
      store.PutEdges(name, doc.inclusions, Included);
      forall n, k
        ensures Get(store.entries, n, k) == Visit2Mark(Get(m0, n, k), name, archived, parsed, n, k)
      {
        TwoEdgeLoops(m0, m1, store.entries, name, doc, n, k);
      }
    }
  }

  /** The first loop of `tangle` (tangle.py:28-57). */
  method FirstPass(store: Metadata, existing: seq<Path>, parsed: map<Path, Doc>)
    modifies store
    requires Parsed(existing, parsed)
    requires store.entries == map[]
    ensures Lists(store.entries)
    ensures forall n :: n in store.entries <==> In1(existing, parsed, |existing|, n)
    ensures forall n, k :: Get(store.entries, n, k) == Pass1Get(existing, parsed, |existing|, n, k)
  {
    for i := 0 to |existing|
      invariant forall n :: n in store.entries <==> In1(existing, parsed, i, n)
      invariant forall n, k :: Get(store.entries, n, k) == Pass1Get(existing, parsed, i, n, k)
      invariant Lists(store.entries)
    {
      VisitFirst(store, existing[i], parsed);
    }
  }

  /** The second loop of `tangle` (tangle.py:59-74). */
  method SecondPass(store: Metadata, existing: seq<Path>, parsed: map<Path, Doc>)
    modifies store
    requires Parsed(existing, parsed)
    requires Lists(store.entries)
    requires forall n :: n in store.entries <==> In1(existing, parsed, |existing|, n)
    requires forall n, k :: Get(store.entries, n, k) == Pass1Get(existing, parsed, |existing|, n, k)
    ensures forall n :: n in store.entries <==> In2(existing, parsed, |existing|, n)
    ensures forall n, k :: Get(store.entries, n, k) == TangledGet(existing, parsed, n, k)
  {
    for i := 0 to |existing|
      invariant forall n :: n in store.entries <==> In2(existing, parsed, i, n)
      invariant forall n, k :: Get(store.entries, n, k) == Pass2Get(existing, parsed, i, n, k)
      invariant Lists(store.entries)
    {
      ArchivedRead(existing, parsed, i, existing[i]);
      VisitSecond(store, existing[i], parsed);
    }
  }

  /**
   * `tangle` (tangle.py:23-74) over the names found and what the readers
   * returned for them: two passes of `store` and `append` on one metadata
   * object. The two ensures fix every entry and every key of the result.
   */
  method Tangle(existing: seq<Path>, parsed: map<Path, Doc>) returns (metadata: Store)
    requires Parsed(existing, parsed)
    ensures forall n :: n in metadata <==> In2(existing, parsed, |existing|, n)
    ensures forall n, k :: Get(metadata, n, k) == TangledGet(existing, parsed, n, k)
  {
    var store := new Metadata();
    FirstPass(store, existing, parsed);
    SecondPass(store, existing, parsed);
    metadata := store.entries;
  }

  // Properties of the metadata `tangle` builds.

  /** The keys the second pass writes. */
  predicate EdgeKey(k: Key) {
    k == Linked || k == Included || k == Inbound
  }

  /** The second pass writes only `linked`, `included` and `inbound`. */
  lemma {:induction false} Pass2Keeps(existing: seq<Path>, parsed: map<Path, Doc>, i: nat, start: Option<Value>, n: Path, k: Key)
    requires i <= |existing| && Parsed(existing, parsed)
    requires !EdgeKey(k)
    ensures Edges2(existing, parsed, i, start, n, k) == start
  {
    if i > 0 {
      Pass2Keeps(existing, parsed, i - 1, start, n, k);
    }
  }

  /** The first pass marks exactly the names it has visited with `exists`. */
  lemma {:induction false} Pass1Exists(existing: seq<Path>, parsed: map<Path, Doc>, i: nat, n: Path)
    requires i <= |existing| && Parsed(existing, parsed)
    ensures Pass1Get(existing, parsed, i, n, Exists) == if n in existing[..i] then Some(Yes) else None
  {
    if i > 0 {
      Pass1Exists(existing, parsed, i - 1, n);
      assert existing[..i] == existing[..i - 1] + [existing[i - 1]];
    }
  }

  /** After `tangle`, a name has `exists` exactly when it was found on disk (tangle.py:29). */
  lemma ExistsMarked(existing: seq<Path>, parsed: map<Path, Doc>, n: Path)
    requires Parsed(existing, parsed)
    ensures TangledGet(existing, parsed, n, Exists) == if n in existing then Some(Yes) else None
  {
    Pass2Keeps(existing, parsed, |existing|, Pass1Get(existing, parsed, |existing|, n, Exists), n, Exists);
    Pass1Exists(existing, parsed, |existing|, n);
    assert existing[..|existing|] == existing;
  }

  /** The first pass stores the title of every page, text and picture it has visited. */
  lemma {:induction false} Pass1Title(existing: seq<Path>, parsed: map<Path, Doc>, i: nat, n: Path)
    requires i <= |existing| && Parsed(existing, parsed)
    ensures Pass1Get(existing, parsed, i, n, TitleKey) ==
            if n in existing[..i] && Titled(FileKindOf(n)) then Some(Title(parsed[n].title)) else None
  {
    if i > 0 {
      Pass1Title(existing, parsed, i - 1, n);
      assert existing[..i] == existing[..i - 1] + [existing[i - 1]];
    }
  }

  /** After `tangle`, the title of a page, text or picture is its reader's (tangle.py:33-50). */
  lemma TitleStored(existing: seq<Path>, parsed: map<Path, Doc>, n: Path)
    requires Parsed(existing, parsed)
    ensures TangledGet(existing, parsed, n, TitleKey) ==
            if n in existing && Titled(FileKindOf(n)) then Some(Title(parsed[n].title)) else None
  {
    Pass2Keeps(existing, parsed, |existing|, Pass1Get(existing, parsed, |existing|, n, TitleKey), n, TitleKey);
    Pass1Title(existing, parsed, |existing|, n);
    assert existing[..|existing|] == existing;
  }

  /** The `j`th name is a page one of whose role pairs is `(n, role)`. */
  predicate Carries(existing: seq<Path>, parsed: map<Path, Doc>, j: nat, n: Path, role: string)
    requires j < |existing| && Parsed(existing, parsed)
  {
    FileKindOf(existing[j]) == Page && (n, role) in parsed[existing[j]].roles
  }

  /** The first pass marks `is role` on exactly the targets of the role pairs it has visited. */
  lemma {:induction false} Pass1Is(existing: seq<Path>, parsed: map<Path, Doc>, i: nat, n: Path, role: string)
    requires i <= |existing| && Parsed(existing, parsed)
    ensures Pass1Get(existing, parsed, i, n, Is(role)) ==
            if exists j :: 0 <= j < i && Carries(existing, parsed, j, n, role) then Some(Yes) else None
  {
    if i > 0 {
      Pass1Is(existing, parsed, i - 1, n, role);
      if Carries(existing, parsed, i - 1, n, role) {
        assert 0 <= i - 1 < i && Carries(existing, parsed, i - 1, n, role);
      } else if exists j :: 0 <= j < i && Carries(existing, parsed, j, n, role) {
        var j :| 0 <= j < i && Carries(existing, parsed, j, n, role);
        assert j < i - 1;
      }
    }
  }

  /** An entry, once made by the first pass, stays. */
  lemma {:induction false} In1Grows(existing: seq<Path>, parsed: map<Path, Doc>, i: nat, j: nat, n: Path)
    requires i <= j <= |existing| && Parsed(existing, parsed)
    requires In1(existing, parsed, i, n)
    ensures In1(existing, parsed, j, n)
    decreases j - i
  {
    if i < j {
      In1Grows(existing, parsed, i, j - 1, n);
    }
  }

  /** An entry made by the first pass is still there after the second. */
  lemma {:induction false} In2Keeps(existing: seq<Path>, parsed: map<Path, Doc>, i: nat, n: Path)
    requires i <= |existing| && Parsed(existing, parsed)
    requires In1(existing, parsed, |existing|, n)
    ensures In2(existing, parsed, i, n)
  {
    if i > 0 {
      In2Keeps(existing, parsed, i - 1, n);
    }
  }

  /**
   * After `tangle`, a name carries `is role` exactly when a page found on
   * disk has the role pair `(name, role)`; such a name has an entry whether
   * or not it exists (tangle.py:36-41).
   */
  lemma IsMarked(existing: seq<Path>, parsed: map<Path, Doc>, n: Path, role: string)
    requires Parsed(existing, parsed)
    ensures TangledGet(existing, parsed, n, Is(role)) ==
            if exists j :: 0 <= j < |existing| && Carries(existing, parsed, j, n, role) then Some(Yes) else None
    ensures (exists j :: 0 <= j < |existing| && Carries(existing, parsed, j, n, role)) ==> In2(existing, parsed, |existing|, n)
  {
    Pass2Keeps(existing, parsed, |existing|, Pass1Get(existing, parsed, |existing|, n, Is(role)), n, Is(role));
    Pass1Is(existing, parsed, |existing|, n, role);
    if exists j :: 0 <= j < |existing| && Carries(existing, parsed, j, n, role) {
      var j :| 0 <= j < |existing| && Carries(existing, parsed, j, n, role);
      assert n in Objects(parsed[existing[j]].roles);
      assert In1(existing, parsed, j + 1, n);
      In1Grows(existing, parsed, j + 1, |existing|, n);
      In2Keeps(existing, parsed, |existing|, n);
    }
  }

  /** The first pass marks `has role` on exactly the pages it has visited whose role pairs use `role`. */
  lemma {:induction false} Pass1Has(existing: seq<Path>, parsed: map<Path, Doc>, i: nat, n: Path, role: string)
    requires i <= |existing| && Parsed(existing, parsed)
    ensures Pass1Get(existing, parsed, i, n, Has(role)) ==
            if n in existing[..i] && FileKindOf(n) == Page && role in RoleNames(parsed[n].roles) then Some(Yes) else None
  {
    if i > 0 {
      Pass1Has(existing, parsed, i - 1, n, role);
      assert existing[..i] == existing[..i - 1] + [existing[i - 1]];
    }
  }

  /** After `tangle`, a page has `has role` exactly when one of its role pairs uses `role` (tangle.py:36-41). */
  lemma HasMarked(existing: seq<Path>, parsed: map<Path, Doc>, n: Path, role: string)
    requires Parsed(existing, parsed)
    ensures TangledGet(existing, parsed, n, Has(role)) ==
            if n in existing && FileKindOf(n) == Page && role in RoleNames(parsed[n].roles) then Some(Yes) else None
  {
    Pass2Keeps(existing, parsed, |existing|, Pass1Get(existing, parsed, |existing|, n, Has(role)), n, Has(role));
    Pass1Has(existing, parsed, |existing|, n, role);
    assert existing[..|existing|] == existing;
  }

  /** The `j`th name is a style sheet that includes `t`. */
  predicate SheetIncludes(existing: seq<Path>, parsed: map<Path, Doc>, j: nat, t: Path)
    requires j < |existing| && Parsed(existing, parsed)
  {
    FileKindOf(existing[j]) == Sheet && t in parsed[existing[j]].inclusions
  }

  /** The `j`th name is an unskipped page that links to `t`. */
  predicate PageLinks(existing: seq<Path>, parsed: map<Path, Doc>, j: nat, t: Path)
    requires j < |existing| && Parsed(existing, parsed)
  {
    Active(existing, parsed, j) && t in parsed[existing[j]].links
  }

  /** The `j`th name is an unskipped page that includes `t`. */
  predicate PageIncludes(existing: seq<Path>, parsed: map<Path, Doc>, j: nat, t: Path)
    requires j < |existing| && Parsed(existing, parsed)
  {
    Active(existing, parsed, j) && t in parsed[existing[j]].inclusions
  }

  /**
   * The second loop's test `'is archived' in metadata[name]` holds exactly
   * when some page found on disk gives the name the role `archived`: the
   * first pass alone writes `is` keys (tangle.py:62-64).
   */
  lemma ArchivedRead(existing: seq<Path>, parsed: map<Path, Doc>, i: nat, x: Path)
    requires i <= |existing| && Parsed(existing, parsed)
    ensures Pass2Get(existing, parsed, i, x, Is("archived")).Some? <==> Archived(existing, parsed, x)
  {
    Pass2Keeps(existing, parsed, i, Pass1Get(existing, parsed, |existing|, x, Is("archived")), x, Is("archived"));
    Pass1Is(existing, parsed, |existing|, x, "archived");
  }

  /** The first pass writes no `linked`. */
  lemma {:induction false} Pass1Unlinked(existing: seq<Path>, parsed: map<Path, Doc>, i: nat, t: Path)
    requires i <= |existing| && Parsed(existing, parsed)
    ensures Pass1Get(existing, parsed, i, t, Linked) == None
  {
    if i > 0 {
      Pass1Unlinked(existing, parsed, i - 1, t);
    }
  }

  /** The second pass marks `linked` on exactly the links of the unskipped pages it has visited. */
  lemma {:induction false} Pass2Linked(existing: seq<Path>, parsed: map<Path, Doc>, i: nat, start: Option<Value>, t: Path)
    requires i <= |existing| && Parsed(existing, parsed)
    ensures Edges2(existing, parsed, i, start, t, Linked) ==
            if exists j :: 0 <= j < i && PageLinks(existing, parsed, j, t) then Some(Yes) else start
  {
    if i > 0 {
      Pass2Linked(existing, parsed, i - 1, start, t);
      if PageLinks(existing, parsed, i - 1, t) {
        assert 0 <= i - 1 < i && PageLinks(existing, parsed, i - 1, t);
      } else if exists j :: 0 <= j < i && PageLinks(existing, parsed, j, t) {
        var j :| 0 <= j < i && PageLinks(existing, parsed, j, t);
        assert j < i - 1;
      }
    }
  }

  /** After `tangle`, a name is `linked` exactly when an unskipped page links to it (tangle.py:66-69). */
  lemma LinkedMarked(existing: seq<Path>, parsed: map<Path, Doc>, t: Path)
    requires Parsed(existing, parsed)
    ensures TangledGet(existing, parsed, t, Linked) ==
            if exists j :: 0 <= j < |existing| && PageLinks(existing, parsed, j, t) then Some(Yes) else None
  {
    Pass1Unlinked(existing, parsed, |existing|, t);
    Pass2Linked(existing, parsed, |existing|, Pass1Get(existing, parsed, |existing|, t, Linked), t);
  }

  /** The first pass marks `included` on exactly the inclusions of the style sheets it has visited. */
  lemma {:induction false} Pass1Included(existing: seq<Path>, parsed: map<Path, Doc>, i: nat, t: Path)
    requires i <= |existing| && Parsed(existing, parsed)
    ensures Pass1Get(existing, parsed, i, t, Included) ==
            if exists j :: 0 <= j < i && SheetIncludes(existing, parsed, j, t) then Some(Yes) else None
  {
    if i > 0 {
      Pass1Included(existing, parsed, i - 1, t);
      if SheetIncludes(existing, parsed, i - 1, t) {
        assert 0 <= i - 1 < i && SheetIncludes(existing, parsed, i - 1, t);
      } else if exists j :: 0 <= j < i && SheetIncludes(existing, parsed, j, t) {
        var j :| 0 <= j < i && SheetIncludes(existing, parsed, j, t);
        assert j < i - 1;
      }
    }
  }

  /** The second pass adds `included` on exactly the inclusions of the unskipped pages it has visited. */
  lemma {:induction false} Pass2Included(existing: seq<Path>, parsed: map<Path, Doc>, i: nat, start: Option<Value>, t: Path)
    requires i <= |existing| && Parsed(existing, parsed)
    ensures Edges2(existing, parsed, i, start, t, Included) ==
            if exists j :: 0 <= j < i && PageIncludes(existing, parsed, j, t) then Some(Yes) else start
  {
    if i > 0 {
      Pass2Included(existing, parsed, i - 1, start, t);
      if PageIncludes(existing, parsed, i - 1, t) {
        assert 0 <= i - 1 < i && PageIncludes(existing, parsed, i - 1, t);
      } else if exists j :: 0 <= j < i && PageIncludes(existing, parsed, j, t) {
        var j :| 0 <= j < i && PageIncludes(existing, parsed, j, t);
        assert j < i - 1;
      }
    }
  }

  /**
   * After `tangle`, a name is `included` exactly when a style sheet
   * includes it, archived pages notwithstanding, or an unskipped page does
   * (tangle.py:52-57, 71-74).
   */
  lemma IncludedMarked(existing: seq<Path>, parsed: map<Path, Doc>, t: Path)
    requires Parsed(existing, parsed)
    ensures TangledGet(existing, parsed, t, Included) ==
            if (exists j :: 0 <= j < |existing| && SheetIncludes(existing, parsed, j, t)) ||
               (exists j :: 0 <= j < |existing| && PageIncludes(existing, parsed, j, t))
            then Some(Yes) else None
  {
    Pass1Included(existing, parsed, |existing|, t);
    Pass2Included(existing, parsed, |existing|, Pass1Get(existing, parsed, |existing|, t, Included), t);
  }

  /** The `inbound` value of a list: absent when nothing was ever appended. */
  function Listed(l: seq<Path>): Option<Value> {
    if l == [] then None else Some(Names(l))
  }

  /** Reading a listed value back gives the list. */
  lemma ListOfListed(l: seq<Path>)
    ensures ListOf(Listed(l)) == l
  {
  }

  /** The style sheets among `existing[..i]` that include `t`, in order. */
  function SheetsTo(existing: seq<Path>, parsed: map<Path, Doc>, i: nat, t: Path): seq<Path>
    requires i <= |existing| && Parsed(existing, parsed)
  {
    if i == 0 then []
    else SheetsTo(existing, parsed, i - 1, t) + (if SheetIncludes(existing, parsed, i - 1, t) then [existing[i - 1]] else [])
  }

  /** The unskipped pages among `existing[..i]` that link to `t`, then include it, each edge once, in order. */
  function PagesTo(existing: seq<Path>, parsed: map<Path, Doc>, i: nat, t: Path): seq<Path>
    requires i <= |existing| && Parsed(existing, parsed)
  {
    if i == 0 then []
    else
      PagesTo(existing, parsed, i - 1, t)
      + (if PageLinks(existing, parsed, i - 1, t) then [existing[i - 1]] else [])
      + (if PageIncludes(existing, parsed, i - 1, t) then [existing[i - 1]] else [])
  }

  /** The first pass's `inbound` lists: the including sheets in the order found. */
  lemma {:induction false} Pass1Inbound(existing: seq<Path>, parsed: map<Path, Doc>, i: nat, t: Path)
    requires i <= |existing| && Parsed(existing, parsed)
    ensures Pass1Get(existing, parsed, i, t, Inbound) == Listed(SheetsTo(existing, parsed, i, t))
  {
    if i > 0 {
      Pass1Inbound(existing, parsed, i - 1, t);
      SheetMark(SheetsTo(existing, parsed, i - 1, t), existing[i - 1], parsed, t);
    }
  }

  /** One name of the first loop extends a listed `inbound` value iff it is a sheet including `t`. */
  lemma SheetMark(before: seq<Path>, x: Path, parsed: map<Path, Doc>, t: Path)
    requires FileKindOf(x) != Unread ==> x in parsed
    ensures Visit1Mark(Listed(before), x, parsed, t, Inbound) ==
            Listed(before + (if FileKindOf(x) == Sheet && t in parsed[x].inclusions then [x] else []))
  {
    ListOfListed(before);
    if !(FileKindOf(x) == Sheet && t in parsed[x].inclusions) {
      assert before + [] == before;
    }
  }

  /** Appending to the page list appends to the whole list. */
  lemma AppendAdded(sheets: seq<Path>, before: seq<Path>, after: seq<Path>, added: seq<Path>)
    requires after == before + added
    ensures (sheets + before) + added == sheets + after
  {
  }

  /** The second pass appends the unskipped pages' edges after what the first pass listed. */
  lemma {:induction false} Pass2Inbound(existing: seq<Path>, parsed: map<Path, Doc>, i: nat, sheets: seq<Path>, t: Path)
    requires i <= |existing| && Parsed(existing, parsed)
    ensures Edges2(existing, parsed, i, Listed(sheets), t, Inbound) == Listed(sheets + PagesTo(existing, parsed, i, t))
  {
    if i == 0 {
      assert sheets + [] == sheets;
    } else {
      Pass2Inbound(existing, parsed, i - 1, sheets, t);
      var before := PagesTo(existing, parsed, i - 1, t);
      var x := existing[i - 1];
      if Active(existing, parsed, i - 1) {
        PageEdgesListed(sheets + before, x, parsed[x], t);
        AppendAdded(sheets, before, PagesTo(existing, parsed, i, t),
                    (if t in parsed[x].links then [x] else []) + (if t in parsed[x].inclusions then [x] else []));
      } else {
        assert PagesTo(existing, parsed, i, t) == before + [] + [];
        assert before + [] + [] == before;
      }
    }
  }

  /**
   * After `tangle`, the `inbound` list of `t` holds each style sheet that
   * includes it, in the order found, then each unskipped page once per
   * link and once more per inclusion; it is absent when there is no such
   * edge (tangle.py:55-57, 66-74).
   */
  lemma InboundListed(existing: seq<Path>, parsed: map<Path, Doc>, t: Path)
    requires Parsed(existing, parsed)
    ensures TangledGet(existing, parsed, t, Inbound) ==
            Listed(SheetsTo(existing, parsed, |existing|, t) + PagesTo(existing, parsed, |existing|, t))
  {
    Pass1Inbound(existing, parsed, |existing|, t);
    Pass2Inbound(existing, parsed, |existing|, SheetsTo(existing, parsed, |existing|, t), t);
  }

  /** The number of edges from the `j`th name to `t` that `tangle` counts. */
  function EdgesFrom(existing: seq<Path>, parsed: map<Path, Doc>, j: nat, t: Path): nat
    requires j < |existing| && Parsed(existing, parsed)
  {
    (if SheetIncludes(existing, parsed, j, t) then 1 else 0)
    + (if PageLinks(existing, parsed, j, t) then 1 else 0)
    + (if PageIncludes(existing, parsed, j, t) then 1 else 0)
  }

  /** The number of edges to `t` from `existing[..i]`. */
  function EdgesTo(existing: seq<Path>, parsed: map<Path, Doc>, i: nat, t: Path): nat
    requires i <= |existing| && Parsed(existing, parsed)
  {
    if i == 0 then 0 else EdgesTo(existing, parsed, i - 1, t) + EdgesFrom(existing, parsed, i - 1, t)
  }

  /** The sheet and page lists together have one element per edge. */
  lemma {:induction false} ListsCountEdges(existing: seq<Path>, parsed: map<Path, Doc>, i: nat, t: Path)
    requires i <= |existing| && Parsed(existing, parsed)
    ensures |SheetsTo(existing, parsed, i, t)| + |PagesTo(existing, parsed, i, t)| == EdgesTo(existing, parsed, i, t)
  {
    if i > 0 {
      ListsCountEdges(existing, parsed, i - 1, t);
    }
  }

  /** After `tangle`, the length of `t`'s `inbound` list is the number of edges to `t` (tangle.py:55-57, 66-74). */
  lemma InboundCountsEdges(existing: seq<Path>, parsed: map<Path, Doc>, t: Path)
    requires Parsed(existing, parsed)
    ensures |ListOf(TangledGet(existing, parsed, t, Inbound))| == EdgesTo(existing, parsed, |existing|, t)
  {
    InboundListed(existing, parsed, t);
    ListsCountEdges(existing, parsed, |existing|, t);
  }

  /** No name before `i` has an edge to `t`. */
  lemma {:induction false} NoEdgesNoLists(existing: seq<Path>, parsed: map<Path, Doc>, i: nat, t: Path)
    requires i <= |existing| && Parsed(existing, parsed)
    requires EdgesTo(existing, parsed, i, t) == 0
    ensures SheetsTo(existing, parsed, i, t) == [] && PagesTo(existing, parsed, i, t) == []
  {
    ListsCountEdges(existing, parsed, i, t);
  }

  /**
   * A name that does not exist, is the target of a role pair, and has no
   * edge but from skipped pages ends up with an entry that has neither
   * `exists` nor `inbound`: the entry format.py:65 reads `inbound` from.
   */
  lemma RoleTargetWithoutInbound(existing: seq<Path>, parsed: map<Path, Doc>, t: Path, j: nat, role: string)
    requires Parsed(existing, parsed)
    requires t !in existing
    requires j < |existing| && Carries(existing, parsed, j, t, role)
    requires EdgesTo(existing, parsed, |existing|, t) == 0
    ensures In2(existing, parsed, |existing|, t)
    ensures TangledGet(existing, parsed, t, Exists) == None
    ensures TangledGet(existing, parsed, t, Inbound) == None
  {
    IsMarked(existing, parsed, t, role);
    ExistsMarked(existing, parsed, t);
    InboundListed(existing, parsed, t);
    NoEdgesNoLists(existing, parsed, |existing|, t);
  }
}
