/**
 * `groups` of format.py (lines 28-34): a sequence split into buckets by a
 * key function, the buckets handed out in ascending key order.
 */
module Grouping {
  import opened Ordering

  /** What a key function may be: `directory` and `extension` are both total. */
  type KeyOf = string -> string

  /** The elements of `items` whose key is `k`, in their order in `items`. */
  function Filter(items: seq<string>, key: KeyOf, k: string): (r: seq<string>)
    ensures |r| <= |items|
    ensures forall x :: x in r <==> x in items && key(x) == k
  {
    if items == [] then []
    else
      var init := items[..|items| - 1];
      var last := items[|items| - 1];
      assert items == init + [last];
      Filter(init, key, k) + (if key(last) == k then [last] else [])
  }

  /** The keys that occur: the keys of the `result` dictionary. */
  function GroupKeys(items: seq<string>, key: KeyOf): set<string> {
    set x | x in items :: key(x)
  }

  /** What `groups(items, key)` yields: each key once, ascending, with its bucket. */
  ghost function GroupsOf(items: seq<string>, key: KeyOf): seq<(string, seq<string>)> {
    var ks := SortedSet(GroupKeys(items, key));
    seq(|ks|, i requires 0 <= i < |ks| => (ks[i], Filter(items, key, ks[i])))
  }

  /** Adding one element to the end adds its key. */
  lemma GroupKeysStep(items: seq<string>, key: KeyOf, x: string)
    ensures GroupKeys(items + [x], key) == GroupKeys(items, key) + {key(x)}
  {
    assert x in items + [x];
    forall y | y in items
      ensures y in items + [x]
    {
      var i :| 0 <= i < |items| && items[i] == y;
      assert (items + [x])[i] == y;
    }
    forall k | k in GroupKeys(items + [x], key)
      ensures k in GroupKeys(items, key) || k == key(x)
    {
      var y :| y in items + [x] && key(y) == k;
      var i :| 0 <= i < |items + [x]| && (items + [x])[i] == y;
      if i < |items| {
        assert items[i] == y;
      }
    }
  }

  /** The bucket of `k` after one more element. */
  lemma FilterStep(items: seq<string>, key: KeyOf, i: nat, k: string)
    requires i < |items|
    ensures Filter(items[..i + 1], key, k)
         == Filter(items[..i], key, k) + (if key(items[i]) == k then [items[i]] else [])
  {
    assert items[..i + 1][..i] == items[..i];
  }

  /** A key that does not occur has an empty bucket. */
  lemma FilterAbsent(items: seq<string>, key: KeyOf, k: string)
    requires k !in GroupKeys(items, key)
    ensures Filter(items, key, k) == []
  {
  }

  /** The first loop of `groups`: `result.setdefault(meta, []).append(elem)`. */
  method Buckets(items: seq<string>, key: KeyOf) returns (buckets: map<string, seq<string>>, seen: seq<string>)
    ensures Distinct(seen)
    ensures forall k :: k in seen <==> k in GroupKeys(items, key)
    ensures forall k :: k in buckets <==> k in seen
    ensures forall k :: k in buckets ==> buckets[k] == Filter(items, key, k)
  {
    buckets := map[];
    seen := [];
    for i := 0 to |items|
      invariant Distinct(seen)
      invariant forall k :: k in seen <==> k in GroupKeys(items[..i], key)
      invariant forall k :: k in buckets <==> k in seen
      invariant forall k :: k in buckets ==> buckets[k] == Filter(items[..i], key, k)
    {
      var k := key(items[i]);
      assert items[..i + 1] == items[..i] + [items[i]];
      GroupKeysStep(items[..i], key, items[i]);
      forall k' | k' in buckets
        ensures Filter(items[..i + 1], key, k')
             == buckets[k'] + (if key(items[i]) == k' then [items[i]] else [])
      {
        FilterStep(items, key, i, k');
      }
      var group: seq<string> := [];
      if k in buckets {
        group := buckets[k];
      } else {
        FilterStep(items, key, i, k);
        FilterAbsent(items[..i], key, k);
        seen := seen + [k];
      }
      buckets := buckets[k := group + [items[i]]];
    }
    assert items[..|items|] == items;
  }

  /** `groups` (format.py:28-34). */
  method Groups(items: seq<string>, key: KeyOf) returns (result: seq<(string, seq<string>)>)
    ensures result == GroupsOf(items, key)
  {
    var buckets, seen := Buckets(items, key);
    assert (set k | k in seen) == GroupKeys(items, key);
    var ks := Sort(seen);
    result := [];
    for j := 0 to |ks|
      invariant |result| == j
      invariant forall t :: 0 <= t < j ==> result[t] == (ks[t], Filter(items, key, ks[t]))
    {
      assert ks[j] in ks;
      result := result + [(ks[j], buckets[ks[j]])];
    }
  }

  /** Keys come out once each, in strictly ascending order. */
  lemma GroupsAscending(items: seq<string>, key: KeyOf)
    ensures var g := GroupsOf(items, key);
      forall i, j :: 0 <= i < j < |g| ==> Less(g[i].0, g[j].0)
  {
  }

  /**
   * Every element is in the group of its own key and in no other; the
   * groups hold nothing else and none is empty.
   */
  lemma {:induction false} GroupsPartition(items: seq<string>, key: KeyOf)
    ensures var g := GroupsOf(items, key);
      && (forall x :: x in items ==> exists i :: 0 <= i < |g| && g[i].0 == key(x))
      && (forall i, x :: 0 <= i < |g| && x in g[i].1 <==> 0 <= i < |g| && x in items && key(x) == g[i].0)
      && (forall i :: 0 <= i < |g| ==> g[i].1 != [])
  {
    var g := GroupsOf(items, key);
    var ks := SortedSet(GroupKeys(items, key));
    forall x | x in items
      ensures exists i :: 0 <= i < |g| && g[i].0 == key(x)
    {
      assert key(x) in GroupKeys(items, key);
      var i :| 0 <= i < |ks| && ks[i] == key(x);
      assert g[i].0 == key(x);
    }
    forall i | 0 <= i < |g|
      ensures g[i].1 != []
    {
      assert ks[i] in ks;
      var x :| x in items && key(x) == ks[i];
      assert x in g[i].1;
    }
  }

  /** Strictly ascending positions. */
  predicate Increasing(s: seq<nat>) {
    forall j, l :: 0 <= j < l < |s| ==> s[j] < s[l]
  }

  /** The bucket of `k` holds the elements at the positions `idx`, in their order. */
  predicate Picks(items: seq<string>, key: KeyOf, k: string, idx: seq<nat>) {
    && |idx| == |Filter(items, key, k)|
    && (forall j :: 0 <= j < |idx| ==> idx[j] < |items| && Filter(items, key, k)[j] == items[idx[j]])
  }

  /** Every position with key `k` is among `idx`. */
  predicate Covers(items: seq<string>, key: KeyOf, k: string, idx: seq<nat>) {
    forall p {:trigger p in idx} :: 0 <= p < |items| && key(items[p]) == k ==> p in idx
  }

  /**
   * `idx` lists, in increasing order, the positions of `items` whose key is
   * `k` and no other, and the bucket of `k` holds the elements at them.
   */
  predicate Positions(items: seq<string>, key: KeyOf, k: string, idx: seq<nat>) {
    && Picks(items, key, k, idx)
    && (forall j :: 0 <= j < |idx| ==> idx[j] < |items| && key(items[idx[j]]) == k)
    && Increasing(idx)
    && Covers(items, key, k, idx)
  }

  /** `Picks` survives one more element. */
  lemma PicksStep(items: seq<string>, key: KeyOf, k: string, x: string, idx: seq<nat>)
    requires Picks(items, key, k, idx)
    ensures Picks(items + [x], key, k, idx + (if key(x) == k then [|items|] else []))
  {
    var all := items + [x];
    assert all[..|items|] == items;
    assert Filter(all, key, k) == Filter(items, key, k) + (if key(x) == k then [x] else []);
    forall j | 0 <= j < |idx|
      ensures all[idx[j]] == items[idx[j]]
    {
    }
  }

  /** `Covers` survives one more element. */
  lemma CoversStep(items: seq<string>, key: KeyOf, k: string, x: string, idx: seq<nat>)
    requires Covers(items, key, k, idx)
    ensures Covers(items + [x], key, k, idx + (if key(x) == k then [|items|] else []))
  {
    var all := items + [x];
    var next := idx + (if key(x) == k then [|items|] else []);
    forall p | 0 <= p < |all| && key(all[p]) == k
      ensures p in next
    {
      if p < |items| {
        assert all[p] == items[p];
        assert p in idx;
      }
    }
  }

  /** One more element: its position is listed after the others iff it has the key. */
  lemma PositionsStep(items: seq<string>, key: KeyOf, k: string, x: string, idx: seq<nat>)
    requires Positions(items, key, k, idx)
    ensures Positions(items + [x], key, k, idx + (if key(x) == k then [|items|] else []))
  {
    PicksStep(items, key, k, x, idx);
    CoversStep(items, key, k, x, idx);
    var all := items + [x];
    forall j | 0 <= j < |idx|
      ensures all[idx[j]] == items[idx[j]]
    {
    }
  }

  /**
   * A group is the subsequence of its key's elements: `idx` lists, in
   * increasing order, the positions of `items` with that key, and no other.
   */
  lemma FilterInOrder(items: seq<string>, key: KeyOf, k: string) returns (idx: seq<nat>)
    ensures Positions(items, key, k, idx)
  {
    idx := [];
    for i := 0 to |items|
      invariant Positions(items[..i], key, k, idx)
    {
      assert items[..i + 1] == items[..i] + [items[i]];
      PositionsStep(items[..i], key, k, items[i], idx);
      idx := idx + (if key(items[i]) == k then [i] else []);
    }
    assert items[..|items|] == items;
  }
}
