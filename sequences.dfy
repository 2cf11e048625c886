/** Sequence vocabulary shared by both dashboards.

    The dashboards lean on a few JavaScript idioms: `Array.prototype.indexOf`,
    `[...new Set(xs)]` and a plain object used as an insertion-ordered
    dictionary (both keep the first occurrence of each key, in input order),
    grouping values by key with `push`, and reducing a group with
    `reduce((a, b) => a + b, 0)`, `Math.max(...)` or `Math.min(...)`. */
module Sequences {

  datatype Option<T> = None | Some(value: T)

  function Min(a: int, b: int): int { if a <= b then a else b }

  function Max(a: int, b: int): int { if a <= b then b else a }

  predicate NoDups<T(==)>(s: seq<T>) {
    forall i, j :: 0 <= i < j < |s| ==> s[i] != s[j]
  }

  function Elements<T>(s: seq<T>): set<T> { set x | x in s }

  /** `s.indexOf(x)`: the first index holding `x`, or -1 when there is none. */
  function IndexOf<T(==)>(s: seq<T>, x: T): (r: int)
    ensures -1 <= r < |s|
    ensures r == -1 <==> x !in s
    ensures 0 <= r ==> s[r] == x && forall j :: 0 <= j < r ==> s[j] != x
  {
    if s == [] then -1
    else if s[0] == x then 0
    else
      var k := IndexOf(s[1..], x);
      assert s == [s[0]] + s[1..];
      if k == -1 then -1 else k + 1
  }

  /** Appending an element does not move the first occurrence of anything
      already present, and puts the first occurrence of a new element last. */
  lemma IndexOfSnoc<T>(s: seq<T>, x: T, y: T)
    ensures y in s ==> IndexOf(s + [x], y) == IndexOf(s, y)
    ensures y !in s && y == x ==> IndexOf(s + [x], y) == |s|
  {
    var r := IndexOf(s + [x], y);
    if y in s {
      var q := IndexOf(s, y);
      assert (s + [x])[q] == y;
      assert r <= q;
      assert s[r] == (s + [x])[r];
    } else if y == x {
      assert (s + [x])[|s|] == y;
      assert r == |s|;
    }
  }

  /** Insertion-ordered de-duplication: `[...new Set(s)]`, and equally the
      key order of an object filled by walking `s`. */
  function Dedup<T(==)>(s: seq<T>): (r: seq<T>)
    ensures NoDups(r)
    ensures forall i :: 0 <= i < |r| ==> r[i] in s
    ensures |r| <= |s|
  {
    if s == [] then []
    else
      var n := |s| - 1;
      var p := Dedup(s[..n]);
      assert s == s[..n] + [s[n]];
      if s[n] in p then p else p + [s[n]]
  }

  /** One step of the walk that fills a set or an ordered dictionary. */
  lemma DedupSnoc<T>(s: seq<T>, x: T)
    ensures Dedup(s + [x]) == if x in Dedup(s) then Dedup(s) else Dedup(s) + [x]
  {
    assert (s + [x])[..|s|] == s;
  }

  /** De-duplication keeps exactly the values of its input. */
  lemma {:induction false} DedupMembers<T>(s: seq<T>)
    ensures forall x :: x in Dedup(s) <==> x in s
  {
    if s != [] {
      var n := |s| - 1;
      DedupMembers(s[..n]);
      DedupSnoc(s[..n], s[n]);
      assert s == s[..n] + [s[n]];
    }
  }

  /** The de-duplicated elements appear in the order of their first
      occurrence in the input. */
  lemma {:induction false} DedupKeepsFirstOccurrenceOrder<T>(s: seq<T>)
    ensures forall i, j :: 0 <= i < j < |Dedup(s)| ==> IndexOf(s, Dedup(s)[i]) < IndexOf(s, Dedup(s)[j])
  {
    if s != [] {
      var n := |s| - 1;
      var p, x := s[..n], s[n];
      assert s == p + [x];
      DedupKeepsFirstOccurrenceOrder(p);
      DedupSnoc(p, x);
      DedupMembers(p);
      var d := Dedup(p);
      forall y | y in p
        ensures IndexOf(s, y) == IndexOf(p, y)
      {
        IndexOfSnoc(p, x, y);
      }
      if x !in d {
        IndexOfSnoc(p, x, x);
        forall i | 0 <= i < |d|
          ensures IndexOf(s, d[i]) < IndexOf(s, x)
        {
          assert d[i] in p;
        }
      }
    }
  }

  /** A sequence without duplicates has as many elements as distinct values. */
  lemma {:induction false} NoDupsCard<T>(r: seq<T>)
    requires NoDups(r)
    ensures |Elements(r)| == |r|
  {
    if r != [] {
      var n := |r| - 1;
      assert NoDups(r[..n]);
      NoDupsCard(r[..n]);
      assert r == r[..n] + [r[n]];
      assert Elements(r) == Elements(r[..n]) + {r[n]};
      assert r[n] !in Elements(r[..n]);
    }
  }

  /** De-duplication keeps exactly one copy of each distinct value. */
  lemma DedupLength<T>(s: seq<T>)
    ensures |Dedup(s)| == |Elements(s)|
  {
    NoDupsCard(Dedup(s));
    DedupMembers(s);
    assert Elements(Dedup(s)) == Elements(s);
  }

  /** The values whose key is `k`, in input order: what the group of `k`
      holds after `groups[keys[i]].push(vals[i])` for i = 0, 1, ... */
  function Bucket<K(==), V>(keys: seq<K>, vals: seq<V>, k: K): (b: seq<V>)
    requires |keys| == |vals|
    ensures |b| <= |keys|
    ensures |b| > 0 <==> k in keys
  {
    if keys == [] then []
    else
      var n := |keys| - 1;
      assert keys == keys[..n] + [keys[n]];
      Bucket(keys[..n], vals[..n], k) + (if keys[n] == k then [vals[n]] else [])
  }

  /** One `push` onto a group. */
  lemma BucketSnoc<K, V>(keys: seq<K>, vals: seq<V>, x: K, v: V, k: K)
    requires |keys| == |vals|
    ensures Bucket(keys + [x], vals + [v], k) == Bucket(keys, vals, k) + (if x == k then [v] else [])
  {
    assert (keys + [x])[..|keys|] == keys;
    assert (vals + [v])[..|vals|] == vals;
  }

  /** `groups`, with key order `order`, is what pushing every `vals[i]` onto
      the group of `keys[i]` builds in an insertion-ordered dictionary. */
  ghost predicate Grouped<K(!new), V>(keys: seq<K>, vals: seq<V>, order: seq<K>, groups: map<K, seq<V>>)
    requires |keys| == |vals|
  {
    && order == Dedup(keys)
    && (forall d :: d in groups <==> d in order)
    && (forall d :: d in groups ==> groups[d] == Bucket(keys, vals, d))
  }

  /** One step of the grouping walk: the value at position `i` is pushed onto
      the group of its key, which is created (and its key appended to the
      key order) when missing. */
  lemma GroupStep<K(!new), V>(keys: seq<K>, vals: seq<V>, i: nat, order: seq<K>, groups: map<K, seq<V>>)
    requires |keys| == |vals| && i < |keys|
    requires Grouped(keys[..i], vals[..i], order, groups)
    ensures var k := keys[i];
      var created := if k in groups then groups else groups[k := []];
      Grouped(keys[..i + 1], vals[..i + 1],
              if k in groups then order else order + [k],
              created[k := created[k] + [vals[i]]])
  {
    var k := keys[i];
    DedupMembers(keys[..i]);
    assert keys[..i + 1] == keys[..i] + [k];
    assert vals[..i + 1] == vals[..i] + [vals[i]];
    DedupSnoc(keys[..i], k);
    forall d
      ensures Bucket(keys[..i + 1], vals[..i + 1], d) == Bucket(keys[..i], vals[..i], d) + (if k == d then [vals[i]] else [])
    {
      BucketSnoc(keys[..i], vals[..i], k, vals[i], d);
    }
  }

  /** The key order of an insertion-ordered dictionary after one more key
      is looked up and, when missing, created. */
  lemma KeyOrderStep<K(!new), V>(seen: seq<K>, key: K, keys: seq<K>, groups: map<K, V>, entry: V)
    requires keys == Dedup(seen)
    requires forall d :: d in groups <==> d in keys
    ensures var keys' := if key in groups then keys else keys + [key];
      && keys' == Dedup(seen + [key])
      && forall d :: d in groups[key := entry] <==> d in keys'
  {
    DedupSnoc(seen, key);
  }

  /** The same step for a walk over a second list after a first one. */
  lemma KeyOrderStepAfter<K(!new), V>(first: seq<K>, seen: seq<K>, key: K, keys: seq<K>, groups: map<K, V>, entry: V)
    requires keys == Dedup(first + seen)
    requires forall d :: d in groups <==> d in keys
    ensures var keys' := if key in groups then keys else keys + [key];
      && keys' == Dedup(first + (seen + [key]))
      && (forall d :: d in groups[key := entry] <==> d in keys')
      && (key !in groups ==> key !in first && key !in seen)
  {
    assert first + (seen + [key]) == (first + seen) + [key];
    KeyOrderStep(first + seen, key, keys, groups, entry);
    if key !in groups {
      AbsentFromDedup(first + seen, key);
      assert key !in first + seen;
    }
  }

  /** Extending a prefix by one element. */
  lemma PrefixSnoc<T>(s: seq<T>, i: nat)
    requires i < |s|
    ensures s[..i + 1] == s[..i] + [s[i]]
  {
  }

  /** A key that de-duplication did not keep never occurred. */
  lemma AbsentFromDedup<T>(s: seq<T>, x: T)
    requires x !in Dedup(s)
    ensures x !in s
  {
    DedupMembers(s);
  }

  /** A grouping of a whole input. */
  lemma GroupedAll<K(!new), V>(keys: seq<K>, vals: seq<V>, order: seq<K>, groups: map<K, seq<V>>)
    requires |keys| == |vals|
    requires Grouped(keys[..|keys|], vals[..|vals|], order, groups)
    ensures Grouped(keys, vals, order, groups)
  {
    assert keys[..|keys|] == keys;
    assert vals[..|vals|] == vals;
  }

  /** The grouping walk over an insertion-ordered dictionary: for each
      position, create the group of the key when it is missing (appending the
      key to the key order), then push the value onto it. */
  method GroupBy<K(==,!new), V>(keys: seq<K>, vals: seq<V>) returns (order: seq<K>, groups: map<K, seq<V>>)
    requires |keys| == |vals|
    ensures Grouped(keys, vals, order, groups)
  {
    order, groups := [], map[];
    var i := 0;
    while i < |keys|
      invariant 0 <= i <= |keys|
      invariant Grouped(keys[..i], vals[..i], order, groups)
    {
      var k := keys[i];
      GroupStep(keys, vals, i, order, groups);
      if k !in groups {
        groups := groups[k := []];
        order := order + [k];
      }
      groups := groups[k := groups[k] + [vals[i]]];
      i := i + 1;
    }
    GroupedAll(keys, vals, order, groups);
  }

  /** A group holds exactly the values stored under its key. */
  lemma {:induction false} BucketMembers<K, V>(keys: seq<K>, vals: seq<V>, k: K)
    requires |keys| == |vals|
    ensures forall v :: v in Bucket(keys, vals, k) ==> exists i :: 0 <= i < |keys| && keys[i] == k && vals[i] == v
    ensures forall i :: 0 <= i < |keys| && keys[i] == k ==> vals[i] in Bucket(keys, vals, k)
  {
    if keys != [] {
      var n := |keys| - 1;
      BucketMembers(keys[..n], vals[..n], k);
      BucketSnoc(keys[..n], vals[..n], keys[n], vals[n], k);
      assert keys == keys[..n] + [keys[n]];
      assert vals == vals[..n] + [vals[n]];
      forall v | v in Bucket(keys, vals, k)
        ensures exists i :: 0 <= i < |keys| && keys[i] == k && vals[i] == v
      {
        if v in Bucket(keys[..n], vals[..n], k) {
          var i :| 0 <= i < n && keys[..n][i] == k && vals[..n][i] == v;
          assert keys[i] == k && vals[i] == v;
        } else {
          assert keys[n] == k && vals[n] == v;
        }
      }
      forall i | 0 <= i < |keys| && keys[i] == k
        ensures vals[i] in Bucket(keys, vals, k)
      {
        if i < n {
          assert keys[..n][i] == k;
          assert vals[..n][i] in Bucket(keys[..n], vals[..n], k);
        }
      }
    }
  }

  /** Total number of values held by the groups of the keys `ds`. */
  function GroupedCount<K(==), V>(keys: seq<K>, vals: seq<V>, ds: seq<K>): nat
    requires |keys| == |vals|
  {
    if ds == [] then 0
    else GroupedCount(keys, vals, ds[..|ds| - 1]) + |Bucket(keys, vals, ds[|ds| - 1])|
  }

  lemma {:induction false} GroupedCountSnoc<K, V>(keys: seq<K>, vals: seq<V>, x: K, v: V, ds: seq<K>)
    requires |keys| == |vals| && NoDups(ds)
    ensures GroupedCount(keys + [x], vals + [v], ds) == GroupedCount(keys, vals, ds) + (if x in ds then 1 else 0)
  {
    if ds != [] {
      var n := |ds| - 1;
      assert ds == ds[..n] + [ds[n]];
      assert NoDups(ds[..n]);
      GroupedCountSnoc(keys, vals, x, v, ds[..n]);
      BucketSnoc(keys, vals, x, v, ds[n]);
      assert x == ds[n] ==> x !in ds[..n];
    }
  }

  /** Grouping loses and duplicates nothing: the groups of the distinct keys
      together hold every input value exactly once. */
  lemma {:induction false} BucketsPartition<K, V>(keys: seq<K>, vals: seq<V>)
    requires |keys| == |vals|
    ensures GroupedCount(keys, vals, Dedup(keys)) == |keys|
  {
    if keys != [] {
      var n := |keys| - 1;
      var p, x := keys[..n], keys[n];
      assert keys == p + [x];
      assert vals == vals[..n] + [vals[n]];
      BucketsPartition(p, vals[..n]);
      DedupSnoc(p, x);
      DedupMembers(p);
      var d := Dedup(p);
      GroupedCountSnoc(p, vals[..n], x, vals[n], d);
      if x !in d {
        assert Dedup(keys) == d + [x];
        assert (d + [x])[..|d|] == d;
        assert Bucket(p, vals[..n], x) == [];
        BucketSnoc(p, vals[..n], x, vals[n], x);
      }
    }
  }

  /** Left fold `xs.reduce((a, b) => a + b, 0)`. */
  function Sum(xs: seq<real>): real {
    if xs == [] then 0.0 else Sum(xs[..|xs| - 1]) + xs[|xs| - 1]
  }

  /** `Math.max(...xs)` on a non-empty list. */
  function MaxOf(xs: seq<real>): (m: real)
    requires xs != []
    ensures m in xs
    ensures forall x :: x in xs ==> x <= m
  {
    var n := |xs| - 1;
    if n == 0 then xs[0]
    else
      var m := MaxOf(xs[..n]);
      assert xs == xs[..n] + [xs[n]];
      if xs[n] > m then xs[n] else m
  }

  /** `Math.min(...xs)` on a non-empty list. */
  function MinOf(xs: seq<real>): (m: real)
    requires xs != []
    ensures m in xs
    ensures forall x :: x in xs ==> m <= x
  {
    var n := |xs| - 1;
    if n == 0 then xs[0]
    else
      var m := MinOf(xs[..n]);
      assert xs == xs[..n] + [xs[n]];
      if xs[n] < m then xs[n] else m
  }

  /** How many times `for (let i = 0; i < cap && start + i < len; i++)` runs:
      the loop stops at the cap or at the end of the data, whichever is first. */
  function CappedRun(cap: nat, start: nat, len: nat): (n: nat)
    ensures n <= cap
    ensures start + n <= Max(start, len)
    ensures n == cap || start + n >= len
  {
    if start < len then Min(cap, len - start) else 0
  }

  /** `xs.slice(start, end)` for non-negative bounds: the end is clamped to
      the length, and an end at or before the start gives the empty array. */
  function Slice<T>(xs: seq<T>, start: nat, end: nat): (r: seq<T>)
    ensures |r| == Max(0, Min(end, |xs|) - start)
    ensures forall k :: 0 <= k < |r| ==> r[k] == xs[start + k]
  {
    var e := Min(end, |xs|);
    if e <= start then [] else xs[start..e]
  }
}
