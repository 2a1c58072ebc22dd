/** Generic sequence operations that the worker and the two chart builders
    share: `Array.from(new Set(s))` (distinct elements in order of first
    appearance), `s.map(f)` and `s.filter(x => key(x) === k)`. */
module Sequences {

  predicate Distinct<T(==)>(s: seq<T>)
  {
    forall i, j :: 0 <= i < j < |s| ==> s[i] != s[j]
  }

  /** `s.map(f)`. */
  function Map<T, U>(s: seq<T>, f: T -> U): (r: seq<U>)
    ensures |r| == |s|
  {
    seq(|s|, i requires 0 <= i < |s| => f(s[i]))
  }

  lemma {:induction false} MapAppend<T, U>(s: seq<T>, x: T, f: T -> U)
    ensures Map(s + [x], f) == Map(s, f) + [f(x)]
  {
  }

  lemma {:induction false} MapMembers<T, U>(s: seq<T>, f: T -> U, y: U)
    ensures y in Map(s, f) <==> exists x :: x in s && f(x) == y
  {
    if y in Map(s, f) {
      var k :| 0 <= k < |s| && Map(s, f)[k] == y;
      assert s[k] in s && f(s[k]) == y;
    }
    if exists x :: x in s && f(x) == y {
      var x :| x in s && f(x) == y;
      var k :| 0 <= k < |s| && s[k] == x;
      assert Map(s, f)[k] == y;
    }
  }

  /** `Array.from(new Set(s))`: a `Set` keeps insertion order, so this is the
      distinct elements of `s` in order of first appearance. */
  function Dedup<T(==,!new)>(s: seq<T>): (r: seq<T>)
    ensures forall x :: x in r <==> x in s
    ensures |r| <= |s|
  {
    if s == [] then []
    else
      var d := Dedup(s[..|s| - 1]);
      assert s == s[..|s| - 1] + [s[|s| - 1]];
      if s[|s| - 1] in d then d else d + [s[|s| - 1]]
  }

  /** A `Set` holds each element once. */
  lemma {:induction false} DedupDistinct<T(!new)>(s: seq<T>)
    ensures Distinct(Dedup(s))
  {
    if s != [] {
      var init := s[..|s| - 1];
      DedupDistinct(init);
      var d := Dedup(init);
      if s[|s| - 1] !in d {
        var r := d + [s[|s| - 1]];
        forall i, j | 0 <= i < j < |r|
          ensures r[i] != r[j]
        {
          if j == |d| {
            assert r[i] == d[i];
          }
        }
      }
    }
  }

  /** Adding an element to a `Set` appends it unless already present. */
  lemma {:induction false} DedupAppend<T(!new)>(s: seq<T>, x: T)
    ensures Dedup(s + [x]) == if x in Dedup(s) then Dedup(s) else Dedup(s) + [x]
  {
    assert (s + [x])[..|s|] == s;
  }

  /** The position where `x` first occurs in `s`. */
  function FirstIndex<T(==)>(s: seq<T>, x: T): (k: nat)
    requires x in s
    ensures k < |s| && s[k] == x && x !in s[..k]
  {
    if s[0] == x then 0
    else
      var k := FirstIndex(s[1..], x);
      assert s[..k + 1] == [s[0]] + s[1..][..k];
      k + 1
  }

  lemma {:induction false} FirstIndexOfPrefix<T>(a: seq<T>, b: seq<T>, x: T)
    requires x in a
    ensures FirstIndex(a + b, x) == FirstIndex(a, x)
  {
    if a[0] != x {
      assert (a + b)[1..] == a[1..] + b;
      FirstIndexOfPrefix(a[1..], b, x);
    }
  }

  /** The order `Dedup` produces is the order of first appearance in `s`. */
  lemma {:induction false} DedupKeepsFirstAppearanceOrder<T(!new)>(s: seq<T>)
    ensures forall i, j :: 0 <= i < j < |Dedup(s)| ==>
              FirstIndex(s, Dedup(s)[i]) < FirstIndex(s, Dedup(s)[j])
  {
    if s != [] {
      var p, x := s[..|s| - 1], s[|s| - 1];
      assert s == p + [x];
      DedupKeepsFirstAppearanceOrder(p);
      var d := Dedup(p);
      forall y | y in p
        ensures FirstIndex(s, y) == FirstIndex(p, y)
      {
        FirstIndexOfPrefix(p, [x], y);
      }
      if x !in d {
        assert FirstIndex(s, x) == |p|;
      }
    }
  }

  /** `s.filter(x => key(x) === k)`: the elements of `s` whose key is `k`,
      in input order. */
  function Where<T(!new), K(==)>(s: seq<T>, key: T -> K, k: K): (r: seq<T>)
    ensures |r| <= |s|
    ensures forall x :: x in r <==> x in s && key(x) == k
  {
    if s == [] then []
    else
      assert s == s[..|s| - 1] + [s[|s| - 1]];
      Where(s[..|s| - 1], key, k) + (if key(s[|s| - 1]) == k then [s[|s| - 1]] else [])
  }

  /** The positions of the elements of `s` whose key is `k`, ascending. */
  function IndicesWhere<T, K(==)>(s: seq<T>, key: T -> K, k: K): (idx: seq<nat>)
    ensures forall i :: 0 <= i < |idx| ==> idx[i] < |s|
  {
    if s == [] then []
    else IndicesWhere(s[..|s| - 1], key, k) + (if key(s[|s| - 1]) == k then [|s| - 1] else [])
  }

  /** `idx` lists every position of `s` whose key is `k`, each once, in
      increasing order, and no other position. */
  predicate Enumerates<T, K(==)>(idx: seq<nat>, s: seq<T>, key: T -> K, k: K)
  {
    && (forall i :: 0 <= i < |idx| ==> idx[i] < |s|)
    && (forall i, j :: 0 <= i < j < |idx| ==> idx[i] < idx[j])
    && (forall j :: 0 <= j < |s| ==> (j in idx <==> key(s[j]) == k))
  }

  /** The positions `IndicesWhere` lists are exactly those of the key,
      each once, ascending. */
  lemma {:induction false} IndicesEnumerate<T, K>(s: seq<T>, key: T -> K, k: K)
    ensures Enumerates(IndicesWhere(s, key, k), s, key, k)
  {
    if s != [] {
      var p, x := s[..|s| - 1], s[|s| - 1];
      IndicesEnumerate(p, key, k);
      var ip, idx := IndicesWhere(p, key, k), IndicesWhere(s, key, k);
      assert idx == ip + (if key(x) == k then [|p|] else []);
      forall i, j | 0 <= i < j < |idx|
        ensures idx[i] < idx[j]
      {
        if j >= |ip| {
          assert idx[i] == ip[i] && idx[j] == |p|;
        }
      }
      forall j | 0 <= j < |s|
        ensures j in idx <==> key(s[j]) == k
      {
        if j < |p| {
          assert s[j] == p[j];
          assert j in idx <==> j in ip;
        } else {
          assert |p| !in ip;
        }
      }
    }
  }

  /** `filter` keeps the elements of the key's positions, in input order,
      each once. */
  lemma {:induction false} WhereByIndices<T(!new), K>(s: seq<T>, key: T -> K, k: K)
    ensures var idx := IndicesWhere(s, key, k);
      && Enumerates(idx, s, key, k)
      && |Where(s, key, k)| == |idx|
      && forall i :: 0 <= i < |idx| ==> Where(s, key, k)[i] == s[idx[i]]
  {
    IndicesEnumerate(s, key, k);
    if s != [] {
      var p, x := s[..|s| - 1], s[|s| - 1];
      WhereByIndices(p, key, k);
      var ip, wp := IndicesWhere(p, key, k), Where(p, key, k);
      var idx, w := IndicesWhere(s, key, k), Where(s, key, k);
      assert w == wp + (if key(x) == k then [x] else []);
      assert idx == ip + (if key(x) == k then [|p|] else []);
      forall i | 0 <= i < |idx|
        ensures w[i] == s[idx[i]]
      {
        if i < |ip| {
          assert w[i] == wp[i] && idx[i] == ip[i];
          assert s[ip[i]] == p[ip[i]];
        }
      }
    }
  }

  /** Filtering twice is filtering once by the pair of keys. */
  lemma {:induction false} WhereWhere<T(!new), K1, K2>(s: seq<T>, k1: T -> K1, a: K1, k2: T -> K2, b: K2,
                                                                both: T -> (K1, K2))
    requires forall x :: both(x) == (k1(x), k2(x))
    ensures Where(Where(s, k1, a), k2, b) == Where(s, both, (a, b))
  {
    if s != [] {
      var p, x := s[..|s| - 1], s[|s| - 1];
      WhereWhere(p, k1, a, k2, b, both);
      var w := Where(p, k1, a);
      assert both(x) == (k1(x), k2(x));
      assert Where(s, both, (a, b)) == Where(p, both, (a, b)) + (if both(x) == (a, b) then [x] else []);
      if k1(x) == a {
        var w1 := w + [x];
        assert Where(s, k1, a) == w1;
        assert w1[..|w1| - 1] == w && w1[|w1| - 1] == x;
        assert Where(w1, k2, b) == Where(w, k2, b) + (if k2(x) == b then [x] else []);
      } else {
        assert Where(s, k1, a) == w;
      }
    }
  }

  /** The number of elements of `s` whose key is one of `ks`, counted key by key. */
  function CountByKeys<T(!new), K(==)>(s: seq<T>, key: T -> K, ks: seq<K>): nat
  {
    if ks == [] then 0
    else CountByKeys(s, key, ks[..|ks| - 1]) + |Where(s, key, ks[|ks| - 1])|
  }

  lemma {:induction false} CountByKeysAppend<T(!new), K>(s: seq<T>, x: T, key: T -> K, ks: seq<K>)
    requires Distinct(ks)
    ensures CountByKeys(s + [x], key, ks) == CountByKeys(s, key, ks) + (if key(x) in ks then 1 else 0)
  {
    if ks != [] {
      var init := ks[..|ks| - 1];
      assert ks == init + [ks[|ks| - 1]];
      CountByKeysAppend(s, x, key, init);
      assert (s + [x])[..|s + [x]| - 1] == s;
    }
  }

  lemma {:induction false} WhereNone<T(!new), K>(s: seq<T>, key: T -> K, k: K)
    requires k !in Map(s, key)
    ensures Where(s, key, k) == []
  {
    if s != [] {
      var p := s[..|s| - 1];
      assert Map(s, key)[|s| - 1] == key(s[|s| - 1]);
      assert Map(p, key) == Map(s, key)[..|s| - 1];
      WhereNone(p, key, k);
    }
  }

  /** Grouping by key loses nothing and counts nothing twice: the groups of
      the distinct keys together hold exactly `|s|` elements. */
  lemma {:induction false} GroupsPartition<T(!new), K(!new)>(s: seq<T>, key: T -> K)
    ensures CountByKeys(s, key, Dedup(Map(s, key))) == |s|
  {
    if s != [] {
      var p, x := s[..|s| - 1], s[|s| - 1];
      assert s == p + [x];
      GroupsPartition(p, key);
      GroupsPartitionStep(p, x, key);
    }
  }

  lemma {:induction false} GroupsPartitionStep<T(!new), K(!new)>(p: seq<T>, x: T, key: T -> K)
    ensures CountByKeys(p + [x], key, Dedup(Map(p + [x], key)))
         == CountByKeys(p, key, Dedup(Map(p, key))) + 1
  {
    var s := p + [x];
    var m := Map(p, key);
    var d := Dedup(m);
    MapAppend(p, x, key);
    DedupAppend(m, key(x));
    DedupDistinct(m);
    CountByKeysAppend(p, x, key, d);
    if key(x) !in d {
      WhereNone(p, key, key(x));
      assert s[..|s| - 1] == p;
      assert Where(s, key, key(x)) == [x];
      var d' := d + [key(x)];
      assert d'[..|d'| - 1] == d;
    }
  }
}
