/** Grouping rows into one bar trace per distinct key, in order of first
    appearance, as both chart components do before handing their traces to
    the charting library. */
module Grouping {

  import opened Sequences
  import opened Plotly

  /** The trace of the rows whose key is `k`: their `xOf` and `yOf`
      values in input order, named after the key. */
  function Series<T(!new), X>(s: seq<T>, key: T -> string, k: string, xOf: T -> X, yOf: T -> int): (tr: Trace<X>)
    ensures |tr.x| == |tr.y| == |Where(s, key, k)|
    ensures tr.name == k && tr.kind == BAR
  {
    Trace(Map(Where(s, key, k), xOf), Map(Where(s, key, k), yOf), k, BAR)
  }

  /** One series per key of `keys`, in that order. */
  function SeriesList<T(!new), X>(s: seq<T>, key: T -> string, keys: seq<string>, xOf: T -> X, yOf: T -> int): (traces: seq<Trace<X>>)
    ensures |traces| == |keys|
  {
    seq(|keys|, k requires 0 <= k < |keys| => Series(s, key, keys[k], xOf, yOf))
  }

  /** One series per distinct key of `s`, in order of first appearance. */
  function GroupBy<T(!new), X>(s: seq<T>, key: T -> string, xOf: T -> X, yOf: T -> int): (traces: seq<Trace<X>>)
    ensures |traces| <= |s|
    ensures forall k :: 0 <= k < |traces| ==>
      traces[k].name in Map(s, key) && |traces[k].x| == |traces[k].y| && traces[k].kind == BAR
  {
    SeriesList(s, key, Dedup(Map(s, key)), xOf, yOf)
  }

  lemma {:induction false} SeriesListPointCount<T(!new), X>(s: seq<T>, key: T -> string, keys: seq<string>,
                                                            xOf: T -> X, yOf: T -> int)
    ensures PointCount(SeriesList(s, key, keys, xOf, yOf)) == CountByKeys(s, key, keys)
  {
    if keys != [] {
      var init := keys[..|keys| - 1];
      SeriesListPointCount(s, key, init, xOf, yOf);
      var all := SeriesList(s, key, keys, xOf, yOf);
      assert all[..|all| - 1] == SeriesList(s, key, init, xOf, yOf);
    }
  }

  /** The groups partition the rows: there are as many plotted points as
      rows. */
  lemma {:induction false} GroupByPartition<T(!new), X>(s: seq<T>, key: T -> string, xOf: T -> X, yOf: T -> int)
    ensures PointCount(GroupBy(s, key, xOf, yOf)) == |s|
  {
    SeriesListPointCount(s, key, Dedup(Map(s, key)), xOf, yOf);
    GroupsPartition(s, key);
  }

  /** The traces are named by the distinct keys of `s`, each exactly once,
      in order of first appearance. */
  lemma {:induction false} GroupByNames<T(!new), X>(s: seq<T>, key: T -> string, xOf: T -> X, yOf: T -> int)
    ensures var traces := GroupBy(s, key, xOf, yOf);
      && (forall i, j :: 0 <= i < j < |traces| ==> traces[i].name != traces[j].name)
      && (forall k :: k in Names(traces) <==> exists x :: x in s && key(x) == k)
      && (forall i, j :: 0 <= i < j < |traces| ==>
            FirstIndex(Map(s, key), traces[i].name) < FirstIndex(Map(s, key), traces[j].name))
  {
    var keys := Dedup(Map(s, key));
    var traces := GroupBy(s, key, xOf, yOf);
    DedupKeepsFirstAppearanceOrder(Map(s, key));
    assert Names(traces) == keys;
    forall k
      ensures k in keys <==> exists x :: x in s && key(x) == k
    {
      MapMembers(s, key, k);
    }
  }

  /** Trace `tr` lists, point by point, the rows of `s` whose key is `k`:
      each such row once, in input order, and no other row. */
  ghost predicate RowsInOrder<T, K, X>(tr: Trace<X>, s: seq<T>, key: T -> K, k: K, xOf: T -> X, yOf: T -> int)
  {
    var idx := IndicesWhere(s, key, k);
    && Enumerates(idx, s, key, k)
    && |tr.x| == |idx| && |tr.y| == |idx|
    && forall i :: 0 <= i < |idx| ==> tr.x[i] == xOf(s[idx[i]]) && tr.y[i] == yOf(s[idx[i]])
  }

  /** A series lists the rows of its key in input order. */
  lemma {:induction false} SeriesRowsInOrder<T(!new), X>(s: seq<T>, key: T -> string, k: string, xOf: T -> X, yOf: T -> int)
    ensures RowsInOrder(Series(s, key, k, xOf, yOf), s, key, k, xOf, yOf)
  {
    WhereByIndices(s, key, k);
  }

  /** Every trace lists exactly the rows of its key, each once, in input
      order, with `x` and `y` taken from the same row. */
  lemma {:induction false} GroupByRowsInOrder<T(!new), X>(s: seq<T>, key: T -> string, xOf: T -> X, yOf: T -> int)
    ensures var traces := GroupBy(s, key, xOf, yOf);
      forall k :: 0 <= k < |traces| ==> RowsInOrder(traces[k], s, key, traces[k].name, xOf, yOf)
  {
    var traces := GroupBy(s, key, xOf, yOf);
    var keys := Dedup(Map(s, key));
    forall k | 0 <= k < |traces|
      ensures RowsInOrder(traces[k], s, key, traces[k].name, xOf, yOf)
    {
      assert traces[k] == Series(s, key, keys[k], xOf, yOf);
      SeriesRowsInOrder(s, key, keys[k], xOf, yOf);
    }
  }
}
