/** Strings as the worker uses them: JavaScript's default ordering (the one
    `Array.prototype.sort()` applies when given no comparator), sorting, and
    decimal rendering of numbers (`toString`, `padStart`). */
module Strings {

  import opened Sequences

  /** `a < b` on strings: lexicographic, character by character, a proper
      prefix coming first. */
  predicate Below(a: string, b: string)
  {
    if a == [] then b != []
    else if b == [] then false
    else if a[0] != b[0] then a[0] < b[0]
    else Below(a[1..], b[1..])
  }

  lemma {:induction false} BelowIrreflexive(a: string)
    ensures !Below(a, a)
  {
    if a != [] {
      BelowIrreflexive(a[1..]);
    }
  }

  lemma {:induction false} BelowTransitive(a: string, b: string, c: string)
    requires Below(a, b) && Below(b, c)
    ensures Below(a, c)
  {
    if a != [] && a[0] == b[0] && b[0] == c[0] {
      BelowTransitive(a[1..], b[1..], c[1..]);
    }
  }

  lemma {:induction false} BelowTotal(a: string, b: string)
    ensures a == b || Below(a, b) || Below(b, a)
  {
    if a != [] && b != [] && a[0] == b[0] {
      BelowTotal(a[1..], b[1..]);
      assert a == [a[0]] + a[1..] && b == [b[0]] + b[1..];
    }
  }

  lemma {:induction false} BelowAsymmetric(a: string, b: string)
    requires Below(a, b)
    ensures !Below(b, a)
  {
    if Below(b, a) {
      BelowTransitive(a, b, a);
      BelowIrreflexive(a);
    }
  }

  /** Comparing `a + s` with `b + t` for `|a| == |b|` compares `a` with `b`
      first and the tails only on a tie. */
  lemma {:induction false} BelowConcat(a: string, s: string, b: string, t: string)
    requires |a| == |b|
    ensures Below(a + s, b + t) <==> Below(a, b) || (a == b && Below(s, t))
  {
    if a != [] {
      assert (a + s)[1..] == a[1..] + s && (b + t)[1..] == b[1..] + t;
      BelowConcat(a[1..], s, b[1..], t);
      if a[0] == b[0] {
        assert a == b <==> a[1..] == b[1..] by {
          assert a == [a[0]] + a[1..] && b == [b[0]] + b[1..];
        }
      }
    } else {
      assert a + s == s && b + t == t;
    }
  }

  /** Ascending with repeats allowed, as `sort()` leaves duplicates. */
  predicate Sorted(s: seq<string>)
  {
    forall i, j :: 0 <= i < j < |s| ==> !Below(s[j], s[i])
  }

  predicate StrictlyAscending(s: seq<string>)
  {
    forall i, j :: 0 <= i < j < |s| ==> Below(s[i], s[j])
  }

  lemma {:induction false} NotBelowTransitive(a: string, b: string, c: string)
    requires !Below(b, a) && !Below(c, b)
    ensures !Below(c, a)
  {
    BelowTotal(a, b);
    if Below(c, a) && Below(a, b) {
      BelowTransitive(c, a, b);
    }
  }

  function Insert(x: string, s: seq<string>): (r: seq<string>)
    ensures multiset(r) == multiset(s) + multiset{x}
  {
    if s == [] then [x]
    else if Below(s[0], x) then
      assert s == [s[0]] + s[1..];
      [s[0]] + Insert(x, s[1..])
    else [x] + s
  }

  lemma {:induction false} ConsKeepsSorted(a: string, rest: seq<string>)
    requires Sorted(rest)
    requires forall k :: 0 <= k < |rest| ==> !Below(rest[k], a)
    ensures Sorted([a] + rest)
  {
    var r := [a] + rest;
    forall i, j | 0 <= i < j < |r|
      ensures !Below(r[j], r[i])
    {
      assert r[j] == rest[j - 1];
      if i > 0 {
        assert r[i] == rest[i - 1];
      }
    }
  }

  lemma {:induction false} InsertKeepsSorted(x: string, s: seq<string>)
    requires Sorted(s)
    ensures Sorted(Insert(x, s))
  {
    if s != [] {
      if Below(s[0], x) {
        var rest := Insert(x, s[1..]);
        assert Sorted(s[1..]) by {
          forall i, j | 0 <= i < j < |s[1..]|
            ensures !Below(s[1..][j], s[1..][i])
          {
            assert s[1..][j] == s[j + 1] && s[1..][i] == s[i + 1];
          }
        }
        InsertKeepsSorted(x, s[1..]);
        forall k | 0 <= k < |rest|
          ensures !Below(rest[k], s[0])
        {
          assert rest[k] in multiset(rest);
          if rest[k] == x {
            BelowAsymmetric(s[0], x);
          } else {
            var m :| 0 <= m < |s[1..]| && s[1..][m] == rest[k];
            assert s[m + 1] == rest[k];
          }
        }
        ConsKeepsSorted(s[0], rest);
      } else {
        BelowIrreflexive(s[0]);
        forall k | 0 <= k < |s|
          ensures !Below(s[k], x)
        {
          if k > 0 {
            NotBelowTransitive(x, s[0], s[k]);
          }
        }
        ConsKeepsSorted(x, s);
      }
    }
  }

  /** `s.sort()` on strings: a sorted permutation of `s`. */
  function Sort(s: seq<string>): (r: seq<string>)
    ensures Sorted(r)
    ensures multiset(r) == multiset(s)
  {
    if s == [] then []
    else
      assert s == s[..|s| - 1] + [s[|s| - 1]];
      InsertKeepsSorted(s[|s| - 1], Sort(s[..|s| - 1]));
      Insert(s[|s| - 1], Sort(s[..|s| - 1]))
  }

  lemma {:induction false} InsertKeepsDistinct(x: string, s: seq<string>)
    requires Sorted(s) && Distinct(s) && x !in s
    ensures Distinct(Insert(x, s))
  {
    if s != [] && Below(s[0], x) {
      assert s == [s[0]] + s[1..];
      InsertKeepsDistinct(x, s[1..]);
      var rest := Insert(x, s[1..]);
      assert s[0] !in multiset(rest);
    }
  }

  lemma {:induction false} SortKeepsDistinct(s: seq<string>)
    requires Distinct(s)
    ensures Distinct(Sort(s))
  {
    if s != [] {
      var p := s[..|s| - 1];
      assert s == p + [s[|s| - 1]];
      SortKeepsDistinct(p);
      assert s[|s| - 1] !in multiset(Sort(p));
      InsertKeepsDistinct(s[|s| - 1], Sort(p));
    }
  }

  /** Sorting a sequence without repeats gives a strictly ascending one. */
  lemma {:induction false} SortOfDistinctIsStrict(s: seq<string>)
    requires Distinct(s)
    ensures StrictlyAscending(Sort(s))
  {
    var r := Sort(s);
    SortKeepsDistinct(s);
    forall i, j | 0 <= i < j < |r|
      ensures Below(r[i], r[j])
    {
      BelowTotal(r[i], r[j]);
    }
  }

  /** `Array.from(new Set(s)).sort()`: the distinct elements of `s`, strictly
      ascending. */
  function SortedDistinct(s: seq<string>): (r: seq<string>)
    ensures StrictlyAscending(r)
    ensures forall x :: x in r <==> x in s
  {
    SortedDistinctFacts(s);
    Sort(Dedup(s))
  }

  lemma {:induction false} SortedDistinctFacts(s: seq<string>)
    ensures StrictlyAscending(Sort(Dedup(s)))
    ensures forall x :: x in Sort(Dedup(s)) <==> x in s
  {
    var d := Dedup(s);
    var r := Sort(d);
    DedupDistinct(s);
    SortOfDistinctIsStrict(d);
    forall x
      ensures x in r <==> x in s
    {
      assert x in r <==> x in multiset(r);
      assert x in d <==> x in multiset(d);
    }
  }

  /** A strictly ascending sequence is determined by its elements: sorting
      gives the same result whatever order the elements were enumerated in. */
  lemma {:induction false} SortedUnique(a: seq<string>, b: seq<string>)
    requires StrictlyAscending(a) && StrictlyAscending(b)
    requires forall x :: x in a <==> x in b
    ensures a == b
  {
    assert a != [] ==> a[0] in b;
    assert b != [] ==> b[0] in a;
    if a != [] {
      if a[0] != b[0] {
        assert a[0] in b && b[0] in a;
        BelowAsymmetric(b[0], a[0]);
      }
      forall x
        ensures x in a[1..] <==> x in b[1..]
      {
        if x in a[1..] {
          var k :| 0 <= k < |a[1..]| && a[1..][k] == x;
          assert Below(a[0], a[k + 1]);
          BelowIrreflexive(a[0]);
          assert x in b;
        }
        if x in b[1..] {
          var k :| 0 <= k < |b[1..]| && b[1..][k] == x;
          assert Below(b[0], b[k + 1]);
          BelowIrreflexive(b[0]);
          assert x in a;
        }
      }
      SortedUnique(a[1..], b[1..]);
      assert a == [a[0]] + a[1..] && b == [b[0]] + b[1..];
    }
  }

  /** Sorting any repeat-free enumeration of the elements of `s` gives
      `SortedDistinct(s)`, whatever the enumeration order. */
  lemma {:induction false} SortOfAnyEnumeration(e: seq<string>, s: seq<string>)
    requires Distinct(e)
    requires forall x :: x in e <==> x in s
    ensures Sort(e) == SortedDistinct(s)
  {
    SortOfDistinctIsStrict(e);
    forall x
      ensures x in Sort(e) <==> x in SortedDistinct(s)
    {
      assert x in Sort(e) <==> x in multiset(Sort(e));
    }
    SortedUnique(Sort(e), SortedDistinct(s));
  }

  /** `s.split(sep)[0]`: everything before the first `sep`, or all of `s`. */
  function BeforeFirst(s: string, sep: char): (r: string)
    ensures |r| <= |s| && r == s[..|r|] && sep !in r
    ensures |r| < |s| ==> s[|r|] == sep
  {
    if s == [] || s[0] == sep then []
    else
      var r := BeforeFirst(s[1..], sep);
      assert [s[0]] + r == s[..|r| + 1];
      [s[0]] + r
  }

  lemma {:induction false} BeforeFirstOfJoin(a: string, sep: char, b: string)
    requires sep !in a
    ensures BeforeFirst(a + [sep] + b, sep) == a
  {
    if a != [] {
      assert (a + [sep] + b)[1..] == a[1..] + [sep] + b;
      BeforeFirstOfJoin(a[1..], sep, b);
    }
  }
}
