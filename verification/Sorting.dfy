/**
  A stable sort by a comparison, and the two facts every use of it needs: the
  result is a permutation in order, and under a strict total order it is the
  only such permutation.

  It stands for `sort.Slice`, `sort.Strings`, `ORDER BY` and JavaScript's
  `Array.prototype.sort`. Where the comparison is not a consistent order those
  may return any permutation; nothing below is claimed then except that the
  elements stay the same.
 */
module Sorting {

  /** Inserts `x` behind every element it is not strictly before. */
  function Insert<T>(less: (T, T) -> bool, x: T, xs: seq<T>): seq<T> {
    if |xs| == 0 then [x]
    else if less(x, xs[|xs| - 1]) then Insert(less, x, xs[..|xs| - 1]) + [xs[|xs| - 1]]
    else xs + [x]
  }

  function SortBy<T>(less: (T, T) -> bool, xs: seq<T>): seq<T> {
    if |xs| == 0 then [] else Insert(less, xs[|xs| - 1], SortBy(less, xs[..|xs| - 1]))
  }

  /** No element stands behind one it is strictly before. */
  ghost predicate Sorted<T(!new)>(less: (T, T) -> bool, xs: seq<T>) {
    forall i, j :: 0 <= i < j < |xs| ==> !less(xs[j], xs[i])
  }

  /** A consistent comparison: asymmetric, with "not before" transitive. */
  ghost predicate WeakOrder<T(!new)>(less: (T, T) -> bool, xs: seq<T>) {
    && (forall a, b :: a in xs && b in xs && less(a, b) ==> !less(b, a))
    && (forall a, b, c :: a in xs && b in xs && c in xs && !less(b, a) && !less(c, b) ==> !less(c, a))
  }

  ghost predicate StrictTotal<T(!new)>(less: (T, T) -> bool, xs: seq<T>) {
    && (forall a, b :: a in xs && b in xs && less(a, b) ==> !less(b, a))
    && (forall a, b, c :: a in xs && b in xs && c in xs && less(a, b) && less(b, c) ==> less(a, c))
    && (forall a, b :: a in xs && b in xs && a != b ==> less(a, b) || less(b, a))
  }

  lemma {:induction false} InsertKeeps<T>(less: (T, T) -> bool, x: T, xs: seq<T>)
    ensures multiset(Insert(less, x, xs)) == multiset(xs) + multiset{x}
  {
    if |xs| > 0 {
      assert xs == xs[..|xs| - 1] + [xs[|xs| - 1]];
      if less(x, xs[|xs| - 1]) {
        InsertKeeps(less, x, xs[..|xs| - 1]);
      }
    }
  }

  /** Sorting neither loses nor adds an element, whatever the comparison. */
  lemma {:induction false} SortKeeps<T>(less: (T, T) -> bool, xs: seq<T>)
    ensures multiset(SortBy(less, xs)) == multiset(xs)
    ensures |SortBy(less, xs)| == |xs|
  {
    if |xs| > 0 {
      var init := xs[..|xs| - 1];
      assert xs == init + [xs[|xs| - 1]];
      SortKeeps(less, init);
      InsertKeeps(less, xs[|xs| - 1], SortBy(less, init));
    }
    assert |multiset(SortBy(less, xs))| == |SortBy(less, xs)|;
    assert |multiset(xs)| == |xs|;
  }

  lemma SortSameElements<T>(less: (T, T) -> bool, xs: seq<T>)
    ensures forall x :: x in SortBy(less, xs) <==> x in xs
  {
    SortKeeps(less, xs);
    forall x ensures x in SortBy(less, xs) <==> x in xs {
      assert x in multiset(SortBy(less, xs)) <==> x in multiset(xs);
    }
  }

  lemma {:induction false} InsertSorts<T(!new)>(less: (T, T) -> bool, x: T, xs: seq<T>, all: seq<T>)
    requires WeakOrder(less, all) && x in all && forall y :: y in xs ==> y in all
    requires Sorted(less, xs)
    ensures Sorted(less, Insert(less, x, xs))
  {
    if |xs| > 0 {
      var last, init := xs[|xs| - 1], xs[..|xs| - 1];
      if less(x, last) {
        InsertSorts(less, x, init, all);
        InsertKeeps(less, x, init);
        var r := Insert(less, x, init);
        forall k | 0 <= k < |r| ensures !less(last, r[k]) {
          assert r[k] in multiset(init) + multiset{x};
          if r[k] != x {
            assert r[k] in init;
          }
        }
      } else {
        forall k | 0 <= k < |xs| ensures !less(x, xs[k]) {
          assert k == |xs| - 1 || !less(last, xs[k]);
        }
      }
    }
  }

  /** A consistent comparison puts the elements in order. */
  lemma {:induction false} SortSorts<T(!new)>(less: (T, T) -> bool, xs: seq<T>)
    requires WeakOrder(less, xs)
    ensures Sorted(less, SortBy(less, xs))
  {
    if |xs| > 0 {
      var init := xs[..|xs| - 1];
      SortSorts(less, init);
      SortSameElements(less, init);
      InsertSorts(less, xs[|xs| - 1], SortBy(less, init), xs);
    }
  }

  lemma StrictTotalIsWeak<T(!new)>(less: (T, T) -> bool, xs: seq<T>)
    requires StrictTotal(less, xs)
    ensures WeakOrder(less, xs)
  {
  }

  lemma SameHead<T(!new)>(less: (T, T) -> bool, xs: seq<T>, ys: seq<T>)
    requires StrictTotal(less, xs)
    requires Sorted(less, xs) && Sorted(less, ys)
    requires multiset(xs) == multiset(ys) && |xs| > 0 && |ys| > 0
    ensures xs[0] == ys[0]
  {
    assert xs[0] in multiset(ys) && ys[0] in multiset(xs);
    var i :| 0 <= i < |xs| && xs[i] == ys[0];
    var j :| 0 <= j < |ys| && ys[j] == xs[0];
    assert i > 0 ==> !less(ys[0], xs[0]);
    assert j > 0 ==> !less(xs[0], ys[0]);
  }

  lemma TailMultiset<T>(xs: seq<T>)
    requires |xs| > 0
    ensures multiset(xs[1..]) == multiset(xs) - multiset{xs[0]}
  {
    assert xs == [xs[0]] + xs[1..];
  }

  lemma TailStrictTotal<T(!new)>(less: (T, T) -> bool, xs: seq<T>)
    requires StrictTotal(less, xs) && |xs| > 0
    ensures StrictTotal(less, xs[1..])
  {
  }

  /** Under a strict total order a collection has one sorted listing. */
  lemma {:induction false} SortedUnique<T(!new)>(less: (T, T) -> bool, xs: seq<T>, ys: seq<T>)
    requires StrictTotal(less, xs)
    requires Sorted(less, xs) && Sorted(less, ys)
    requires multiset(xs) == multiset(ys)
    ensures xs == ys
  {
    assert |xs| == |multiset(xs)| == |multiset(ys)| == |ys|;
    if |xs| > 0 {
      SameHead(less, xs, ys);
      TailMultiset(xs);
      TailMultiset(ys);
      TailStrictTotal(less, xs);
      SortedUnique(less, xs[1..], ys[1..]);
    }
  }

  /** The sorted listing does not depend on the order the elements came in. */
  lemma SortIgnoresInputOrder<T(!new)>(less: (T, T) -> bool, xs: seq<T>, ys: seq<T>)
    requires StrictTotal(less, xs)
    requires multiset(xs) == multiset(ys)
    ensures SortBy(less, xs) == SortBy(less, ys)
  {
    SortKeeps(less, xs);
    SortKeeps(less, ys);
    SortSameElements(less, xs);
    forall x ensures x in ys <==> x in xs {
      assert x in multiset(ys) <==> x in multiset(xs);
    }
    StrictTotalIsWeak(less, xs);
    SortSorts(less, xs);
    SortSorts(less, ys);
    SortedUnique(less, SortBy(less, xs), SortBy(less, ys));
  }

  /** A listing already in order is left as it is. */
  lemma SortOfSorted<T(!new)>(less: (T, T) -> bool, xs: seq<T>, ys: seq<T>)
    requires StrictTotal(less, xs)
    requires multiset(xs) == multiset(ys) && Sorted(less, ys)
    ensures SortBy(less, xs) == ys
  {
    SortKeeps(less, xs);
    SortSameElements(less, xs);
    StrictTotalIsWeak(less, xs);
    SortSorts(less, xs);
    SortedUnique(less, SortBy(less, xs), ys);
  }

  /** An order on the images of the elements is one on the elements. */
  lemma OrderComesBack<T(!new)>(less: (T, T) -> bool, xs: seq<T>, ys: seq<T>)
    requires |xs| == |ys| && StrictTotal(less, ys)
    requires forall i, j :: 0 <= i < |xs| && 0 <= j < |xs| ==> less(ys[i], ys[j]) == less(xs[i], xs[j])
    requires forall i, j :: 0 <= i < |xs| && 0 <= j < |xs| && xs[i] != xs[j] ==> ys[i] != ys[j]
    ensures StrictTotal(less, xs) && (Sorted(less, xs) ==> Sorted(less, ys))
  {
    forall a, b, c | a in xs && b in xs && c in xs
      ensures less(a, b) ==> !less(b, a)
      ensures less(a, b) && less(b, c) ==> less(a, c)
      ensures a != b ==> less(a, b) || less(b, a)
    {
      var i :| 0 <= i < |xs| && xs[i] == a;
      var j :| 0 <= j < |xs| && xs[j] == b;
      var k :| 0 <= k < |xs| && xs[k] == c;
      assert ys[i] in ys && ys[j] in ys && ys[k] in ys;
    }
  }

  /** Two listings of the same elements that are sorted if they can be. */
  lemma SortedIfOrdered<T(!new)>(less: (T, T) -> bool, xs: seq<T>, ys: seq<T>)
    requires StrictTotal(less, xs) && multiset(xs) == multiset(ys)
    requires StrictTotal(less, xs) ==> Sorted(less, xs)
    requires StrictTotal(less, ys) ==> Sorted(less, ys)
    ensures xs == ys
  {
    forall x ensures x in ys <==> x in xs {
      assert x in multiset(ys) <==> x in multiset(xs);
    }
    SortedUnique(less, xs, ys);
  }
}
