/**
 * Stable insertion sort under a strict order, and when its result does not depend on the input's order; used by
 * policies and receipts.
 */
module Sorting {

  /** A strict order in which every element splits each comparable pair. */
  ghost predicate WeakOrder<T(!new)>(less: (T, T) -> bool) {
    && (forall x, y :: less(x, y) ==> !less(y, x))
    && (forall x, y, z :: less(x, z) ==> less(x, y) || less(y, z))
  }

  ghost predicate TotalOrder<T(!new)>(less: (T, T) -> bool) {
    WeakOrder(less) && forall x, y :: less(x, y) || x == y || less(y, x)
  }

  ghost predicate Sorted<T>(less: (T, T) -> bool, s: seq<T>) {
    forall i, j :: 0 <= i < j < |s| ==> !less(s[j], s[i])
  }

  /** An element goes after those it does not precede. */
  function Insert<T>(less: (T, T) -> bool, s: seq<T>, x: T): (t: seq<T>)
    ensures multiset(t) == multiset(s) + multiset{x}
  {
    if s == [] || !less(x, s[|s| - 1]) then s + [x]
    else
      assert s == s[..|s| - 1] + [s[|s| - 1]];
      Insert(less, s[..|s| - 1], x) + [s[|s| - 1]]
  }

  function Sort<T>(less: (T, T) -> bool, s: seq<T>): (t: seq<T>)
    ensures multiset(t) == multiset(s) && |t| == |s|
  {
    if s == [] then []
    else
      assert s == s[..|s| - 1] + [s[|s| - 1]];
      var t := Insert(less, Sort(less, s[..|s| - 1]), s[|s| - 1]);
      assert |t| == |multiset(t)|;
      t
  }

  lemma {:induction false} InsertSorted<T(!new)>(less: (T, T) -> bool, s: seq<T>, x: T)
    requires WeakOrder(less) && Sorted(less, s)
    ensures Sorted(less, Insert(less, s, x))
  {
    if s != [] {
      var front, last := s[..|s| - 1], s[|s| - 1];
      if less(x, last) {
        InsertSorted(less, front, x);
        var inserted := Insert(less, front, x);
        forall i | 0 <= i < |inserted| ensures !less(last, inserted[i]) {
          assert inserted[i] in multiset(front) + multiset{x};
        }
      } else {
        forall i | 0 <= i < |s| ensures !less(x, s[i]) {
        }
      }
    }
  }

  lemma {:induction false} SortSorted<T(!new)>(less: (T, T) -> bool, s: seq<T>)
    requires WeakOrder(less)
    ensures Sorted(less, Sort(less, s))
  {
    if s != [] {
      SortSorted(less, s[..|s| - 1]);
      InsertSorted(less, Sort(less, s[..|s| - 1]), s[|s| - 1]);
    }
  }

  /** Under a total order, a collection has one sorted arrangement. */
  lemma {:induction false} SortedUnique<T(!new)>(less: (T, T) -> bool, a: seq<T>, b: seq<T>)
    requires TotalOrder(less) && Sorted(less, a) && Sorted(less, b) && multiset(a) == multiset(b)
    ensures a == b
  {
    assert |a| == |multiset(a)| == |b|;
    if a != [] {
      var last := |a| - 1;
      LastAgrees(less, a, b);
      WithoutLast(a);
      WithoutLast(b);
      SortedUnique(less, a[..last], b[..last]);
      SameFrontAndLast(a, b);
    }
  }

  lemma {:induction false} SameFrontAndLast<T>(a: seq<T>, b: seq<T>)
    requires |a| == |b| > 0 && a[..|a| - 1] == b[..|b| - 1] && a[|a| - 1] == b[|b| - 1]
    ensures a == b
  {
    assert a == a[..|a| - 1] + [a[|a| - 1]] && b == b[..|b| - 1] + [b[|b| - 1]];
  }

  lemma {:induction false} WithoutLast<T>(s: seq<T>)
    requires s != []
    ensures multiset(s[..|s| - 1]) == multiset(s) - multiset{s[|s| - 1]}
  {
    assert s == s[..|s| - 1] + [s[|s| - 1]];
  }

  lemma {:induction false} LastAgrees<T(!new)>(less: (T, T) -> bool, a: seq<T>, b: seq<T>)
    requires TotalOrder(less) && Sorted(less, a) && Sorted(less, b) && multiset(a) == multiset(b) && |a| == |b| > 0
    ensures a[|a| - 1] == b[|b| - 1]
  {
    var x, y := a[|a| - 1], b[|b| - 1];
    assert x in multiset(b) && y in multiset(a);
    var i :| 0 <= i < |b| && b[i] == x;
    var j :| 0 <= j < |a| && a[j] == y;
  }

  /** Sorting forgets the order of its input. */
  lemma {:induction false} SortForgetsOrder<T(!new)>(less: (T, T) -> bool, a: seq<T>, b: seq<T>)
    requires TotalOrder(less)
    ensures multiset(a) == multiset(b) <==> Sort(less, a) == Sort(less, b)
  {
    SortSorted(less, a);
    SortSorted(less, b);
    if multiset(a) == multiset(b) {
      SortedUnique(less, Sort(less, a), Sort(less, b));
    }
  }
}
