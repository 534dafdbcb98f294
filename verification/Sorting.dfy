/** Sorting by a strict order, and that what is sorted does not depend on the order it came in. */
module Sorting {

  ghost predicate StrictOrder<T(!new)>(less: (T, T) -> bool) {
    (forall x :: !less(x, x)) && (forall x, y, z :: less(x, y) && less(y, z) ==> less(x, z))
  }

  /** Any two elements are told apart by the order. */
  ghost predicate Comparable<T>(s: seq<T>, less: (T, T) -> bool) {
    forall i, j :: 0 <= i < j < |s| ==> less(s[i], s[j]) || less(s[j], s[i])
  }

  ghost predicate Ascending<T>(s: seq<T>, less: (T, T) -> bool) {
    forall i, j :: 0 <= i < j < |s| ==> less(s[i], s[j])
  }

  function Insert<T>(s: seq<T>, x: T, less: (T, T) -> bool): (r: seq<T>)
    ensures |r| == |s| + 1
  {
    if s == [] then [x] else
      var n := |s| - 1;
      if less(x, s[n]) then Insert(s[..n], x, less) + [s[n]] else s + [x]
  }

  function Sorted<T>(s: seq<T>, less: (T, T) -> bool): (r: seq<T>)
    ensures |r| == |s|
  {
    if s == [] then [] else Insert(Sorted(s[..|s| - 1], less), s[|s| - 1], less)
  }

  ghost predicate AllBelow<T>(s: seq<T>, y: T, less: (T, T) -> bool) {
    forall x :: x in s ==> less(x, y)
  }

  lemma LastIsGreatest<T(!new)>(s: seq<T>, less: (T, T) -> bool)
    requires Ascending(s, less) && s != []
    ensures Ascending(s[..|s| - 1], less) && AllBelow(s[..|s| - 1], s[|s| - 1], less)
    ensures forall x :: x in s <==> x in s[..|s| - 1] || x == s[|s| - 1]
  {
    var n := |s| - 1;
    assert s == s[..n] + [s[n]];
    forall x | x in s[..n] ensures less(x, s[n]) {
      var i :| 0 <= i < n && s[..n][i] == x;
      assert s[i] == x;
    }
  }

  lemma AppendAscends<T(!new)>(s: seq<T>, e: T, less: (T, T) -> bool)
    requires Ascending(s, less) && forall x :: x in s ==> less(x, e)
    ensures Ascending(s + [e], less) && forall x :: x in s + [e] <==> x in s || x == e
  {
    var longer := s + [e];
    forall i, j | 0 <= i < j < |longer| ensures less(longer[i], longer[j]) {
      assert longer[i] == s[i] && s[i] in s;
    }
  }

  lemma {:induction false} InsertSorts<T(!new)>(s: seq<T>, e: T, less: (T, T) -> bool)
    requires StrictOrder(less) && Ascending(s, less) && forall x :: x in s ==> less(x, e) || less(e, x)
    ensures Ascending(Insert(s, e, less), less) && forall x :: x in Insert(s, e, less) <==> x in s || x == e
  {
    if s != [] {
      var n := |s| - 1;
      LastIsGreatest(s, less);
      assert s[n] in s;
      hide Ascending;
      if less(e, s[n]) {
        InsertSorts(s[..n], e, less);
        AppendAscends(Insert(s[..n], e, less), s[n], less);
      } else {
        forall x | x in s ensures less(x, e) {
          assert x == s[n] || (less(x, s[n]) && less(s[n], e));
        }
        AppendAscends(s, e, less);
      }
    }
  }

  lemma LastCompares<T(!new)>(s: seq<T>, sorted: seq<T>, less: (T, T) -> bool)
    requires s != [] && Comparable(s, less) && forall x :: x in sorted <==> x in s[..|s| - 1]
    ensures forall x :: x in sorted ==> less(x, s[|s| - 1]) || less(s[|s| - 1], x)
  {
    var n := |s| - 1;
    forall x | x in sorted ensures less(x, s[n]) || less(s[n], x) {
      var i :| 0 <= i < n && s[..n][i] == x;
      assert s[i] == x;
    }
  }

  lemma ShorterCompares<T(!new)>(s: seq<T>, less: (T, T) -> bool)
    requires s != [] && Comparable(s, less)
    ensures Comparable(s[..|s| - 1], less)
  {
  }

  /** Sorting keeps the elements, and puts them in ascending order. */
  lemma {:induction false} SortedSorts<T(!new)>(s: seq<T>, less: (T, T) -> bool)
    requires StrictOrder(less) && Comparable(s, less)
    ensures Ascending(Sorted(s, less), less) && forall x :: x in Sorted(s, less) <==> x in s
  {
    assert Ascending([], less);
    hide Ascending, Comparable, StrictOrder;
    if s != [] {
      var n := |s| - 1;
      ShorterCompares(s, less);
      SortedSorts(s[..n], less);
      LastCompares(s, Sorted(s[..n], less), less);
      InsertSorts(Sorted(s[..n], less), s[n], less);
      assert s == s[..n] + [s[n]];
    }
  }

  /** An ascending list is determined by its elements. */
  lemma {:induction false} AscendingIsUnique<T(!new)>(a: seq<T>, b: seq<T>, less: (T, T) -> bool)
    requires StrictOrder(less) && Ascending(a, less) && Ascending(b, less) && forall x :: x in a <==> x in b
    ensures a == b
    decreases |a|
  {
    hide Ascending;
    HasFirst(a);
    HasFirst(b);
    if a != [] {
      var m, n := |a| - 1, |b| - 1;
      LastIsGreatest(a, less);
      LastIsGreatest(b, less);
      SameGreatest(a, b, less);
      forall x ensures x in a[..m] <==> x in b[..n] {
        assert (x in a <==> x in a[..m] || x == a[m]) && (x in b <==> x in b[..n] || x == b[n]);
        assert x in a[..m] ==> less(x, a[m]);
        assert x in b[..n] ==> less(x, b[n]);
        assert !less(x, x);
      }
      AscendingIsUnique(a[..m], b[..n], less);
      assert a == a[..m] + [a[m]] && b == b[..n] + [b[n]];
    }
  }

  lemma SameGreatest<T(!new)>(a: seq<T>, b: seq<T>, less: (T, T) -> bool)
    requires StrictOrder(less) && a != [] && b != [] && forall x :: x in a <==> x in b
    requires forall x :: x in a ==> x == a[|a| - 1] || less(x, a[|a| - 1])
    requires forall x :: x in b ==> x == b[|b| - 1] || less(x, b[|b| - 1])
    ensures a[|a| - 1] == b[|b| - 1]
  {
    var x, y := a[|a| - 1], b[|b| - 1];
    assert x in a && y in b;
    assert less(x, y) && less(y, x) ==> less(x, x);
  }

  lemma HasFirst<T(!new)>(s: seq<T>)
    ensures s != [] ==> exists x :: x in s
  {
    if s != [] {
      assert s[0] in s;
    }
  }

  /** Elements that the order tells apart are sorted into one list, in whatever order they come. */
  lemma SortedAlike<T(!new)>(a: seq<T>, b: seq<T>, less: (T, T) -> bool)
    requires StrictOrder(less) && Comparable(a, less) && Comparable(b, less)
    ensures Sorted(a, less) == Sorted(b, less) <==> forall x :: x in a <==> x in b
  {
    SortedSorts(a, less);
    SortedSorts(b, less);
    if forall x :: x in a <==> x in b {
      AscendingIsUnique(Sorted(a, less), Sorted(b, less), less);
    }
  }
}
