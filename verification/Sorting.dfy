/** The stable sort behind JavaScript's `Array.prototype.sort`, for a comparator given as "comes before". */
module Sorting {

  /** A comparator a sort may be given: asymmetric, and any third element separates an ordered pair. */
  ghost predicate IsOrder<T(!new)>(less: (T, T) -> bool) {
    && (forall a, b :: less(a, b) ==> !less(b, a))
    && (forall a, b, c :: less(a, c) ==> less(a, b) || less(b, c))
  }

  ghost predicate Sorted<T>(less: (T, T) -> bool, s: seq<T>) {
    forall i, j :: 0 <= i < j < |s| ==> !less(s[j], s[i])
  }

  /** Place `x` after everything it does not come before. */
  function Insert<T>(less: (T, T) -> bool, s: seq<T>, x: T): (r: seq<T>)
    ensures multiset(r) == multiset(s) + multiset{x}
    ensures |r| == |s| + 1
  {
    if s != [] && less(x, s[|s| - 1]) then
      assert s == s[..|s| - 1] + [s[|s| - 1]];
      Insert(less, s[..|s| - 1], x) + [s[|s| - 1]]
    else
      s + [x]
  }

  function Sort<T>(less: (T, T) -> bool, s: seq<T>): (r: seq<T>)
    ensures multiset(r) == multiset(s)
    ensures |r| == |s|
  {
    if s == [] then []
    else
      assert s == s[..|s| - 1] + [s[|s| - 1]];
      Insert(less, Sort(less, s[..|s| - 1]), s[|s| - 1])
  }

  lemma SameElements<T>(r: seq<T>, s: seq<T>)
    requires multiset(r) == multiset(s)
    ensures forall x :: x in r <==> x in s
  {
    forall x
      ensures x in r <==> x in s
    {
      assert x in r <==> x in multiset(r);
      assert x in s <==> x in multiset(s);
    }
  }

  lemma {:induction false} InsertSorted<T(!new)>(less: (T, T) -> bool, s: seq<T>, x: T)
    requires IsOrder(less) && Sorted(less, s)
    ensures Sorted(less, Insert(less, s, x))
  {
    if s != [] && less(x, s[|s| - 1]) {
      var front, last := s[..|s| - 1], s[|s| - 1];
      InsertSorted(less, front, x);
      var r := Insert(less, front, x);
      forall i | 0 <= i < |r|
        ensures !less(last, r[i])
      {
        assert r[i] in multiset(front) + multiset{x};
        if r[i] != x {
          assert r[i] in front;
        }
      }
    } else if s != [] {
      var last := s[|s| - 1];
      assert forall i :: 0 <= i < |s| - 1 && less(x, s[i]) ==> less(x, last) || less(last, s[i]);
    }
  }

  lemma {:induction false} SortSorted<T(!new)>(less: (T, T) -> bool, s: seq<T>)
    requires IsOrder(less)
    ensures Sorted(less, Sort(less, s))
  {
    if s != [] {
      SortSorted(less, s[..|s| - 1]);
      InsertSorted(less, Sort(less, s[..|s| - 1]), s[|s| - 1]);
    }
  }

  /** The order tells any two different elements of `s` apart. */
  ghost predicate Separates<T(!new)>(less: (T, T) -> bool, s: seq<T>) {
    forall x, y :: x in s && y in s && x != y ==> less(x, y) || less(y, x)
  }

  lemma LastIsLast<T(!new)>(less: (T, T) -> bool, s: seq<T>, y: T)
    requires Sorted(less, s) && y in s
    ensures y == s[|s| - 1] || !less(s[|s| - 1], y)
  {
  }

  lemma LastsAgree<T(!new)>(less: (T, T) -> bool, s: seq<T>, t: seq<T>)
    requires Sorted(less, s) && Sorted(less, t) && multiset(s) == multiset(t)
    requires Separates(less, s) && |s| == |t| && s != []
    ensures s[|s| - 1] == t[|t| - 1]
  {
    SameElements(s, t);
    var x, y := s[|s| - 1], t[|t| - 1];
    assert x in t && y in s;
    LastIsLast(less, s, y);
    LastIsLast(less, t, x);
  }

  lemma Shorter<T(!new)>(less: (T, T) -> bool, s: seq<T>)
    requires s != []
    ensures Sorted(less, s) ==> Sorted(less, s[..|s| - 1])
    ensures Separates(less, s) ==> Separates(less, s[..|s| - 1])
  {
    assert forall x :: x in s[..|s| - 1] ==> x in s;
  }

  lemma DropLast<T>(s: seq<T>)
    requires s != []
    ensures multiset(s[..|s| - 1]) == multiset(s) - multiset{s[|s| - 1]}
    ensures s == s[..|s| - 1] + [s[|s| - 1]]
  {
    assert s == s[..|s| - 1] + [s[|s| - 1]];
  }

  /** Then there is only one way to sort them. */
  lemma {:induction false} SortedUnique<T(!new)>(less: (T, T) -> bool, s: seq<T>, t: seq<T>)
    requires Sorted(less, s) && Sorted(less, t) && multiset(s) == multiset(t)
    requires Separates(less, s)
    ensures s == t
    decreases |s|
  {
    hide *;
    SameLength(s, t);
    if s != [] {
      LastsAgree(less, s, t);
      DropLast(s);
      DropLast(t);
      Shorter(less, s);
      Shorter(less, t);
      SortedUnique(less, s[..|s| - 1], t[..|t| - 1]);
    }
  }

  lemma SameLength<T>(s: seq<T>, t: seq<T>)
    requires multiset(s) == multiset(t)
    ensures |s| == |t|
  {
    assert |s| == |multiset(s)| == |multiset(t)| == |t|;
  }

  lemma SortUnique<T(!new)>(less: (T, T) -> bool, s: seq<T>, t: seq<T>)
    requires IsOrder(less) && multiset(s) == multiset(t) && Separates(less, s)
    ensures Sort(less, s) == Sort(less, t)
  {
    SortSorted(less, s);
    SortSorted(less, t);
    SameElements(Sort(less, s), s);
    SortedUnique(less, Sort(less, s), Sort(less, t));
  }

  /** No element is alike an earlier one. */
  ghost predicate NoneAlike<T(!new)>(alike: (T, T) -> bool, s: seq<T>) {
    forall i, j :: 0 <= i < j < |s| ==> !alike(s[i], s[j]) && !alike(s[j], s[i])
  }

  lemma {:induction false} InsertNoneAlike<T(!new)>(less: (T, T) -> bool, alike: (T, T) -> bool, s: seq<T>, x: T)
    requires NoneAlike(alike, s) && forall y :: y in s ==> !alike(x, y) && !alike(y, x)
    ensures NoneAlike(alike, Insert(less, s, x))
  {
    if s != [] && less(x, s[|s| - 1]) {
      var front, last := s[..|s| - 1], s[|s| - 1];
      InsertNoneAlike(less, alike, front, x);
      var r := Insert(less, front, x);
      forall i | 0 <= i < |r|
        ensures !alike(r[i], last) && !alike(last, r[i])
      {
        assert r[i] in multiset(front) + multiset{x};
        if r[i] != x {
          assert r[i] in front;
        }
      }
    }
  }

  /** Sorting keeps the elements unlike one another. */
  lemma {:induction false} SortNoneAlike<T(!new)>(less: (T, T) -> bool, alike: (T, T) -> bool, s: seq<T>)
    requires NoneAlike(alike, s)
    ensures NoneAlike(alike, Sort(less, s))
  {
    if s != [] {
      var front, last := s[..|s| - 1], s[|s| - 1];
      SortNoneAlike(less, alike, front);
      SameElements(Sort(less, front), front);
      InsertNoneAlike(less, alike, Sort(less, front), last);
    }
  }
}
