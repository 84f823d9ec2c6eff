/** Sorted arrangements by any strict weak order, and the insertion sort that the request metrics
    use on latencies and the metrics history on bucket keys. */
module Sorting {

  ghost predicate StrictOrder<T(!new)>(less: (T, T) -> bool) {
    && (forall x, y :: less(x, y) ==> !less(y, x))
    && (forall x, y, z :: less(x, z) ==> less(x, y) || less(y, z))
  }

  ghost predicate Sorted<T(!new)>(s: seq<T>, less: (T, T) -> bool) {
    forall i, j :: 0 <= i < j < |s| ==> !less(s[j], s[i])
  }

  /** The first elements are in order but for one on its way down. */
  ghost predicate SortedBut<T(!new)>(s: seq<T>, less: (T, T) -> bool, last: int, moving: int) {
    && 0 <= moving <= last < |s|
    && (forall i, j :: 0 <= i < j <= last && j != moving ==> !less(s[j], s[i]))
  }

  lemma SwapDown<T(!new)>(s: seq<T>, less: (T, T) -> bool, last: int, j: int)
    requires StrictOrder(less) && SortedBut(s, less, last, j) && j > 0 && less(s[j], s[j - 1])
    ensures SortedBut(s[j := s[j - 1]][j - 1 := s[j]], less, last, j - 1)
  {
  }

  lemma Settled<T(!new)>(s: seq<T>, less: (T, T) -> bool, last: int, j: int)
    requires StrictOrder(less) && SortedBut(s, less, last, j)
    requires j > 0 ==> !less(s[j], s[j - 1])
    ensures Sorted(s[..last + 1], less)
  {
    forall i | 0 <= i < j
      ensures !less(s[j], s[i])
    {
      if i < j - 1 {
        assert !less(s[j - 1], s[i]);
      }
    }
  }

  method InsertionSort<T(!new)>(a: array<T>, less: (T, T) -> bool)
    requires StrictOrder(less)
    modifies a
    ensures Sorted(a[..], less)
    ensures multiset(a[..]) == multiset(old(a[..]))
  {
    var i := 1;
    while i < a.Length
      invariant 1 <= i
      invariant i <= a.Length || a.Length == 0
      invariant Sorted(a[..if i <= a.Length then i else 0], less)
      invariant multiset(a[..]) == multiset(old(a[..]))
    {
      var j := i;
      assert SortedBut(a[..], less, i, j) by {
        assert a[..i] == a[..][..i];
      }
      hide Sorted, SortedBut, StrictOrder;
      while j > 0 && less(a[j], a[j - 1])
        invariant 0 <= j <= i
        invariant SortedBut(a[..], less, i, j)
        invariant multiset(a[..]) == multiset(old(a[..]))
      {
        SwapDown(a[..], less, i, j);
        ghost var before := a[..];
        a[j], a[j - 1] := a[j - 1], a[j];
        assert a[..] == before[j := before[j - 1]][j - 1 := before[j]];
        j := j - 1;
      }
      Settled(a[..], less, i, j);
      assert a[..][..i + 1] == a[..i + 1];
      i := i + 1;
    }
    assert a.Length > 0 ==> a[..i] == a[..];
  }

  /** Of these elements only equal ones are unordered. */
  ghost predicate TellsApart<T(!new)>(less: (T, T) -> bool, elements: multiset<T>) {
    forall x, y :: x in elements && y in elements && !less(x, y) && !less(y, x) ==> x == y
  }

  lemma LastIsGreatest<T(!new)>(s: seq<T>, less: (T, T) -> bool, x: T)
    requires StrictOrder(less) && Sorted(s, less) && x in multiset(s)
    ensures !less(s[|s| - 1], x)
  {
    var i :| 0 <= i < |s| && s[i] == x;
  }

  lemma WithoutLast<T>(s: seq<T>)
    requires s != []
    ensures multiset(s[..|s| - 1]) == multiset(s) - multiset{s[|s| - 1]}
    ensures s == s[..|s| - 1] + [s[|s| - 1]]
    ensures s[|s| - 1] in multiset(s)
  {
    assert s == s[..|s| - 1] + [s[|s| - 1]];
  }

  lemma LastsAgree<T(!new)>(s: seq<T>, t: seq<T>, less: (T, T) -> bool)
    requires StrictOrder(less) && TellsApart(less, multiset(s))
    requires Sorted(s, less) && Sorted(t, less) && s != [] && t != [] && multiset(s) == multiset(t)
    ensures s[|s| - 1] == t[|t| - 1]
  {
    WithoutLast(s);
    WithoutLast(t);
    LastIsGreatest(s, less, t[|t| - 1]);
    LastIsGreatest(t, less, s[|s| - 1]);
  }

  // ---------- Arranging sequences ----------

  function Insert<T>(s: seq<T>, x: T, less: (T, T) -> bool): seq<T> {
    if s == [] || !less(x, s[|s| - 1]) then s + [x] else Insert(s[..|s| - 1], x, less) + [s[|s| - 1]]
  }

  lemma {:induction false} InsertKeeps<T>(s: seq<T>, x: T, less: (T, T) -> bool)
    ensures multiset(Insert(s, x, less)) == multiset(s) + multiset{x}
  {
    if s != [] && less(x, s[|s| - 1]) {
      InsertKeeps(s[..|s| - 1], x, less);
      WithoutLast(s);
    }
  }

  /** Appending an element that no element follows. */
  lemma AppendSorts<T(!new)>(s: seq<T>, x: T, less: (T, T) -> bool)
    requires Sorted(s, less) && forall y :: y in multiset(s) ==> !less(x, y)
    ensures Sorted(s + [x], less)
  {
    assert forall i :: 0 <= i < |s| ==> s[i] in multiset(s);
  }

  lemma {:induction false} InsertSorts<T(!new)>(s: seq<T>, x: T, less: (T, T) -> bool)
    requires StrictOrder(less) && Sorted(s, less)
    ensures Sorted(Insert(s, x, less), less)
  {
    if s == [] {
    } else if less(x, s[|s| - 1]) {
      var t, last := s[..|s| - 1], s[|s| - 1];
      assert Sorted(t, less);
      InsertSorts(t, x, less);
      InsertKeeps(t, x, less);
      WithoutLast(s);
      forall y | y in multiset(Insert(t, x, less))
        ensures !less(last, y)
      {
        if y != x {
          assert y in multiset(s);
          LastIsGreatest(s, less, y);
        }
      }
      AppendSorts(Insert(t, x, less), last, less);
    } else {
      forall y | y in multiset(s)
        ensures !less(x, y)
      {
        LastIsGreatest(s, less, y);
      }
      AppendSorts(s, x, less);
    }
  }

  /** The elements in order. */
  function Arranged<T>(s: seq<T>, less: (T, T) -> bool): seq<T> {
    if s == [] then [] else Insert(Arranged(s[..|s| - 1], less), s[|s| - 1], less)
  }

  lemma {:induction false} ArrangedIsSorted<T(!new)>(s: seq<T>, less: (T, T) -> bool)
    requires StrictOrder(less)
    ensures Sorted(Arranged(s, less), less) && multiset(Arranged(s, less)) == multiset(s)
    ensures |Arranged(s, less)| == |s|
  {
    if s != [] {
      ArrangedIsSorted(s[..|s| - 1], less);
      InsertSorts(Arranged(s[..|s| - 1], less), s[|s| - 1], less);
      InsertKeeps(Arranged(s[..|s| - 1], less), s[|s| - 1], less);
      WithoutLast(s);
    }
    assert |multiset(Arranged(s, less))| == |multiset(s)|;
  }

  /** Where only equal elements are unordered, there is one sorted arrangement. */
  lemma {:induction false} ArrangementIsUnique<T(!new)>(s: seq<T>, t: seq<T>, less: (T, T) -> bool)
    requires StrictOrder(less) && TellsApart(less, multiset(s))
    requires Sorted(s, less) && Sorted(t, less) && multiset(s) == multiset(t)
    ensures s == t
  {
    assert |t| == |multiset(t)| == |multiset(s)| == |s|;
    if |s| > 0 {
      hide StrictOrder, TellsApart;
      LastsAgree(s, t, less);
      assert Sorted(s[..|s| - 1], less) && Sorted(t[..|t| - 1], less);
      hide Sorted;
      WithoutLast(s);
      WithoutLast(t);
      ArrangementIsUnique(s[..|s| - 1], t[..|t| - 1], less);
    }
  }
}
