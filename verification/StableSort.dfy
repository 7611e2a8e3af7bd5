/**
  A stable insertion sort on sequences. `list.sort`, `sorted` and a stable `argsort` are library
  calls in the modelled programs; what those programs rely on is stated here once: the result is a
  permutation, it is sorted, and for a total order it is the only sorted arrangement.
*/
module StableSort {

  /** `before` is a strict order whose incomparability is an equivalence. */
  ghost predicate StrictWeakOrder<T(!new)>(before: (T, T) -> bool) {
    && (forall a, b :: before(a, b) ==> !before(b, a))
    && (forall a, b, c :: before(a, c) ==> before(a, b) || before(b, c))
  }

  ghost predicate Sorted<T>(s: seq<T>, before: (T, T) -> bool) {
    forall i, j :: 0 <= i < j < |s| ==> !before(s[j], s[i])
  }

  /** Inserts `x` behind every element it is not strictly before. */
  function Insert<T>(x: T, s: seq<T>, before: (T, T) -> bool): (r: seq<T>)
    ensures multiset(r) == multiset(s) + multiset{x}
    ensures |r| == |s| + 1
  {
    if s == [] then [x]
    else if before(x, s[|s| - 1]) then
      assert s == s[..|s| - 1] + [s[|s| - 1]];
      Insert(x, s[..|s| - 1], before) + [s[|s| - 1]]
    else s + [x]
  }

  function Sort<T>(s: seq<T>, before: (T, T) -> bool): (r: seq<T>)
    ensures multiset(r) == multiset(s)
    ensures |r| == |s|
  {
    if s == [] then []
    else
      assert s == s[..|s| - 1] + [s[|s| - 1]];
      Insert(s[|s| - 1], Sort(s[..|s| - 1], before), before)
  }

  lemma InsertedElements<T>(x: T, s: seq<T>, before: (T, T) -> bool)
    ensures forall e :: e in Insert(x, s, before) <==> e in s || e == x
  {
    forall e
      ensures e in Insert(x, s, before) <==> e in s || e == x
    {
      assert e in multiset(Insert(x, s, before)) <==> e in multiset(s) + multiset{x};
    }
  }

  lemma {:induction false} InsertKeepsSorted<T(!new)>(x: T, s: seq<T>, before: (T, T) -> bool)
    requires StrictWeakOrder(before)
    requires Sorted(s, before)
    ensures Sorted(Insert(x, s, before), before)
  {
    if s == [] {
    } else {
      var last := s[|s| - 1];
      if before(x, last) {
        var front := s[..|s| - 1];
        InsertKeepsSorted(x, front, before);
        InsertedElements(x, front, before);
        var r := Insert(x, front, before);
        forall i, j | 0 <= i < j < |r + [last]|
          ensures !before((r + [last])[j], (r + [last])[i])
        {
          if j == |r| {
            assert r[i] in r;
            if r[i] != x {
              var k :| 0 <= k < |front| && front[k] == r[i];
              assert s[k] == front[k];
            }
          }
        }
      } else {
        forall i | 0 <= i < |s|
          ensures !before(x, s[i])
        {
          assert i == |s| - 1 || !before(last, s[i]);
        }
      }
    }
  }

  /** The sort sorts: nothing stands behind an element it is strictly before. */
  lemma {:induction false} SortSorts<T(!new)>(s: seq<T>, before: (T, T) -> bool)
    requires StrictWeakOrder(before)
    ensures Sorted(Sort(s, before), before)
  {
    if s != [] {
      SortSorts(s[..|s| - 1], before);
      InsertKeepsSorted(s[|s| - 1], Sort(s[..|s| - 1], before), before);
    }
  }

  lemma SortedElements<T>(s: seq<T>, before: (T, T) -> bool)
    ensures forall e :: e in Sort(s, before) <==> e in s
  {
    forall e
      ensures e in Sort(s, before) <==> e in s
    {
      assert e in multiset(Sort(s, before)) <==> e in multiset(s);
    }
  }

  ghost predicate Distinct<T>(s: seq<T>) {
    forall i, j :: 0 <= i < j < |s| ==> s[i] != s[j]
  }

  lemma DistinctByMultiset<T>(s: seq<T>)
    ensures Distinct(s) <==> forall e :: multiset(s)[e] <= 1
  {
    if Distinct(s) {
      forall e
        ensures multiset(s)[e] <= 1
      {
        MultiplicityOfDistinct(s, e);
      }
    } else {
      var i, j :| 0 <= i < j < |s| && s[i] == s[j];
      assert s == s[..i] + [s[i]] + s[i + 1..j] + [s[j]] + s[j + 1..];
      assert multiset(s)[s[i]] >= 2;
    }
  }

  lemma {:induction false} MultiplicityOfDistinct<T>(s: seq<T>, e: T)
    requires Distinct(s)
    ensures multiset(s)[e] <= 1
    ensures e !in s ==> multiset(s)[e] == 0
  {
    if s != [] {
      assert s == s[..|s| - 1] + [s[|s| - 1]];
      MultiplicityOfDistinct(s[..|s| - 1], e);
    }
  }

  /** Sorting repeats nothing and drops nothing. */
  lemma SortKeepsDistinct<T>(s: seq<T>, before: (T, T) -> bool)
    requires Distinct(s)
    ensures Distinct(Sort(s, before))
  {
    DistinctByMultiset(s);
    DistinctByMultiset(Sort(s, before));
  }

  lemma DistinctConcat<T>(a: seq<T>, b: seq<T>)
    requires Distinct(a) && Distinct(b)
    requires forall e :: e in a ==> e !in b
    ensures Distinct(a + b)
  {
    forall i, j | 0 <= i < j < |a + b|
      ensures (a + b)[i] != (a + b)[j]
    {
      if i < |a| && |a| <= j {
        assert a[i] in a && b[j - |a|] in b;
      }
    }
  }
}
