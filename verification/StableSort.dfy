/**
 The stable sort by a numeric key that Python's `sorted` promises, which is all that `_sort` in
 app/services/aggregation.py and app/services/hotel_aggregation.py relies on.
 */
module StableSort {

  /** Before everything that is not smaller: `x` came first in the original list. */
  function Insert<T>(x: T, sorted: seq<T>, key: T -> real): seq<T> {
    if sorted == [] || key(x) <= key(sorted[0]) then [x] + sorted
    else [sorted[0]] + Insert(x, sorted[1..], key)
  }

  function Sort<T>(xs: seq<T>, key: T -> real): seq<T> {
    if xs == [] then [] else Insert(xs[0], Sort(xs[1..], key), key)
  }

  predicate Sorted<T>(xs: seq<T>, key: T -> real) {
    forall i, j :: 0 <= i < j < |xs| ==> key(xs[i]) <= key(xs[j])
  }

  /** The elements with one key, in order. */
  function WithKey<T>(xs: seq<T>, key: T -> real, k: real): seq<T> {
    if xs == [] then []
    else if key(xs[0]) == k then [xs[0]] + WithKey(xs[1..], key, k)
    else WithKey(xs[1..], key, k)
  }

  /** Elements with equal keys keep their order, and nothing is lost or invented. */
  ghost predicate SameClasses<T>(xs: seq<T>, ys: seq<T>, key: T -> real) {
    forall k: real :: WithKey(xs, key, k) == WithKey(ys, key, k)
  }

  lemma {:induction false} InsertAdds<T>(x: T, sorted: seq<T>, key: T -> real)
    ensures |Insert(x, sorted, key)| == |sorted| + 1
    ensures multiset(Insert(x, sorted, key)) == multiset(sorted) + multiset{x}
  {
    if !(sorted == [] || key(x) <= key(sorted[0])) {
      InsertAdds(x, sorted[1..], key);
      assert sorted == [sorted[0]] + sorted[1..];
    }
  }

  lemma {:induction false} InsertSorts<T>(x: T, sorted: seq<T>, key: T -> real)
    requires Sorted(sorted, key)
    ensures Sorted(Insert(x, sorted, key), key)
    ensures Insert(x, sorted, key)[0] == x || (sorted != [] && Insert(x, sorted, key)[0] == sorted[0])
  {
    if !(sorted == [] || key(x) <= key(sorted[0])) {
      InsertSorts(x, sorted[1..], key);
      SortedCons(sorted[0], Insert(x, sorted[1..], key), key);
    } else if sorted != [] {
      SortedCons(x, sorted, key);
    }
  }

  lemma SortedCons<T>(x: T, rest: seq<T>, key: T -> real)
    requires Sorted(rest, key) && rest != [] && key(x) <= key(rest[0])
    ensures Sorted([x] + rest, key)
  {
    assert forall j :: 0 <= j < |rest| ==> j == 0 || key(rest[0]) <= key(rest[j]);
  }

  lemma ClassOfCons<T>(x: T, rest: seq<T>, key: T -> real, k: real)
    ensures WithKey([x] + rest, key, k) == if key(x) == k then [x] + WithKey(rest, key, k) else WithKey(rest, key, k)
  {
    assert ([x] + rest)[1..] == rest;
  }

  /** The newcomer goes in front of its class. */
  lemma {:induction false} InsertIsStable<T>(x: T, sorted: seq<T>, key: T -> real, k: real)
    ensures WithKey(Insert(x, sorted, key), key, k) ==
            if key(x) == k then [x] + WithKey(sorted, key, k) else WithKey(sorted, key, k)
  {
    if sorted == [] || key(x) <= key(sorted[0]) {
      ClassOfCons(x, sorted, key, k);
    } else {
      var first, rest := sorted[0], Insert(x, sorted[1..], key);
      InsertIsStable(x, sorted[1..], key, k);
      ClassOfCons(first, rest, key, k);
      assert key(x) != k || key(first) != k;
      if key(x) == k {
        assert [x] + WithKey(sorted, key, k) == WithKey(rest, key, k);
      }
    }
  }

  lemma {:induction false} SortIsStable<T>(xs: seq<T>, key: T -> real)
    ensures Sorted(Sort(xs, key), key)
    ensures SameClasses(Sort(xs, key), xs, key)
    ensures multiset(Sort(xs, key)) == multiset(xs) && |Sort(xs, key)| == |xs|
  {
    if xs != [] {
      var rest := Sort(xs[1..], key);
      SortIsStable(xs[1..], key);
      InsertAdds(xs[0], rest, key);
      InsertSorts(xs[0], rest, key);
      assert xs == [xs[0]] + xs[1..];
      forall k: real
        ensures WithKey(Sort(xs, key), key, k) == WithKey(xs, key, k)
      {
        InsertIsStable(xs[0], rest, key, k);
        assert WithKey(rest, key, k) == WithKey(xs[1..], key, k);
      }
    }
  }

  lemma {:induction false} ClassIsInhabited<T>(xs: seq<T>, key: T -> real, k: real)
    ensures WithKey(xs, key, k) != [] ==> exists i :: 0 <= i < |xs| && key(xs[i]) == k
    ensures forall i :: 0 <= i < |xs| && key(xs[i]) == k ==> WithKey(xs, key, k) != []
  {
    if xs != [] {
      ClassIsInhabited(xs[1..], key, k);
      if key(xs[0]) == k {
      } else if WithKey(xs[1..], key, k) != [] {
        var i :| 0 <= i < |xs[1..]| && key(xs[1..][i]) == k;
        assert key(xs[i + 1]) == k;
      }
      forall i | 0 <= i < |xs| && key(xs[i]) == k
        ensures WithKey(xs, key, k) != []
      {
        assert i == 0 || xs[i] == xs[1..][i - 1];
      }
    }
  }

  lemma SameHead<T>(ys: seq<T>, zs: seq<T>, key: T -> real)
    requires Sorted(ys, key) && Sorted(zs, key) && SameClasses(ys, zs, key) && ys != []
    ensures zs != [] && key(ys[0]) <= key(zs[0])
  {
    var k := key(ys[0]);
    ClassIsInhabited(ys, key, k);
    ClassIsInhabited(zs, key, k);
    assert WithKey(ys, key, k) == WithKey(zs, key, k);
    var m := key(zs[0]);
    ClassIsInhabited(zs, key, m);
    ClassIsInhabited(ys, key, m);
    assert WithKey(ys, key, m) == WithKey(zs, key, m);
  }

  /** Sortedness and stability leave no choice, so any stable sort gives this list. */
  lemma {:induction false} StableSortIsUnique<T>(ys: seq<T>, zs: seq<T>, key: T -> real)
    requires Sorted(ys, key) && Sorted(zs, key) && SameClasses(ys, zs, key)
    ensures ys == zs
  {
    if ys == [] {
      if zs != [] {
        SameHead(zs, ys, key);
      }
    } else {
      SameHead(ys, zs, key);
      SameHead(zs, ys, key);
      var k := key(ys[0]);
      assert WithKey(ys, key, k)[0] == ys[0] && WithKey(zs, key, k)[0] == zs[0];
      assert WithKey(ys, key, k) == WithKey(zs, key, k);
      forall m: real
        ensures WithKey(ys[1..], key, m) == WithKey(zs[1..], key, m)
      {
        assert WithKey(ys, key, m) == WithKey(zs, key, m);
        assert m == k ==> WithKey(ys, key, m)[1..] == WithKey(ys[1..], key, m)
                          && WithKey(zs, key, m)[1..] == WithKey(zs[1..], key, m);
      }
      StableSortIsUnique(ys[1..], zs[1..], key);
      assert ys == [ys[0]] + ys[1..] && zs == [zs[0]] + zs[1..];
    }
  }

  ghost predicate Increasing<T>(xs: seq<T>, rank: T -> int) {
    forall i, j :: 0 <= i < j < |xs| ==> rank(xs[i]) < rank(xs[j])
  }

  lemma {:induction false} ClassMembers<T>(xs: seq<T>, key: T -> real, k: real)
    ensures forall x :: x in WithKey(xs, key, k) ==> x in xs && key(x) == k
    ensures forall x :: x in xs && key(x) == k ==> x in WithKey(xs, key, k)
  {
    if xs != [] {
      ClassMembers(xs[1..], key, k);
      assert xs == [xs[0]] + xs[1..];
    }
  }

  lemma IncreasingCons<T>(x: T, rest: seq<T>, rank: T -> int)
    requires Increasing(rest, rank) && forall y :: y in rest ==> rank(x) < rank(y)
    ensures Increasing([x] + rest, rank)
  {
    assert forall j :: 0 <= j < |rest| ==> rest[j] in rest;
  }

  lemma {:induction false} ClassIncreases<T>(xs: seq<T>, key: T -> real, k: real, rank: T -> int)
    requires Increasing(xs, rank)
    ensures Increasing(WithKey(xs, key, k), rank)
  {
    if xs != [] {
      assert forall i :: 0 <= i < |xs| - 1 ==> xs[1..][i] == xs[i + 1];
      ClassIncreases(xs[1..], key, k, rank);
      ClassMembers(xs[1..], key, k);
      if key(xs[0]) == k {
        forall y | y in WithKey(xs[1..], key, k)
          ensures rank(xs[0]) < rank(y)
        {
          assert y in xs[1..];
          var n :| 0 <= n < |xs[1..]| && xs[1..][n] == y;
          assert xs[n + 1] == y;
        }
        IncreasingCons(xs[0], WithKey(xs[1..], key, k), rank);
      }
    }
  }

  lemma {:induction false} ClassTellsOrder<T>(xs: seq<T>, key: T -> real, k: real, rank: T -> int, i: nat, j: nat)
    requires i < j < |xs| && key(xs[i]) == k == key(xs[j]) && Increasing(WithKey(xs, key, k), rank)
    ensures rank(xs[i]) < rank(xs[j])
  {
    var rest := WithKey(xs[1..], key, k);
    if i == 0 {
      ClassMembers(xs[1..], key, k);
      assert xs[1..][j - 1] == xs[j] && xs[j] in xs[1..];
      var n :| 0 <= n < |rest| && rest[n] == xs[j];
      assert WithKey(xs, key, k)[0] == xs[0] && WithKey(xs, key, k)[n + 1] == rest[n];
    } else {
      assert key(xs[0]) == k ==> forall n :: 0 <= n < |rest| ==> WithKey(xs, key, k)[n + 1] == rest[n];
      assert Increasing(rest, rank);
      ClassTellsOrder(xs[1..], key, k, rank, i - 1, j - 1);
    }
  }

  /** Elements that tie stand in their original order, by whatever rank that order increases. */
  lemma TiesKeepTheirOrder<T>(xs: seq<T>, key: T -> real, rank: T -> int, i: nat, j: nat)
    requires Increasing(xs, rank) && i < j < |Sort(xs, key)|
    requires key(Sort(xs, key)[i]) == key(Sort(xs, key)[j])
    ensures rank(Sort(xs, key)[i]) < rank(Sort(xs, key)[j])
  {
    var k := key(Sort(xs, key)[i]);
    SortIsStable(xs, key);
    ClassIncreases(xs, key, k, rank);
    assert WithKey(Sort(xs, key), key, k) == WithKey(xs, key, k);
    ClassTellsOrder(Sort(xs, key), key, k, rank, i, j);
  }
}
