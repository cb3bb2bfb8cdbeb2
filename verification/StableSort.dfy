/** Stable sorting by a key, as sort.SliceStable does it, with merging and taking prefixes. */
module StableSort {
  /** Insert x before the first element whose key is not smaller. */
  function Insert<T>(x: T, s: seq<T>, key: T -> real): seq<T> {
    if s == [] || key(x) <= key(s[0]) then [x] + s else [s[0]] + Insert(x, s[1..], key)
  }

  function Sort<T>(s: seq<T>, key: T -> real): (r: seq<T>)
    ensures |r| == |s|
  {
    if s == [] then [] else
      InsertLength(s[0], Sort(s[1..], key), key);
      Insert(s[0], Sort(s[1..], key), key)
  }

  lemma {:induction false} InsertLength<T>(x: T, s: seq<T>, key: T -> real)
    ensures |Insert(x, s, key)| == |s| + 1
  {
    if s != [] && key(x) > key(s[0]) {
      InsertLength(x, s[1..], key);
    }
  }

  ghost predicate Sorted<T>(s: seq<T>, key: T -> real) {
    forall i :: 0 < i < |s| ==> key(s[i - 1]) <= key(s[i])
  }

  lemma {:induction false} SortedPairs<T>(s: seq<T>, key: T -> real, i: nat, j: nat)
    requires Sorted(s, key) && i <= j < |s|
    ensures key(s[i]) <= key(s[j])
    decreases j
  {
    if i < j {
      SortedPairs(s, key, i, j - 1);
    }
  }

  /** The elements with one key, in order. */
  function WithKey<T>(s: seq<T>, key: T -> real, k: real): seq<T> {
    if s == [] then [] else (if key(s[0]) == k then [s[0]] else []) + WithKey(s[1..], key, k)
  }

  // ---- what the sort is ----

  lemma {:induction false} InsertSorted<T>(x: T, s: seq<T>, key: T -> real)
    requires Sorted(s, key)
    ensures Sorted(Insert(x, s, key), key)
    ensures multiset(Insert(x, s, key)) == multiset{x} + multiset(s)
  {
    if s != [] && key(x) > key(s[0]) {
      assert s == [s[0]] + s[1..];
      InsertSorted(x, s[1..], key);
      var t := Insert(x, s[1..], key);
      assert t[0] == x || (|s| > 1 && t[0] == s[1]);
    }
  }

  /** The sort is a sorted permutation. */
  lemma {:induction false} SortSorts<T>(s: seq<T>, key: T -> real)
    ensures Sorted(Sort(s, key), key)
    ensures multiset(Sort(s, key)) == multiset(s)
  {
    if s != [] {
      SortSorts(s[1..], key);
      InsertSorted(s[0], Sort(s[1..], key), key);
      assert s == [s[0]] + s[1..];
    }
  }

  lemma WithKeyCons<T>(x: T, s: seq<T>, key: T -> real, k: real)
    ensures WithKey([x] + s, key, k) == (if key(x) == k then [x] else []) + WithKey(s, key, k)
  {
  }

  lemma {:induction false} InsertKeepsOrder<T>(x: T, s: seq<T>, key: T -> real, k: real)
    ensures WithKey(Insert(x, s, key), key, k) == (if key(x) == k then [x] else []) + WithKey(s, key, k)
  {
    hide WithKey;
    if s == [] || key(x) <= key(s[0]) {
      WithKeyCons(x, s, key, k);
    } else {
      InsertKeepsOrder(x, s[1..], key, k);
      WithKeyCons(s[0], Insert(x, s[1..], key), key, k);
      WithKeyCons(s[0], s[1..], key, k);
      assert [s[0]] + s[1..] == s;
    }
  }

  /** The sort is stable: elements with equal keys keep their order. */
  lemma {:induction false} SortIsStable<T>(s: seq<T>, key: T -> real, k: real)
    ensures WithKey(Sort(s, key), key, k) == WithKey(s, key, k)
  {
    if s != [] {
      SortIsStable(s[1..], key, k);
      SortSorts(s[1..], key);
      InsertKeepsOrder(s[0], Sort(s[1..], key), key, k);
    }
  }

  // ---- merging ----

  /** Merge two sorted lists; on equal keys the left one goes first. */
  function Merge<T>(a: seq<T>, b: seq<T>, key: T -> real): seq<T>
    decreases |a| + |b|
  {
    if a == [] then b
    else if b == [] then a
    else if key(a[0]) <= key(b[0]) then [a[0]] + Merge(a[1..], b, key)
    else [b[0]] + Merge(a, b[1..], key)
  }

  lemma {:induction false} InsertIntoMerge<T>(x: T, a: seq<T>, b: seq<T>, key: T -> real)
    requires Sorted(a, key) && Sorted(b, key)
    ensures Insert(x, Merge(a, b, key), key) == Merge(Insert(x, a, key), b, key)
    decreases |a| + |b|
  {
    var xa := Insert(x, a, key);
    if a == [] {
      assert xa == [x];
      InsertIsMerge(x, b, key);
    } else if b == [] {
    } else if key(x) <= key(a[0]) {
      assert xa == [x] + a;
      if key(x) <= key(b[0]) {
        assert xa[1..] == a;
      } else {
        InsertIntoMerge(x, a, b[1..], key);
        assert ([b[0]] + Merge(a, b[1..], key))[1..] == Merge(a, b[1..], key);
      }
    } else {
      assert xa[0] == a[0] && xa[1..] == Insert(x, a[1..], key);
      if key(a[0]) <= key(b[0]) {
        InsertIntoMerge(x, a[1..], b, key);
        assert ([a[0]] + Merge(a[1..], b, key))[1..] == Merge(a[1..], b, key);
      } else {
        InsertIntoMerge(x, a, b[1..], key);
        assert ([b[0]] + Merge(a, b[1..], key))[1..] == Merge(a, b[1..], key);
      }
    }
  }

  lemma {:induction false} InsertIsMerge<T>(x: T, b: seq<T>, key: T -> real)
    ensures Merge([x], b, key) == Insert(x, b, key)
  {
    assert [x][1..] == [];
    if b != [] && key(x) > key(b[0]) {
      InsertIsMerge(x, b[1..], key);
    }
  }

  /** Sorting a concatenation is merging the sorted parts. */
  lemma {:induction false} SortConcat<T>(a: seq<T>, b: seq<T>, key: T -> real)
    ensures Sort(a + b, key) == Merge(Sort(a, key), Sort(b, key), key)
  {
    if a == [] {
      assert a + b == b;
    } else {
      assert (a + b)[1..] == a[1..] + b && (a + b)[0] == a[0];
      SortConcat(a[1..], b, key);
      SortSorts(a[1..], key);
      SortSorts(b, key);
      InsertIntoMerge(a[0], Sort(a[1..], key), Sort(b, key), key);
    }
  }

  lemma {:induction false} SortOfSorted<T>(s: seq<T>, key: T -> real)
    requires Sorted(s, key)
    ensures Sort(s, key) == s
  {
    if s != [] {
      SortOfSorted(s[1..], key);
      assert s == [s[0]] + s[1..];
    }
  }

  // ---- prefixes ----

  function Take<T>(s: seq<T>, n: nat): seq<T> {
    if |s| <= n then s else s[..n]
  }

  lemma TakeCons<T>(x: T, s: seq<T>, n: nat)
    ensures Take([x] + s, n) == if n == 0 then [] else [x] + Take(s, n - 1)
  {
  }

  lemma TakeHead<T>(s: seq<T>, p: nat)
    requires s != [] && p > 0
    ensures Take(s, p) != [] && Take(s, p)[0] == s[0] && Take(s, p)[1..] == Take(s[1..], p - 1)
  {
  }

  lemma TakeTwice<T>(s: seq<T>, p: nat, n: nat)
    requires n <= p
    ensures Take(Take(s, p), n) == Take(s, n)
    ensures Take(s, 0) == [] && (s == [] ==> Take(s, p) == [])
  {
  }

  lemma MergeStep<T>(a: seq<T>, b: seq<T>, key: T -> real)
    ensures a == [] ==> Merge(a, b, key) == b
    ensures b == [] ==> Merge(a, b, key) == a
    ensures a != [] && b != [] && key(a[0]) <= key(b[0]) ==> Merge(a, b, key) == [a[0]] + Merge(a[1..], b, key)
    ensures a != [] && b != [] && key(a[0]) > key(b[0]) ==> Merge(a, b, key) == [b[0]] + Merge(a, b[1..], key)
  {
  }

  /** The first n of a merge need only the first n of each side. */
  lemma {:induction false} TakeMerge<T>(a: seq<T>, b: seq<T>, n: nat, p: nat, q: nat, key: T -> real)
    requires n <= p && n <= q
    ensures Take(Merge(Take(a, p), Take(b, q), key), n) == Take(Merge(a, b, key), n)
    decreases |a| + |b|
  {
    hide Take, Merge;
    var ta, tb := Take(a, p), Take(b, q);
    MergeStep(a, b, key);
    MergeStep(ta, tb, key);
    TakeTwice(a, p, n);
    TakeTwice(b, q, n);
    if n == 0 {
      TakeTwice(Merge(ta, tb, key), 0, 0);
      TakeTwice(Merge(a, b, key), 0, 0);
    } else if a != [] && b != [] {
      TakeHead(a, p);
      TakeHead(b, q);
      if key(a[0]) <= key(b[0]) {
        TakeMerge(a[1..], b, n - 1, p - 1, q, key);
        TakeCons(a[0], Merge(ta[1..], tb, key), n);
        TakeCons(a[0], Merge(a[1..], b, key), n);
      } else {
        TakeMerge(a, b[1..], n - 1, p, q - 1, key);
        TakeCons(b[0], Merge(ta, tb[1..], key), n);
        TakeCons(b[0], Merge(a, b[1..], key), n);
      }
    }
  }

  /** A prefix of a sorted list is sorted. */
  lemma TakeSorted<T>(s: seq<T>, n: nat, key: T -> real)
    requires Sorted(s, key)
    ensures Sorted(Take(s, n), key)
  {
  }

  // ---- one sort of all, from sorted prefixes of the parts ----

  function Concat<T>(parts: seq<seq<T>>): seq<T> {
    if parts == [] then [] else parts[0] + Concat(parts[1..])
  }

  /** The first n of every sorted part, concatenated. */
  function Tops<T>(parts: seq<seq<T>>, n: nat, key: T -> real): seq<T> {
    if parts == [] then [] else Take(Sort(parts[0], key), n) + Tops(parts[1..], n, key)
  }

  /**
    * Fan-out is exact: sorting the first n of each part and keeping the first n gives the first n of all the
    * elements sorted at once.
    */
  lemma {:induction false} TopsAreEnough<T>(parts: seq<seq<T>>, n: nat, key: T -> real)
    ensures Take(Sort(Tops(parts, n, key), key), n) == Take(Sort(Concat(parts), key), n)
  {
    if parts != [] {
      var a, rest := Sort(parts[0], key), Sort(Concat(parts[1..]), key);
      var ta, tops := Take(a, n), Tops(parts[1..], n, key);
      TopsAreEnough(parts[1..], n, key);
      SortSorts(parts[0], key);
      TakeSorted(a, n, key);
      SortOfSorted(ta, key);
      SortConcat(ta, tops, key);
      SortConcat(parts[0], Concat(parts[1..]), key);
      TakeMerge(ta, Sort(tops, key), n, n, n, key);
      TakeMerge(a, rest, n, n, n, key);
      assert Take(ta, n) == ta;
    }
  }

  /** A sorted list with the same elements per key, in the same order, is the stable sort: there is only one. */
  lemma {:induction false} StableSortIsUnique<T>(s: seq<T>, t: seq<T>, key: T -> real)
    requires Sorted(t, key) && forall k :: WithKey(t, key, k) == WithKey(s, key, k)
    ensures t == Sort(s, key)
  {
    SortSorts(s, key);
    forall k ensures WithKey(t, key, k) == WithKey(Sort(s, key), key, k) {
      SortIsStable(s, key, k);
    }
    SameByKeys(t, Sort(s, key), key);
  }

  lemma {:induction false} WithKeyHead<T>(s: seq<T>, key: T -> real)
    requires Sorted(s, key)
    ensures s != [] ==> WithKey(s, key, key(s[0])) != [] && WithKey(s, key, key(s[0]))[0] == s[0]
    ensures forall k :: (s == [] || k < key(s[0])) ==> WithKey(s, key, k) == []
  {
    forall k | s == [] || k < key(s[0]) ensures WithKey(s, key, k) == [] {
      forall i | 0 <= i < |s| ensures key(s[i]) != k {
        SortedPairs(s, key, 0, i);
      }
      NoneWithKey(s, key, k);
    }
  }

  lemma {:induction false} NoneWithKey<T>(s: seq<T>, key: T -> real, k: real)
    requires forall i :: 0 <= i < |s| ==> key(s[i]) != k
    ensures WithKey(s, key, k) == []
  {
    if s != [] {
      NoneWithKey(s[1..], key, k);
    }
  }

  lemma {:induction false} SameByKeys<T>(s: seq<T>, t: seq<T>, key: T -> real)
    requires Sorted(s, key) && Sorted(t, key) && forall k :: WithKey(s, key, k) == WithKey(t, key, k)
    ensures s == t
  {
    WithKeyHead(s, key);
    WithKeyHead(t, key);
    assert |s| > 0 ==> WithKey(t, key, key(s[0])) != [];
    assert |t| > 0 ==> WithKey(s, key, key(t[0])) != [];
    if s != [] {
      assert key(s[0]) == key(t[0]) && s[0] == t[0];
      forall k ensures WithKey(s[1..], key, k) == WithKey(t[1..], key, k) {
        var head := if key(s[0]) == k then [s[0]] else [];
        assert WithKey(s, key, k) == head + WithKey(s[1..], key, k);
        assert WithKey(t, key, k) == head + WithKey(t[1..], key, k);
        assert WithKey(s[1..], key, k) == WithKey(s, key, k)[|head|..];
      }
      SameByKeys(s[1..], t[1..], key);
      assert s == [s[0]] + s[1..] && t == [t[0]] + t[1..];
    }
  }
}
