/**
 * `Array.prototype.sort` with a numeric comparator `(a, b) => key(a) - key(b)`.
 * The language requires this sort to be stable, and a stable sort by a key has only one
 * possible result (StableSortUnique), so the insertion sort below stands for whatever
 * algorithm the engine uses.
 */
module StableSort {

  /** Inserts `x` before the first element whose key is at least its own. */
  function Insert<T>(x: T, ys: seq<T>, key: T -> int): (r: seq<T>)
    ensures |r| == |ys| + 1
    ensures multiset(r) == multiset(ys) + multiset{x}
  {
    if ys == [] || key(x) <= key(ys[0]) then [x] + ys
    else
      assert ys == [ys[0]] + ys[1..];
      [ys[0]] + Insert(x, ys[1..], key)
  }

  /** Sorts by ascending key, keeping equal keys in their input order. */
  function SortBy<T>(xs: seq<T>, key: T -> int): (r: seq<T>)
    ensures |r| == |xs|
    ensures multiset(r) == multiset(xs)
  {
    if xs == [] then []
    else
      assert xs == [xs[0]] + xs[1..];
      Insert(xs[0], SortBy(xs[1..], key), key)
  }

  ghost predicate SortedBy<T>(xs: seq<T>, key: T -> int) {
    forall i, j :: 0 <= i < j < |xs| ==> key(xs[i]) <= key(xs[j])
  }

  /** The elements whose key is `k`, in order. */
  function WithKey<T>(xs: seq<T>, key: T -> int, k: int): (r: seq<T>)
    ensures forall i :: 0 <= i < |r| ==> key(r[i]) == k
  {
    if xs == [] then []
    else (if key(xs[0]) == k then [xs[0]] else []) + WithKey(xs[1..], key, k)
  }

  /** Stability means: for every key, the elements carrying it keep their relative order. */
  ghost predicate SameKeyOrder<T>(a: seq<T>, b: seq<T>, key: T -> int) {
    forall k :: WithKey(a, key, k) == WithKey(b, key, k)
  }

  lemma {:induction false} InsertSorted<T>(x: T, ys: seq<T>, key: T -> int)
    requires SortedBy(ys, key)
    ensures SortedBy(Insert(x, ys, key), key)
  {
    if ys != [] && key(x) > key(ys[0]) {
      SortedTail(ys, key);
      InsertSorted(x, ys[1..], key);
      InsertAbove(x, ys[1..], key, key(ys[0]));
      assert Insert(x, ys, key) == [ys[0]] + Insert(x, ys[1..], key);
    }
  }

  /** A bound below `x` and every element of `ys` bounds every element of the insertion. */
  lemma {:induction false} InsertAbove<T>(x: T, ys: seq<T>, key: T -> int, lo: int)
    requires lo <= key(x)
    requires forall i :: 0 <= i < |ys| ==> lo <= key(ys[i])
    ensures forall i :: 0 <= i < |Insert(x, ys, key)| ==> lo <= key(Insert(x, ys, key)[i])
  {
    if ys != [] && key(x) > key(ys[0]) {
      InsertAbove(x, ys[1..], key, lo);
      var r := Insert(x, ys, key);
      assert r == [ys[0]] + Insert(x, ys[1..], key);
      forall i | 0 < i < |r| ensures lo <= key(r[i]) {
        assert r[i] == Insert(x, ys[1..], key)[i - 1];
      }
    }
  }

  lemma {:induction false} InsertWithKey<T>(x: T, ys: seq<T>, key: T -> int, k: int)
    requires SortedBy(ys, key)
    ensures WithKey(Insert(x, ys, key), key, k)
         == (if key(x) == k then [x] else []) + WithKey(ys, key, k)
  {
    if ys == [] || key(x) <= key(ys[0]) {
      assert Insert(x, ys, key) == [x] + ys;
      assert ([x] + ys)[1..] == ys;
    } else {
      InsertWithKey(x, ys[1..], key, k);
      var r := Insert(x, ys, key);
      assert r == [ys[0]] + Insert(x, ys[1..], key);
      assert r[1..] == Insert(x, ys[1..], key);
      // ys[0] has a key below x's, so it cannot carry k when x does
      if key(x) == k {
        assert key(ys[0]) != k;
      }
    }
  }

  /** SortBy sorts, permutes, and is stable. */
  lemma {:induction false} SortByCorrect<T>(xs: seq<T>, key: T -> int)
    ensures SortedBy(SortBy(xs, key), key)
    ensures multiset(SortBy(xs, key)) == multiset(xs)
    ensures SameKeyOrder(SortBy(xs, key), xs, key)
  {
    if xs != [] {
      SortByCorrect(xs[1..], key);
      var tail := SortBy(xs[1..], key);
      InsertSorted(xs[0], tail, key);
      forall k ensures WithKey(SortBy(xs, key), key, k) == WithKey(xs, key, k) {
        InsertWithKey(xs[0], tail, key, k);
      }
    }
  }

  lemma {:induction false} WithKeyNonEmpty<T>(xs: seq<T>, key: T -> int, k: int)
    requires WithKey(xs, key, k) != []
    ensures exists i :: 0 <= i < |xs| && key(xs[i]) == k
  {
    if key(xs[0]) != k {
      WithKeyNonEmpty(xs[1..], key, k);
      var i :| 0 <= i < |xs[1..]| && key(xs[1..][i]) == k;
      assert key(xs[i + 1]) == k;
    }
  }

  lemma SameKeyOrderEmpty<T>(a: seq<T>, b: seq<T>, key: T -> int)
    requires SameKeyOrder(a, b, key)
    ensures a == [] <==> b == []
  {
    if a != [] {
      assert WithKey(a, key, key(a[0])) != [];
      assert WithKey(b, key, key(a[0])) != [];
    }
    if b != [] {
      assert WithKey(b, key, key(b[0])) != [];
      assert WithKey(a, key, key(b[0])) != [];
    }
  }

  /** Two stable sortings of the same input agree: sorted, with the same order among
      equal keys, means equal. */
  lemma {:induction false} StableSortUnique<T>(a: seq<T>, b: seq<T>, key: T -> int)
    requires SortedBy(a, key) && SortedBy(b, key)
    requires SameKeyOrder(a, b, key)
    ensures a == b
  {
    SameKeyOrderEmpty(a, b, key);
    if a != [] {
      SameHead(a, b, key);
      SameKeyOrderTail(a, b, key);
      SortedTail(a, key);
      SortedTail(b, key);
      StableSortUnique(a[1..], b[1..], key);
      assert a == [a[0]] + a[1..] && b == [b[0]] + b[1..];
    }
  }

  /** Both sortings start with the same element: the first element of the smallest key. */
  lemma SameHead<T>(a: seq<T>, b: seq<T>, key: T -> int)
    requires SortedBy(a, key) && SortedBy(b, key)
    requires SameKeyOrder(a, b, key)
    requires a != [] && b != []
    ensures a[0] == b[0]
  {
    var ka, kb := key(a[0]), key(b[0]);
    assert WithKey(a, key, ka) != [];
    assert WithKey(b, key, ka) != [];
    WithKeyNonEmpty(b, key, ka);
    assert WithKey(b, key, kb) != [];
    assert WithKey(a, key, kb) != [];
    WithKeyNonEmpty(a, key, kb);
    assert ka == kb;
    assert WithKey(a, key, ka) == [a[0]] + WithKey(a[1..], key, ka);
    assert WithKey(b, key, ka) == [b[0]] + WithKey(b[1..], key, ka);
    assert WithKey(a, key, ka)[0] == a[0] && WithKey(b, key, ka)[0] == b[0];
  }

  lemma SameKeyOrderTail<T>(a: seq<T>, b: seq<T>, key: T -> int)
    requires SameKeyOrder(a, b, key)
    requires a != [] && b != [] && a[0] == b[0]
    ensures SameKeyOrder(a[1..], b[1..], key)
  {
    forall k ensures WithKey(a[1..], key, k) == WithKey(b[1..], key, k) {
      var pre := if key(a[0]) == k then [a[0]] else [];
      assert WithKey(a, key, k) == pre + WithKey(a[1..], key, k);
      assert WithKey(b, key, k) == pre + WithKey(b[1..], key, k);
      assert WithKey(a[1..], key, k) == WithKey(a, key, k)[|pre|..];
      assert WithKey(b[1..], key, k) == WithKey(b, key, k)[|pre|..];
    }
  }

  lemma SortedTail<T>(a: seq<T>, key: T -> int)
    requires SortedBy(a, key) && a != []
    ensures SortedBy(a[1..], key)
  {
    forall i, j | 0 <= i < j < |a[1..]| ensures key(a[1..][i]) <= key(a[1..][j]) {
      assert a[1..][i] == a[i + 1] && a[1..][j] == a[j + 1];
    }
  }
}
