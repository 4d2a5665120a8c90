/**
 * Ordering by an integer key (a modification time, a warning interval).
 *
 * Python's `sorted(..., reverse=True)` is stable; the insertion sort below is
 * stable too, so it gives Python's result exactly. Go's `sort.Slice` and
 * `slices.SortFunc` are not stable: the Go models only rely on "ordered and a
 * permutation", which every stable or unstable sort satisfies.
 */
module Ordering {
  predicate Descending<T>(s: seq<T>, key: T -> int) {
    forall i, j :: 0 <= i < j < |s| ==> key(s[i]) >= key(s[j])
  }

  predicate Ascending<T>(s: seq<T>, key: T -> int) {
    forall i, j :: 0 <= i < j < |s| ==> key(s[i]) <= key(s[j])
  }

  lemma DescendingTail<T>(s: seq<T>, key: T -> int)
    requires s != [] && Descending(s, key)
    ensures Descending(s[1..], key)
  {
    forall p, q | 0 <= p < q < |s| - 1 ensures key(s[1..][p]) >= key(s[1..][q]) {
      assert s[1..][p] == s[p + 1] && s[1..][q] == s[q + 1];
    }
  }

  function InsertDescending<T(==)>(x: T, s: seq<T>, key: T -> int): (r: seq<T>)
    requires Descending(s, key)
    ensures Descending(r, key)
    ensures multiset(r) == multiset(s) + multiset{x}
    ensures |r| == |s| + 1 && (r[0] == x || (s != [] && r[0] == s[0]))
  {
    if s == [] || key(x) >= key(s[0]) then [x] + s
    else
      DescendingTail(s, key);
      var t := InsertDescending(x, s[1..], key);
      assert multiset(s) == multiset{s[0]} + multiset(s[1..]) by { assert s == [s[0]] + s[1..]; }
      [s[0]] + t
  }

  /** Newest (largest key) first; equal keys keep their input order. */
  function SortDescending<T(==)>(s: seq<T>, key: T -> int): (r: seq<T>)
    ensures Descending(r, key)
    ensures multiset(r) == multiset(s)
  {
    if s == [] then []
    else
      assert s == [s[0]] + s[1..];
      InsertDescending(s[0], SortDescending(s[1..], key), key)
  }

  /** The elements of `s` whose key is `k`, in their order in `s`. */
  function WithKey<T>(s: seq<T>, key: T -> int, k: int): seq<T> {
    if s == [] then []
    else (if key(s[0]) == k then [s[0]] else []) + WithKey(s[1..], key, k)
  }

  /**
   * Stability: for every key, the elements with that key come out of
   * `SortDescending` in the order they went in, as with Python's stable
   * `sorted(..., reverse=True)`.
   */
  lemma {:induction false} SortKeepsTies<T>(s: seq<T>, key: T -> int, k: int)
    ensures WithKey(SortDescending(s, key), key, k) == WithKey(s, key, k)
  {
    if s != [] {
      SortKeepsTies(s[1..], key, k);
      InsertKeepsTies(s[0], SortDescending(s[1..], key), key, k);
    }
  }

  /** Inserting `x` puts it in front of the elements with its key. */
  lemma {:induction false} InsertKeepsTies<T>(x: T, s: seq<T>, key: T -> int, k: int)
    requires Descending(s, key)
    ensures WithKey(InsertDescending(x, s, key), key, k) == (if key(x) == k then [x] else []) + WithKey(s, key, k)
  {
    if s == [] || key(x) >= key(s[0]) {
      WithKeyCons(x, s, key, k);
    } else {
      DescendingTail(s, key);
      var t := InsertDescending(x, s[1..], key);
      assert InsertDescending(x, s, key) == [s[0]] + t;
      InsertKeepsTies(x, s[1..], key, k);
      WithKeyCons(s[0], t, key, k);
      WithKeyCons(s[0], s[1..], key, k);
      assert [s[0]] + s[1..] == s;
      if key(x) == k {
        assert key(s[0]) != k;
      }
    }
  }

  /** The elements of `[x] + s` with key `k`: `x` when it has that key, then those of `s`. */
  lemma WithKeyCons<T>(x: T, s: seq<T>, key: T -> int, k: int)
    ensures WithKey([x] + s, key, k) == (if key(x) == k then [x] else []) + WithKey(s, key, k)
  {
    assert ([x] + s)[1..] == s;
  }

  // ----------------------------------------------------- in-place sorting

  /**
   * Sort an array newest (largest key) first in place, by swapping each new
   * element towards the front: what `sort.Slice` with a "greater" comparison
   * produces, up to the order of equal keys.
   */
  method SortInPlaceDescending<T>(a: array<T>, key: T -> int)
    modifies a
    ensures Descending(a[..], key)
    ensures multiset(a[..]) == multiset(old(a[..]))
  {
    var i := 0;
    while i < a.Length
      invariant 0 <= i <= a.Length
      invariant PrefixDescending(a[..], i, key)
      invariant multiset(a[..]) == multiset(old(a[..]))
    {
      SinkToPlace(a, i, key);
      i := i + 1;
    }
  }

  /** The first `n` elements of `s` are newest first. */
  predicate PrefixDescending<T>(s: seq<T>, n: int, key: T -> int)
    requires 0 <= n <= |s|
  {
    forall p, q :: 0 <= p < q < n ==> key(s[p]) >= key(s[q])
  }

  /** Move `a[i]` towards the front past every smaller key, so that `a[..i + 1]` is newest first. */
  method SinkToPlace<T>(a: array<T>, i: int, key: T -> int)
    requires 0 <= i < a.Length
    requires PrefixDescending(a[..], i, key)
    modifies a
    ensures PrefixDescending(a[..], i + 1, key)
    ensures multiset(a[..]) == multiset(old(a[..]))
  {
    var j := i;
    OrderedButStart(a[..], i, key);
    while j > 0 && key(a[j - 1]) < key(a[j])
      invariant 0 <= j <= i
      invariant OrderedBut(a[..], j, i, key)
      invariant multiset(a[..]) == multiset(old(a[..]))
    {
      ghost var b := a[..];
      SwapKeepsOrder(b, j, i, key);
      SwapPermutes(b, j - 1, j);
      a[j - 1], a[j] := a[j], a[j - 1];
      assert a[..] == b[j - 1 := b[j]][j := b[j - 1]];
      j := j - 1;
    }
    OrderedButDone(a[..], j, i, key);
  }

  /**
   * The state of the sinking element at `j`: the rest of `s[..i + 1]` is
   * ordered, and `s[j]` is larger than everything after it up to `i`.
   */
  predicate OrderedBut<T>(s: seq<T>, j: int, i: int, key: T -> int)
    requires 0 <= j <= i < |s|
  {
    (forall p, q :: 0 <= p < q <= i && p != j && q != j ==> key(s[p]) >= key(s[q])) &&
    (forall q :: j < q <= i ==> key(s[j]) > key(s[q]))
  }

  lemma SwapPermutes<T>(s: seq<T>, x: int, y: int)
    requires 0 <= x < |s| && 0 <= y < |s|
    ensures multiset(s[x := s[y]][y := s[x]]) == multiset(s)
  {
  }

  lemma OrderedButStart<T>(s: seq<T>, i: int, key: T -> int)
    requires 0 <= i < |s| && PrefixDescending(s, i, key)
    ensures OrderedBut(s, i, i, key)
  {
  }

  lemma SwapKeepsOrder<T>(s: seq<T>, j: int, i: int, key: T -> int)
    requires 0 < j <= i < |s|
    requires OrderedBut(s, j, i, key) && key(s[j - 1]) < key(s[j])
    ensures OrderedBut(s[j - 1 := s[j]][j := s[j - 1]], j - 1, i, key)
  {
    var t := s[j - 1 := s[j]][j := s[j - 1]];
    forall p, q | 0 <= p < q <= i && p != j - 1 && q != j - 1 ensures key(t[p]) >= key(t[q]) {
      if q == j {
        assert key(s[p]) >= key(s[j - 1]);
      }
    }
    forall q | j - 1 < q <= i ensures key(t[j - 1]) > key(t[q]) {
      if q == j {
      } else {
        assert key(s[j]) > key(s[q]);
      }
    }
  }

  lemma OrderedButDone<T>(s: seq<T>, j: int, i: int, key: T -> int)
    requires 0 <= j <= i < |s|
    requires OrderedBut(s, j, i, key) && (j == 0 || key(s[j - 1]) >= key(s[j]))
    ensures PrefixDescending(s, i + 1, key)
  {
    forall p, q | 0 <= p < q <= i ensures key(s[p]) >= key(s[q]) {
      if q == j {
        assert key(s[p]) >= key(s[j - 1]) || p == j - 1;
      }
    }
  }

  /** Two newest-first orderings of the same integers are the same sequence. */
  lemma {:induction false} DescendingUnique(s: seq<int>, t: seq<int>)
    requires Descending(s, Identity) && Descending(t, Identity)
    requires multiset(s) == multiset(t)
    ensures s == t
  {
    assert |s| == |t| by {
      assert |multiset(s)| == |s| && |multiset(t)| == |t|;
    }
    if s != [] {
      assert t[0] in multiset(t) && s[0] in multiset(s);
      HeadIsLargest(s, t[0]);
      HeadIsLargest(t, s[0]);
      var h := s[0];
      var s', t' := s[1..], t[1..];
      assert multiset(s) == multiset{h} + multiset(s') by { assert s == [h] + s'; }
      assert multiset(t) == multiset{h} + multiset(t') by { assert t == [h] + t'; }
      assert t[0] == h;
      assert multiset(s') == multiset(s) - multiset{h};
      assert multiset(t') == multiset(t) - multiset{h};
      DescendingTail(s, Identity);
      DescendingTail(t, Identity);
      DescendingUnique(s', t');
      assert s == [h] + s' && t == [h] + t';
    }
  }

  function Identity(x: int): int {
    x
  }

  lemma HeadIsLargest(s: seq<int>, x: int)
    requires Descending(s, Identity) && x in multiset(s)
    ensures s != [] && s[0] >= x
  {
    var k :| 0 <= k < |s| && s[k] == x;
    assert Identity(s[0]) >= Identity(s[k]) || k == 0;
  }
}
