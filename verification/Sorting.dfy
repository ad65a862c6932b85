/** Go's string order, and sorting by a string key: what every sorted permutation has in common. */
module Sorting {
  import opened Sequences

  predicate Leq(a: string, b: string) {
    a == "" || (b != "" && (a[0] < b[0] || (a[0] == b[0] && Leq(a[1..], b[1..]))))
  }

  predicate FirstDifference(a: string, b: string, k: nat) {
    k < |a| && k < |b| && a[..k] == b[..k] && a[k] != b[k]
  }

  /** a is at most b when it is a prefix of b, or has the smaller character where they first differ. */
  lemma {:induction false} LeqExact(a: string, b: string)
    ensures Leq(a, b) <==> a <= b || exists k: nat :: FirstDifference(a, b, k) && a[k] < b[k]
    decreases a
  {
    if a != "" && b != "" && a[0] == b[0] {
      LeqExact(a[1..], b[1..]);
      assert forall k: nat :: FirstDifference(a[1..], b[1..], k) ==> FirstDifference(a, b, k + 1);
      assert forall k: nat :: FirstDifference(a, b, k) ==> k > 0 && FirstDifference(a[1..], b[1..], k - 1);
    } else if a != "" && b != "" {
      assert a[..0] == b[..0] && FirstDifference(a, b, 0);
      assert forall k: nat | FirstDifference(a, b, k) :: k > 0 ==> a[0] == a[..k][0] == b[..k][0];
    }
  }

  lemma {:induction false} LeqTotal(a: string, b: string)
    ensures Leq(a, b) || Leq(b, a)
    decreases a
  {
    if a != "" && b != "" && a[0] == b[0] {
      LeqTotal(a[1..], b[1..]);
    }
  }

  lemma {:induction false} LeqAntisymmetric(a: string, b: string)
    requires Leq(a, b) && Leq(b, a)
    ensures a == b
    decreases a
  {
    if a != "" && b != "" {
      LeqAntisymmetric(a[1..], b[1..]);
      assert a == [a[0]] + a[1..] && b == [b[0]] + b[1..];
    }
  }

  lemma {:induction false} LeqTransitive(a: string, b: string, c: string)
    requires Leq(a, b) && Leq(b, c)
    ensures Leq(a, c)
    decreases a
  {
    if a != "" && a[0] == b[0] && b[0] == c[0] {
      LeqTransitive(a[1..], b[1..], c[1..]);
    }
  }

  ghost predicate Sorted<T>(key: T -> string, xs: seq<T>) {
    forall i, j | 0 <= i < j < |xs| :: Leq(key(xs[i]), key(xs[j]))
  }

  /** What sort.Strings and sort.Slice promise: the same elements, in order, equal keys in any order. */
  ghost predicate SortOf<T>(key: T -> string, xs: multiset<T>, ys: seq<T>) {
    multiset(ys) == xs && Sorted(key, ys)
  }

  ghost predicate DistinctKeys<T>(key: T -> string, xs: multiset<T>) {
    forall x, y | x in xs && y in xs && key(x) == key(y) :: x == y
  }

  /** With distinct keys there is only one way to sort. */
  lemma {:induction false} SortUnique<T>(key: T -> string, xs: multiset<T>, ys: seq<T>, zs: seq<T>)
    requires SortOf(key, xs, ys) && SortOf(key, xs, zs) && DistinctKeys(key, xs)
    ensures ys == zs
    decreases |ys|
  {
    if ys == [] {
      assert zs == [] by {
        assert |multiset(zs)| == |multiset(ys)|;
      }
    } else {
      SameFirst(key, xs, ys, zs);
      WithoutFirst(key, xs, ys);
      WithoutFirst(key, xs, zs);
      SortUnique(key, xs - multiset{ys[0]}, ys[1..], zs[1..]);
      SameFirstAndRest(ys, zs);
    }
  }

  lemma SameFirst<T>(key: T -> string, xs: multiset<T>, ys: seq<T>, zs: seq<T>)
    requires SortOf(key, xs, ys) && SortOf(key, xs, zs) && DistinctKeys(key, xs) && ys != []
    ensures zs != [] && ys[0] == zs[0]
  {
    assert ys[0] in xs;
    FirstLeast(key, zs, ys[0]);
    assert zs[0] in xs;
    FirstLeast(key, ys, zs[0]);
    LeqAntisymmetric(key(ys[0]), key(zs[0]));
  }

  lemma WithoutFirst<T>(key: T -> string, xs: multiset<T>, ys: seq<T>)
    requires SortOf(key, xs, ys) && ys != []
    ensures SortOf(key, xs - multiset{ys[0]}, ys[1..])
  {
    assert ys == [ys[0]] + ys[1..];
  }

  lemma FirstLeast<T>(key: T -> string, ys: seq<T>, x: T)
    requires Sorted(key, ys) && x in multiset(ys)
    ensures ys != [] && Leq(key(ys[0]), key(x))
  {
    assert x in ys;
    LeqTotal(key(ys[0]), key(ys[0]));
  }

  /** Two different elements with one key can change places. */
  lemma SwapEqual<T>(key: T -> string, xs: multiset<T>, ys: seq<T>, a: T, b: T) returns (zs: seq<T>)
    requires SortOf(key, xs, ys) && a in xs && b in xs && a != b && key(a) == key(b)
    ensures SortOf(key, xs, zs) && zs != ys
  {
    assert a in ys && b in ys;
    var i, j :| 0 <= i < |ys| && 0 <= j < |ys| && ys[i] == a && ys[j] == b;
    zs := ys[i := b][j := a];
    assert multiset(zs) == xs;
    assert forall k | 0 <= k < |ys| :: key(zs[k]) == key(ys[k]);
  }

  /** Insertion stands for the library's sort; callers see only that the result is a sort. */
  method Sort<T>(key: T -> string, xs: seq<T>) returns (ys: seq<T>)
    ensures SortOf(key, multiset(xs), ys)
  {
    ys := [];
    for n := 0 to |xs|
      invariant SortOf(key, multiset(xs[..n]), ys)
    {
      var i := 0;
      while i < |ys| && Leq(key(ys[i]), key(xs[n]))
        invariant 0 <= i <= |ys|
        invariant forall k | 0 <= k < i :: Leq(key(ys[k]), key(xs[n]))
      {
        i := i + 1;
      }
      Inserted(key, ys, xs[n], i);
      assert xs[..n + 1] == xs[..n] + [xs[n]];
      ys := ys[..i] + [xs[n]] + ys[i..];
    }
    assert xs[..|xs|] == xs;
  }

  lemma Inserted<T>(key: T -> string, ys: seq<T>, x: T, i: nat)
    requires Sorted(key, ys) && i <= |ys|
    requires forall k | 0 <= k < i :: Leq(key(ys[k]), key(x))
    requires i < |ys| ==> !Leq(key(ys[i]), key(x))
    ensures SortOf(key, multiset(ys) + multiset{x}, ys[..i] + [x] + ys[i..])
  {
    assert multiset(ys[..i] + [x] + ys[i..]) == multiset(ys) + multiset{x} by {
      assert ys == ys[..i] + ys[i..];
    }
    forall k | i <= k < |ys|
      ensures Leq(key(x), key(ys[k]))
    {
      LeqTotal(key(ys[i]), key(x));
      if k > i {
        LeqTransitive(key(x), key(ys[i]), key(ys[k]));
      }
    }
    InsertedSorted(key, ys, x, i);
  }

  lemma InsertedSorted<T>(key: T -> string, ys: seq<T>, x: T, i: nat)
    requires Sorted(key, ys) && i <= |ys|
    requires forall k | 0 <= k < i :: Leq(key(ys[k]), key(x))
    requires forall k | i <= k < |ys| :: Leq(key(x), key(ys[k]))
    ensures Sorted(key, ys[..i] + [x] + ys[i..])
  {
    var zs := ys[..i] + [x] + ys[i..];
    forall p, q | 0 <= p < q < |zs|
      ensures Leq(key(zs[p]), key(zs[q]))
    {
      var y := if p < i then ys[p] else if p == i then x else ys[p - 1];
      var z := if q < i then ys[q] else if q == i then x else ys[q - 1];
      assert zs[p] == y && zs[q] == z;
    }
  }

  /** Everything can be sorted. */
  lemma {:induction false} SortExists<T>(key: T -> string, xs: multiset<T>) returns (ys: seq<T>)
    ensures SortOf(key, xs, ys)
    decreases |xs|
  {
    if xs == multiset{} {
      return [];
    }
    var x :| x in xs;
    var zs := SortExists(key, xs - multiset{x});
    var i := Place(key, zs, x);
    Inserted(key, zs, x, i);
    assert xs == (xs - multiset{x}) + multiset{x};
    ys := zs[..i] + [x] + zs[i..];
  }

  lemma {:induction false} Place<T>(key: T -> string, ys: seq<T>, x: T) returns (i: nat)
    ensures i <= |ys| && (forall k | 0 <= k < i :: Leq(key(ys[k]), key(x)))
    ensures i < |ys| ==> !Leq(key(ys[i]), key(x))
    decreases ys
  {
    if ys == [] || !Leq(key(ys[0]), key(x)) {
      return 0;
    }
    var j := Place(key, ys[1..], x);
    assert forall k | 1 <= k <= j :: ys[k] == ys[1..][k - 1];
    i := j + 1;
  }
}
