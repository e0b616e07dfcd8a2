/** A stand-in for Go's sort.Slice: a permutation in which no element is less than an earlier one.
    Nothing is promised, and nothing is used, about the order of ties. */
module Ordering {

  ghost predicate StrictWeakOrder<T(!new)>(less: (T, T) -> bool) {
    && (forall x, y :: less(x, y) ==> !less(y, x))
    && (forall x, y, z :: !less(x, y) && !less(y, z) ==> !less(x, z))
  }

  ghost predicate Sorted<T>(xs: seq<T>, less: (T, T) -> bool) {
    forall i, j | 0 <= i < j < |xs| :: !less(xs[j], xs[i])
  }

  /** xs lists the elements of s, each exactly once. */
  ghost predicate Enumerates<T>(xs: seq<T>, s: set<T>) {
    multiset(xs) == multiset(s)
  }

  lemma {:induction false} EnumerateOneMore<T>(xs: seq<T>, s: set<T>, x: T, s': set<T>)
    requires Enumerates(xs, s) && x !in s && s' == s + {x}
    ensures Enumerates(xs + [x], s')
  {
  }

  lemma {:induction false} EnumerationFacts<T>(xs: seq<T>, s: set<T>)
    requires Enumerates(xs, s)
    ensures |xs| == |s|
    ensures forall x :: x in xs <==> x in s
    ensures forall i, j | 0 <= i < j < |xs| :: xs[i] != xs[j]
  {
    assert |multiset(xs)| == |xs| && |multiset(s)| == |s|;
    forall x ensures x in xs <==> x in s {
      assert x in xs <==> x in multiset(xs);
    }
    forall i, j | 0 <= i < j < |xs| ensures xs[i] != xs[j] {
      assert multiset(s)[xs[j]] <= 1;
      assert xs == xs[..j] + [xs[j]] + xs[j + 1..];
      assert xs[i] in multiset(xs[..j]);
    }
  }

  method SortSlice<T(!new)>(xs: seq<T>, less: (T, T) -> bool) returns (ys: seq<T>)
    requires StrictWeakOrder(less)
    ensures multiset(ys) == multiset(xs)
    ensures Sorted(ys, less)
  {
    ys := [];
    for n := 0 to |xs|
      invariant multiset(ys) == multiset(xs[..n])
      invariant Sorted(ys, less)
    {
      var k := |ys|;
      while k > 0 && less(xs[n], ys[k - 1])
        invariant 0 <= k <= |ys|
        invariant forall j | k <= j < |ys| :: less(xs[n], ys[j])
      {
        k := k - 1;
      }
      InsertKeepsSorted(ys, k, xs[n], less);
      assert ys == ys[..k] + ys[k..];
      assert xs[..n + 1] == xs[..n] + [xs[n]];
      ys := ys[..k] + [xs[n]] + ys[k..];
    }
    assert xs[..|xs|] == xs;
  }

  lemma InsertKeepsSorted<T(!new)>(ys: seq<T>, k: nat, x: T, less: (T, T) -> bool)
    requires StrictWeakOrder(less) && Sorted(ys, less)
    requires k <= |ys|
    requires forall j | k <= j < |ys| :: less(x, ys[j])
    requires k > 0 ==> !less(x, ys[k - 1])
    ensures Sorted(ys[..k] + [x] + ys[k..], less)
  {
    var zs := ys[..k] + [x] + ys[k..];
    forall j | 0 <= j < k ensures !less(x, ys[j]) {
      assert j < k - 1 ==> !less(ys[k - 1], ys[j]);
    }
    forall i, j | 0 <= i < j < |zs| ensures !less(zs[j], zs[i]) {
      assert zs[i] == if i < k then ys[i] else if i == k then x else ys[i - 1];
      assert zs[j] == if j < k then ys[j] else if j == k then x else ys[j - 1];
    }
  }
}
