// Go's sort.Slice, known to its callers by its contract alone: an ordered
// permutation, in which elements with equal keys may stand in any order; and the
// filtering that loops with a conditional append do.
module Sorting {
  import opened Common

  ghost predicate Ordered<T>(s: seq<T>, key: T -> int) {
    forall i, j :: 0 <= i < j < |s| ==> key(s[i]) <= key(s[j])
  }

  ghost predicate IsSortOf<T>(sorted: seq<T>, s: seq<T>, key: T -> int) {
    multiset(sorted) == multiset(s) && Ordered(sorted, key)
  }

  function Insert<T>(s: seq<T>, x: T, key: T -> int): seq<T> {
    var n := |s|;
    if n == 0 || key(s[n - 1]) <= key(x) then s + [x] else Insert(s[..n - 1], x, key) + [s[n - 1]]
  }

  lemma {:induction false} InsertPermutes<T>(s: seq<T>, x: T, key: T -> int)
    ensures multiset(Insert(s, x, key)) == multiset(s) + multiset{x}
  {
    var n := |s|;
    if n > 0 && key(x) < key(s[n - 1]) {
      InsertPermutes(s[..n - 1], x, key);
      assert s == s[..n - 1] + [s[n - 1]];
    }
  }

  lemma {:induction false} InsertKeepsBound<T>(s: seq<T>, x: T, key: T -> int, bound: int)
    requires key(x) <= bound && forall i :: 0 <= i < |s| ==> key(s[i]) <= bound
    ensures forall i :: 0 <= i < |Insert(s, x, key)| ==> key(Insert(s, x, key)[i]) <= bound
  {
    var n := |s|;
    if n > 0 && key(x) < key(s[n - 1]) {
      InsertKeepsBound(s[..n - 1], x, key, bound);
    }
  }

  lemma {:induction false} InsertOrders<T>(s: seq<T>, x: T, key: T -> int)
    requires Ordered(s, key)
    ensures Ordered(Insert(s, x, key), key)
  {
    var n := |s|;
    if n > 0 && key(x) < key(s[n - 1]) {
      InsertOrders(s[..n - 1], x, key);
      InsertKeepsBound(s[..n - 1], x, key, key(s[n - 1]));
    }
  }

  method SortSlice<T>(s: seq<T>, key: T -> int) returns (sorted: seq<T>)
    ensures IsSortOf(sorted, s, key)
  {
    sorted := [];
    for k := 0 to |s|
      invariant multiset(sorted) == multiset(s[..k])
      invariant Ordered(sorted, key)
    {
      assert s[..k + 1] == s[..k] + [s[k]];
      InsertPermutes(sorted, s[k], key);
      InsertOrders(sorted, s[k], key);
      sorted := Insert(sorted, s[k], key);
    }
    assert s[..|s|] == s;
  }

  // Cutting a sorted slice keeps the least keys: whatever falls off is at least as great
  // as everything kept. Holds for every order of ties.
  lemma {:induction false} CutKeepsLeast<T>(sorted: seq<T>, s: seq<T>, key: T -> int, n: nat, left: T, kept: T)
    requires IsSortOf(sorted, s, key)
    requires n <= |sorted|
    requires left in multiset(s) - multiset(sorted[..n])
    requires kept in sorted[..n]
    ensures key(kept) <= key(left)
  {
    assert sorted == sorted[..n] + sorted[n..];
    assert multiset(s) - multiset(sorted[..n]) == multiset(sorted[n..]);
    assert left in sorted[n..];
  }

  lemma SameCounts<T>(a: multiset<T>, b: multiset<T>)
    requires forall x :: a[x] == b[x]
    ensures a == b
  {
  }

  lemma PermutationKeepsLength<T>(a: seq<T>, b: seq<T>)
    requires multiset(a) == multiset(b)
    ensures |a| == |b|
  {
    assert |a| == |multiset(a)|;
    assert |b| == |multiset(b)|;
  }

  // --- Filtering a slice ---

  function Filter<T>(s: seq<T>, keep: T -> bool): seq<T> {
    if s == [] then []
    else
      var last := s[|s| - 1];
      Filter(s[..|s| - 1], keep) + if keep(last) then [last] else []
  }

  lemma {:induction false} FilterCounts<T>(s: seq<T>, keep: T -> bool, x: T)
    ensures multiset(Filter(s, keep))[x] == if keep(x) then multiset(s)[x] else 0
  {
    if s != [] {
      FilterCounts(s[..|s| - 1], keep, x);
      assert s == s[..|s| - 1] + [s[|s| - 1]];
    }
  }

  lemma {:induction false} FilterPrefix<T>(s: seq<T>, k: nat, keep: T -> bool)
    requires k <= |s|
    ensures Filter(s[..k], keep) <= Filter(s, keep)
  {
    if k < |s| {
      FilterPrefix(s[..|s| - 1], k, keep);
      assert s[..|s| - 1][..k] == s[..k];
    } else {
      assert s[..k] == s;
    }
  }

  lemma {:induction false} FilterKeepsOrder<T>(s: seq<T>, keep: T -> bool, key: T -> int)
    requires Ordered(s, key)
    ensures Ordered(Filter(s, keep), key)
  {
    if s != [] {
      var front, last := s[..|s| - 1], s[|s| - 1];
      FilterKeepsOrder(front, keep, key);
      forall i | 0 <= i < |Filter(front, keep)| ensures key(Filter(front, keep)[i]) <= key(last) {
        var x := Filter(front, keep)[i];
        assert x in multiset(Filter(front, keep));
        FilterCounts(front, keep, x);
        assert x in multiset(front);
        assert x in front;
      }
    }
  }

  lemma FilterPermutes<T>(a: seq<T>, b: seq<T>, keep: T -> bool)
    requires multiset(a) == multiset(b)
    ensures multiset(Filter(a, keep)) == multiset(Filter(b, keep))
  {
    var fa, fb := multiset(Filter(a, keep)), multiset(Filter(b, keep));
    forall x ensures fa[x] == fb[x] {
      FilterCounts(a, keep, x);
      FilterCounts(b, keep, x);
    }
    SameCounts(fa, fb);
  }

  lemma FilterOfSorted<T>(sorted: seq<T>, s: seq<T>, keep: T -> bool, key: T -> int)
    requires IsSortOf(sorted, s, key)
    ensures IsSortOf(Filter(sorted, keep), Filter(s, keep), key)
  {
    FilterKeepsOrder(sorted, keep, key);
    FilterPermutes(sorted, s, keep);
  }

  lemma FilterMeaning<T>(s: seq<T>, keep: T -> bool, x: T)
    ensures x in Filter(s, keep) <==> x in s && keep(x)
  {
    FilterCounts(s, keep, x);
    assert x in Filter(s, keep) <==> x in multiset(Filter(s, keep));
    assert x in s <==> x in multiset(s);
  }
}
