// Values shared by the models: optional values, outcomes that carry an error,
// the wrap-around of Go's int64, durations, and counting facts about sequences.
module Common {

  datatype Option<+T> = None | Some(value: T)

  datatype Result<+T, +E> = Ok(value: T) | Err(error: E)

  function Min(a: int, b: int): (m: int)
    ensures m <= a && m <= b && (m == a || m == b)
  {
    if a <= b then a else b
  }

  // No element occurs twice.
  ghost predicate Distinct<T>(s: seq<T>) {
    forall i, j :: 0 <= i < j < |s| ==> s[i] != s[j]
  }

  ghost predicate StrictlyIncreasing(s: seq<int>) {
    forall i, j :: 0 <= i < j < |s| ==> s[i] < s[j]
  }

  lemma SomeElement<T>(s: seq<T>)
    ensures s != [] ==> exists x :: x in s
  {
    assert s != [] ==> s[0] in s;
  }

  const TWO_TO_31: int := 0x8000_0000
  const TWO_TO_62: int := 0x4000_0000_0000_0000
  const TWO_TO_63: int := 0x8000_0000_0000_0000
  const TWO_TO_64: int := 0x1_0000_0000_0000_0000

  predicate InInt64(x: int) {
    -TWO_TO_63 <= x < TWO_TO_63
  }

  // The int64 that Go keeps of an exact integer result.
  function Wrap64(x: int): (w: int)
    ensures InInt64(w)
    ensures w == x <==> InInt64(x)
  {
    (x + TWO_TO_63) % TWO_TO_64 - TWO_TO_63
  }

  // Durations in nanoseconds.
  const MINUTE: int := 60_000_000_000
  const HOUR: int := 60 * MINUTE
  const DAY: int := 24 * HOUR

  // Two duplicate-free sequences with the same elements are permutations of each other.
  lemma {:induction false} SameElementsPermute<T>(a: seq<T>, b: seq<T>)
    requires Distinct(a) && Distinct(b)
    requires forall x :: x in a <==> x in b
    ensures multiset(a) == multiset(b)
  {
    forall x ensures multiset(a)[x] == multiset(b)[x] {
      DistinctCount(a, x);
      DistinctCount(b, x);
    }
  }

  lemma {:induction false} DistinctCount<T>(a: seq<T>, x: T)
    requires Distinct(a)
    ensures multiset(a)[x] == if x in a then 1 else 0
  {
    if a != [] {
      var n := |a| - 1;
      DistinctCount(a[..n], x);
      assert a == a[..n] + [a[n]];
    }
  }

  // Pigeonhole: distinct numbers below n are n many exactly when none is missing.
  lemma {:induction false} DistinctBelow(a: seq<nat>, n: nat)
    requires Distinct(a)
    requires forall x :: x in a ==> x < n
    ensures |a| <= n
    ensures |a| == n <==> forall j: nat :: j < n ==> j in a
  {
    var elems := set x | x in a;
    DistinctSize(a);
    assert elems <= UpTo(n);
    SubsetSize(elems, UpTo(n));
    if forall j: nat :: j < n ==> j in a {
      assert forall j: nat :: j in UpTo(n) ==> j in a;
      assert elems == UpTo(n);
    }
    if |a| == n {
      forall j: nat | j < n ensures j in a {
        assert j in UpTo(n) && j in elems;
      }
    }
  }

  ghost function UpTo(n: nat): (s: set<nat>)
    ensures |s| == n
    ensures forall j: nat :: j in s <==> j < n
  {
    if n == 0 then {} else UpTo(n - 1) + {n - 1}
  }

  lemma {:induction false} DistinctSize<T>(a: seq<T>)
    requires Distinct(a)
    ensures |set x | x in a| == |a|
  {
    if a != [] {
      var n := |a| - 1;
      DistinctSize(a[..n]);
      assert (set x | x in a) == (set x | x in a[..n]) + {a[n]};
    }
  }

  lemma {:induction false} SubsetSize<T>(a: set<T>, b: set<T>)
    requires a <= b
    ensures |a| <= |b|
    ensures a != b ==> |a| < |b|
  {
    assert b == a + (b - a);
    assert |b| == |a| + |b - a|;
  }
}
