// The fare source of the airfare provider: the upstream query (client.go) and the local
// extraction of prices from its answer (results_mappers.go). Instants are nanoseconds,
// with 0 as Go's zero time.
module FareSource {
  import opened Common
  import opened Sorting

  // ports.FareSearch
  datatype FareSearch = FareSearch(
    origin: string,
    destination: string,
    date: int,
    arriveNotBefore: Option<int>,
    arriveNotLater: Option<int>,
    departNotBefore: Option<int>)

  // dto.PriceForDateItem with its times already parsed; None is a time that does not parse.
  datatype Item = Item(
    price: int,
    departureAt: Option<int>,
    returnAt: Option<int>,
    durationTo: int,
    duration: int)

  // The arrival instant, or the zero time when it cannot be computed.
  function Arrival(item: Item): int {
    var minutes := if item.durationTo <= 0 then item.duration else item.durationTo;
    if item.departureAt.Some? && minutes > 0 then item.departureAt.value + minutes * MINUTE else 0
  }

  function ZeroOr(t: Option<int>): int {
    if t.Some? then t.value else 0
  }

  // The departure instant that the earliest-departure bound looks at.
  function DepartureBase(item: Item): int {
    if ZeroOr(item.departureAt) == 0 && item.returnAt.Some? then item.returnAt.value else ZeroOr(item.departureAt)
  }

  // passesTimeConstraints
  predicate PassesTimeConstraints(item: Item, search: FareSearch) {
    && (search.arriveNotBefore.Some? ==> Arrival(item) != 0 && Arrival(item) >= search.arriveNotBefore.value)
    && (search.arriveNotLater.Some? ==> Arrival(item) != 0 && Arrival(item) <= search.arriveNotLater.value)
    && (search.departNotBefore.Some? ==> DepartureBase(item) != 0 && DepartureBase(item) >= search.departNotBefore.value)
  }

  // The statements of passesTimeConstraints, one by one.
  method CheckTimeConstraints(item: Item, search: FareSearch) returns (pass: bool)
    ensures pass == PassesTimeConstraints(item, search)
  {
    if search.arriveNotBefore.None? && search.arriveNotLater.None? && search.departNotBefore.None? {
      return true;
    }
    var departure, hasDeparture := ZeroOr(item.departureAt), item.departureAt.Some?;
    var returnDate, hasReturn := ZeroOr(item.returnAt), item.returnAt.Some?;
    var arrival := 0;
    if hasDeparture {
      var duration := item.durationTo;
      if duration <= 0 {
        duration := item.duration;
      }
      if duration > 0 {
        arrival := departure + duration * MINUTE;
      }
    }
    if search.arriveNotBefore.Some? {
      if arrival == 0 || arrival < search.arriveNotBefore.value {
        return false;
      }
    }
    if search.arriveNotLater.Some? {
      if arrival == 0 || arrival > search.arriveNotLater.value {
        return false;
      }
    }
    if search.departNotBefore.Some? {
      var base := departure;
      if base == 0 && hasReturn {
        base := returnDate;
      }
      if base == 0 || base < search.departNotBefore.value {
        return false;
      }
    }
    return true;
  }

  ghost predicate Offered(data: seq<Item>, search: FareSearch, price: int) {
    exists k :: 0 <= k < |data| && data[k].price == price && price > 0 && PassesTimeConstraints(data[k], search)
  }

  // What an extraction must return: each passing price once, in increasing order.
  ghost predicate IsExtraction(prices: seq<int>, data: seq<Item>, search: FareSearch) {
    StrictlyIncreasing(prices) && forall p :: p in prices <==> Offered(data, search, p)
  }

  lemma {:induction false} IncreasingIsUnique(a: seq<int>, b: seq<int>)
    requires StrictlyIncreasing(a) && StrictlyIncreasing(b)
    requires forall p :: p in a <==> p in b
    ensures a == b
  {
    assert a == [] || a[|a| - 1] in a;
    assert b == [] || b[|b| - 1] in b;
    if a != [] {
      var m, n := |a| - 1, |b| - 1;
      var i :| 0 <= i < |b| && b[i] == a[m];
      var j :| 0 <= j < |a| && a[j] == b[n];
      assert a[m] == b[n];
      forall p ensures p in a[..m] <==> p in b[..n] {
        assert p in a[..m] <==> p in a && p != a[m];
        assert p in b[..n] <==> p in b && p != b[n];
      }
      IncreasingIsUnique(a[..m], b[..n]);
      assert a == a[..m] + [a[m]] && b == b[..n] + [b[n]];
    }
  }

  // The extraction on values: insert each passing price where it belongs, once.
  function InsertOnce(s: seq<int>, x: int): (r: seq<int>)
    ensures StrictlyIncreasing(s) ==> StrictlyIncreasing(r)
    ensures forall p :: p in r <==> p in s || p == x
  {
    var n := |s|;
    if n == 0 || s[n - 1] < x then s + [x]
    else if s[n - 1] == x then s
    else
      var front := s[..n - 1];
      var r := InsertOnce(front, x);
      assert s == front + [s[n - 1]];
      assert StrictlyIncreasing(s) ==> forall p :: p in front ==> p < s[n - 1];
      assert StrictlyIncreasing(s) ==> forall p :: p in r ==> p < s[n - 1];
      assert forall i :: 0 <= i < |r| ==> r[i] in r;
      r + [s[n - 1]]
  }

  function Extracted(data: seq<Item>, search: FareSearch): (prices: seq<int>)
    ensures IsExtraction(prices, data, search)
  {
    if data == [] then []
    else
      var n := |data| - 1;
      var before := Extracted(data[..n], search);
      assert forall p :: Offered(data, search, p) <==>
               Offered(data[..n], search, p) ||
               (p == data[n].price && p > 0 && PassesTimeConstraints(data[n], search));
      if data[n].price > 0 && PassesTimeConstraints(data[n], search) then InsertOnce(before, data[n].price) else before
  }

  // uniqueSorted
  method UniqueSorted(values: seq<int>) returns (result: seq<int>)
    requires Ordered(values, (x: int) => x)
    ensures StrictlyIncreasing(result)
    ensures forall p :: p in result <==> p in values
  {
    if |values| == 0 {
      return values;
    }
    result := [];
    var prev := values[0] - 1;
    for k := 0 to |values|
      invariant StrictlyIncreasing(result)
      invariant forall p :: p in result <==> p in values[..k]
      invariant k == 0 ==> prev == values[0] - 1 && result == []
      invariant k > 0 ==> result != [] && prev == result[|result| - 1] == values[k - 1]
    {
      var v := values[k];
      assert values[..k + 1] == values[..k] + [v];
      assert k > 0 ==> values[k - 1] <= v by {
        if k > 0 {
          var key := (x: int) => x;
          assert key(values[k - 1]) <= key(values[k]);
        }
      }
      if v != prev {
        assert forall i :: 0 <= i < |result| ==> result[i] < v;
        result := result + [v];
        prev := v;
      }
    }
    assert values[..|values|] == values;
  }

  // ExtractPrices
  method ExtractPrices(data: seq<Item>, search: FareSearch) returns (extracted: seq<int>)
    ensures extracted == Extracted(data, search)
  {
    var prices: seq<int> := [];
    for k := 0 to |data|
      invariant forall p :: p in prices <==> Offered(data[..k], search, p)
    {
      var item := data[k];
      assert forall p :: Offered(data[..k + 1], search, p) <==>
               Offered(data[..k], search, p) ||
               (p == item.price && p > 0 && PassesTimeConstraints(item, search)) by {
        OfferedAppend(data[..k], item, search);
        assert data[..k + 1] == data[..k] + [item];
      }
      if item.price <= 0 {
        continue;
      }
      var pass := CheckTimeConstraints(item, search);
      if !pass {
        continue;
      }
      prices := prices + [item.price];
    }
    assert data[..|data|] == data;
    if |prices| == 0 {
      extracted := [];
    } else {
      var sorted := SortSlice(prices, (x: int) => x);
      assert forall p :: p in sorted <==> p in multiset(sorted);
      assert forall p :: p in prices <==> p in multiset(prices);
      extracted := UniqueSorted(sorted);
    }
    IncreasingIsUnique(extracted, Extracted(data, search));
  }

  lemma OfferedAppend(data: seq<Item>, item: Item, search: FareSearch)
    ensures forall p :: Offered(data + [item], search, p) <==>
              Offered(data, search, p) || (p == item.price && p > 0 && PassesTimeConstraints(item, search))
  {
    forall p | Offered(data, search, p) ensures Offered(data + [item], search, p) {
      var k :| 0 <= k < |data| && data[k].price == p && p > 0 && PassesTimeConstraints(data[k], search);
      assert (data + [item])[k] == data[k];
    }
    forall p | p == item.price && p > 0 && PassesTimeConstraints(item, search)
      ensures Offered(data + [item], search, p)
    {
      assert (data + [item])[|data|] == item;
    }
  }
}
