// The match-day windows of the airfare service (airfare_service.go) and the searches that
// are tried with them, from the strictest window to the softest.
module Windows {
  import opened Common
  import opened FareSource

  // MatchDayWindowPolicy: how long before kickoff an outbound flight may arrive (earliest and
  // latest), and how long after kickoff a return flight may leave, at each level.
  datatype Before = Before(earliest: int, latest: int)

  datatype Policy = Policy(
    outStrict: Before, outSoft1: Before, outSoft2: Before,
    retStrict: int, retSoft1: int, retSoft2: int)

  datatype WindowLevel = Strict | Soft1 | Soft2

  const DEFAULT_POLICY := Policy(
                            Before(4 * HOUR, 2 * HOUR), Before(8 * HOUR, 0), Before(24 * HOUR, 0),
                            4 * HOUR, 2 * HOUR, 0)

  function NormalizeDuration(value: int, fallback: int): int {
    if value < 0 then fallback else value
  }

  function NormalizeBefore(b: Before, fallback: Before): Before {
    var earliest, latest := NormalizeDuration(b.earliest, fallback.earliest), NormalizeDuration(b.latest, fallback.latest);
    if earliest < latest then Before(latest, earliest) else Before(earliest, latest)
  }

  // MatchDayWindowPolicy.normalized
  function Normalized(p: Policy): Policy {
    Policy(
      NormalizeBefore(p.outStrict, DEFAULT_POLICY.outStrict),
      NormalizeBefore(p.outSoft1, DEFAULT_POLICY.outSoft1),
      NormalizeBefore(p.outSoft2, DEFAULT_POLICY.outSoft2),
      NormalizeDuration(p.retStrict, DEFAULT_POLICY.retStrict),
      NormalizeDuration(p.retSoft1, DEFAULT_POLICY.retSoft1),
      NormalizeDuration(p.retSoft2, DEFAULT_POLICY.retSoft2))
  }

  ghost predicate ProperWindow(b: Before) {
    b.earliest >= b.latest >= 0
  }

  ghost predicate Proper(p: Policy) {
    ProperWindow(p.outStrict) && ProperWindow(p.outSoft1) && ProperWindow(p.outSoft2) &&
    p.retStrict >= 0 && p.retSoft1 >= 0 && p.retSoft2 >= 0
  }

  // Normalizing yields proper windows, leaves proper policies alone, and so is idempotent.
  lemma NormalizedIsProper(p: Policy)
    ensures Proper(Normalized(p))
    ensures Normalized(p) == p <==> Proper(p)
    ensures Normalized(Normalized(p)) == Normalized(p)
  {
  }

  // A negative bound becomes the default of its place; the two bounds of an outbound window
  // are then put in order.
  ghost predicate Replaces(b: Before, given: Before, earliest: int, latest: int) {
    var x, y := if given.earliest < 0 then earliest else given.earliest, if given.latest < 0 then latest else given.latest;
    b.earliest >= b.latest && (b == Before(x, y) || b == Before(y, x))
  }

  lemma NormalizedMeaning(p: Policy)
    ensures var n := Normalized(p);
            && Replaces(n.outStrict, p.outStrict, 4 * HOUR, 2 * HOUR)
            && Replaces(n.outSoft1, p.outSoft1, 8 * HOUR, 0)
            && Replaces(n.outSoft2, p.outSoft2, 24 * HOUR, 0)
            && n.retStrict == (if p.retStrict < 0 then 4 * HOUR else p.retStrict)
            && n.retSoft1 == (if p.retSoft1 < 0 then 2 * HOUR else p.retSoft1)
            && n.retSoft2 == (if p.retSoft2 < 0 then 0 else p.retSoft2)
  {
  }

  // Each softer window contains the stricter one.
  ghost predicate Within(narrow: Before, wide: Before) {
    wide.earliest >= narrow.earliest && wide.latest <= narrow.latest
  }

  ghost predicate Nested(p: Policy) {
    && Within(p.outStrict, p.outSoft1) && Within(p.outSoft1, p.outSoft2)
    && p.retStrict >= p.retSoft1 >= p.retSoft2
  }

  lemma DefaultPolicyIsNested()
    ensures Proper(DEFAULT_POLICY) && Nested(DEFAULT_POLICY)
  {
  }

  // Normalizing does not nest the windows by itself: a policy may ask for a soft window
  // that lies elsewhere.
  lemma NormalizedMayNotNest()
    ensures var p := DEFAULT_POLICY.(outSoft1 := Before(HOUR, 0)); Normalized(p) == p && !Nested(p)
  {
  }

  // --- The searches tried for a slot ---

  datatype Try = Try(level: WindowLevel, search: FareSearch)

  function OutboundTry(base: FareSearch, kickoff: int, level: WindowLevel, b: Before): Try {
    Try(level, base.(arriveNotBefore := Some(kickoff - b.earliest), arriveNotLater := Some(kickoff - b.latest)))
  }

  function ReturnTry(base: FareSearch, kickoff: int, level: WindowLevel, after: int): Try {
    Try(level, base.(departNotBefore := Some(kickoff + after)))
  }

  function OutboundTries(p: Policy, base: FareSearch, kickoff: int): (tries: seq<Try>)
    ensures |tries| == 3
  {
    [ OutboundTry(base, kickoff, Strict, p.outStrict),
      OutboundTry(base, kickoff, Soft1, p.outSoft1),
      OutboundTry(base, kickoff, Soft2, p.outSoft2) ]
  }

  function ReturnTries(p: Policy, base: FareSearch, kickoff: int): (tries: seq<Try>)
    ensures |tries| == 3
  {
    [ ReturnTry(base, kickoff, Strict, p.retStrict),
      ReturnTry(base, kickoff, Soft1, p.retSoft1),
      ReturnTry(base, kickoff, Soft2, p.retSoft2) ]
  }

  // outboundDayMatchAttempts
  method OutboundDayMatchAttempts(p: Policy, base: FareSearch, kickoff: int) returns (tries: seq<Try>)
    ensures tries == OutboundTries(p, base, kickoff)
  {
    var windows := [(Strict, p.outStrict), (Soft1, p.outSoft1), (Soft2, p.outSoft2)];
    tries := [];
    for k := 0 to |windows|
      invariant |tries| == k
      invariant forall j :: 0 <= j < k ==> tries[j] == OutboundTry(base, kickoff, windows[j].0, windows[j].1)
    {
      var window := windows[k];
      var search := base;
      search := search.(arriveNotBefore := Some(kickoff - window.1.earliest));
      search := search.(arriveNotLater := Some(kickoff - window.1.latest));
      tries := tries + [Try(window.0, search)];
    }
  }

  // returnDayMatchAttempts
  method ReturnDayMatchAttempts(p: Policy, base: FareSearch, kickoff: int) returns (tries: seq<Try>)
    ensures tries == ReturnTries(p, base, kickoff)
  {
    var windows := [(Strict, p.retStrict), (Soft1, p.retSoft1), (Soft2, p.retSoft2)];
    tries := [];
    for k := 0 to |windows|
      invariant |tries| == k
      invariant forall j :: 0 <= j < k ==> tries[j] == ReturnTry(base, kickoff, windows[j].0, windows[j].1)
    {
      var window := windows[k];
      var search := base.(departNotBefore := Some(kickoff + window.1));
      tries := tries + [Try(window.0, search)];
    }
  }

  // The flight has a departure and a positive flight time, and lands between the two bounds
  // before kickoff (but not on the zero time).
  ghost predicate LandsWithin(item: Item, kickoff: int, b: Before) {
    && item.departureAt.Some? && (item.durationTo > 0 || item.duration > 0)
    && var minutes := if item.durationTo > 0 then item.durationTo else item.duration;
       var landing := item.departureAt.value + minutes * MINUTE;
       landing != 0 && b.latest <= kickoff - landing <= b.earliest
  }

  // The flight leaves at the given instant or later; the return time stands in for a
  // departure that is missing or zero.
  ghost predicate LeavesAfter(item: Item, earliest: int) {
    if item.departureAt.Some? && item.departureAt.value != 0 then item.departureAt.value >= earliest
    else item.returnAt.Some? && item.returnAt.value != 0 && item.returnAt.value >= earliest
  }

  lemma OutboundTryAdmits(base: FareSearch, kickoff: int, level: WindowLevel, b: Before, item: Item)
    requires base.departNotBefore.None?
    ensures PassesTimeConstraints(item, OutboundTry(base, kickoff, level, b).search) <==> LandsWithin(item, kickoff, b)
  {
  }

  lemma ReturnTryAdmits(base: FareSearch, kickoff: int, level: WindowLevel, after: int, item: Item)
    requires base.arriveNotBefore.None? && base.arriveNotLater.None?
    ensures PassesTimeConstraints(item, ReturnTry(base, kickoff, level, after).search) <==> LeavesAfter(item, kickoff + after)
  {
  }

  // --- Widening a window ---

  // Every price offered under one search is offered under the other.
  ghost predicate NoFareLost(data: seq<Item>, narrow: FareSearch, wide: FareSearch) {
    forall p :: p in Extracted(data, narrow) ==> p in Extracted(data, wide)
  }

  lemma LooserSearchLosesNothing(data: seq<Item>, narrow: FareSearch, wide: FareSearch)
    requires forall k :: 0 <= k < |data| && PassesTimeConstraints(data[k], narrow) ==> PassesTimeConstraints(data[k], wide)
    ensures NoFareLost(data, narrow, wide)
  {
  }

  // Some upstream data has a fare for one search and none for the other.
  ghost predicate Separates(data: seq<Item>, n: FareSearch, w: FareSearch) {
    Extracted(data, n) != [] && Extracted(data, w) == []
  }

  lemma OneFlightSeparates(item: Item, n: FareSearch, w: FareSearch)
    requires item.price > 0 && PassesTimeConstraints(item, n) && !PassesTimeConstraints(item, w)
    ensures Separates([item], n, w) && !NoFareLost([item], n, w)
  {
    var data := [item];
    assert data[0] == item;
    assert Offered(data, n, item.price);
    assert forall p :: !Offered(data, w, p);
    SomeElement(Extracted(data, w));
    assert item.price in Extracted(data, n);
  }

  // A flight that arrives inside one outbound window and outside the other.
  lemma OutboundFlight(base: FareSearch, kickoff: int, narrow: Before, wide: Before) returns (data: seq<Item>)
    requires ProperWindow(narrow) && kickoff > narrow.earliest && base.departNotBefore.None?
    requires !Within(narrow, wide)
    ensures var n, w := OutboundTry(base, kickoff, Strict, narrow).search, OutboundTry(base, kickoff, Strict, wide).search;
            Separates(data, n, w) && !NoFareLost(data, n, w)
  {
    var arrival := if wide.earliest < narrow.earliest then kickoff - narrow.earliest else kickoff - narrow.latest;
    var item := Item(1, Some(arrival - MINUTE), None, 1, 0);
    assert Arrival(item) == arrival;
    OneFlightSeparates(item, OutboundTry(base, kickoff, Strict, narrow).search, OutboundTry(base, kickoff, Strict, wide).search);
    data := [item];
  }

  // A flight that leaves late enough for one return bound and too early for the other.
  lemma ReturnFlight(base: FareSearch, kickoff: int, narrow: int, wide: int) returns (data: seq<Item>)
    requires 0 <= narrow < wide && kickoff > 0 && base.arriveNotBefore.None? && base.arriveNotLater.None?
    ensures var n, w := ReturnTry(base, kickoff, Strict, narrow).search, ReturnTry(base, kickoff, Strict, wide).search;
            Separates(data, n, w) && !NoFareLost(data, n, w)
  {
    var item := Item(1, Some(kickoff + narrow), None, 0, 0);
    OneFlightSeparates(item, ReturnTry(base, kickoff, Strict, narrow).search, ReturnTry(base, kickoff, Strict, wide).search);
    data := [item];
  }

  // An outbound window can replace another without ever losing a fare, whatever the
  // upstream data, exactly when it contains it.
  lemma OutboundWideningIsContainment(base: FareSearch, kickoff: int, narrow: Before, wide: Before)
    requires ProperWindow(narrow) && kickoff > narrow.earliest
    requires base.departNotBefore.None?
    ensures Within(narrow, wide) <==>
            forall data :: NoFareLost(data, OutboundTry(base, kickoff, Strict, narrow).search,
                                      OutboundTry(base, kickoff, Strict, wide).search)
  {
    if Within(narrow, wide) {
      forall data {
        LooserSearchLosesNothing(data, OutboundTry(base, kickoff, Strict, narrow).search,
                                 OutboundTry(base, kickoff, Strict, wide).search);
      }
    } else {
      var data := OutboundFlight(base, kickoff, narrow, wide);
    }
  }

  // The same for return windows: a bound may be relaxed without loss exactly downwards.
  lemma ReturnWideningIsContainment(base: FareSearch, kickoff: int, narrow: int, wide: int)
    requires narrow >= 0 && kickoff > 0
    requires base.arriveNotBefore.None? && base.arriveNotLater.None?
    ensures narrow >= wide <==>
            forall data :: NoFareLost(data, ReturnTry(base, kickoff, Strict, narrow).search,
                                      ReturnTry(base, kickoff, Strict, wide).search)
  {
    if narrow >= wide {
      forall data {
        LooserSearchLosesNothing(data, ReturnTry(base, kickoff, Strict, narrow).search,
                                 ReturnTry(base, kickoff, Strict, wide).search);
      }
    } else {
      var data := ReturnFlight(base, kickoff, narrow, wide);
    }
  }
}
