// The fare summary of the gateway's catalogue (catalog_handler.go, findBestFare):
// one pass over all slots keeps three running minima.
module BestFare {
  import opened Common

  datatype Direction = Outbound | Return | Unspecified

  datatype Slot = Slot(kind: string, date: string, direction: Direction, prices: seq<int>)

  datatype Summary = Summary(
    minPrice: int,
    bestSlot: string,
    bestDate: string,
    outboundPrice: Option<int>,
    returnPrice: Option<int>,
    returnDate: string,
    roundTripPrice: Option<int>)

  // One price together with the slot that offers it.
  datatype Offer = Offer(slot: Slot, price: int)

  // The offers in the order in which the nested loops meet them.
  function OffersOf(slot: Slot, k: nat): (offers: seq<Offer>)
    requires k <= |slot.prices|
    ensures |offers| == k
    ensures forall j :: 0 <= j < k ==> offers[j] == Offer(slot, slot.prices[j])
  {
    seq(k, j requires 0 <= j < k => Offer(slot, slot.prices[j]))
  }

  function Offers(slots: seq<Slot>): seq<Offer> {
    if slots == [] then []
    else
      var last := slots[|slots| - 1];
      Offers(slots[..|slots| - 1]) + OffersOf(last, |last.prices|)
  }

  function Going(offers: seq<Offer>, d: Direction): seq<Offer> {
    if offers == [] then []
    else
      var rest, last := Going(offers[..|offers| - 1], d), offers[|offers| - 1];
      if last.slot.direction == d then rest + [last] else rest
  }

  // The cheapest offer; the earliest one among equally cheap offers.
  function Cheapest(offers: seq<Offer>): (best: Option<Offer>)
    ensures best.None? <==> offers == []
  {
    if offers == [] then None
    else
      var rest, last := Cheapest(offers[..|offers| - 1]), offers[|offers| - 1];
      if rest.None? || last.price < rest.value.price then Some(last) else rest
  }

  function PriceOf(best: Option<Offer>): Option<int> {
    if best.Some? then Some(best.value.price) else None
  }

  function Summarize(slots: seq<Slot>): Option<Summary> {
    SummaryOf(Offers(slots))
  }

  function SummaryOf(all: seq<Offer>): Option<Summary> {
    var best, out, ret := Cheapest(all), Cheapest(Going(all, Outbound)), Cheapest(Going(all, Return));
    if best.None? then None
    else Some(Summary(
                best.value.price,
                best.value.slot.kind,
                best.value.slot.date,
                PriceOf(out),
                PriceOf(ret),
                if ret.Some? then ret.value.slot.date else "",
                if out.Some? && ret.Some? then Some(Wrap64(out.value.price + ret.value.price)) else None))
  }

  // A minimum as the loop keeps it: a flag, the price and what came with the price.
  datatype Running = Running(has: bool, price: int, kind: string, date: string)

  const UNSET := Running(false, 0, "", "")

  ghost predicate Tracks(r: Running, best: Option<Offer>) {
    match best
    case None => r == UNSET
    case Some(offer) => r == Running(true, offer.price, offer.slot.kind, offer.slot.date)
  }

  function Improve(r: Running, x: Offer): Running {
    if !r.has || x.price < r.price then Running(true, x.price, x.slot.kind, x.slot.date) else r
  }

  // findBestFare
  method FindBestFare(slots: seq<Slot>) returns (summary: Option<Summary>)
    ensures summary == Summarize(slots)
  {
    var best, outbound, return_ := UNSET, UNSET, UNSET;
    ghost var seen: seq<Offer> := [];

    for i := 0 to |slots|
      invariant seen == Offers(slots[..i])
      invariant Tracks(best, Cheapest(seen))
      invariant Tracks(outbound, Cheapest(Going(seen, Outbound)))
      invariant Tracks(return_, Cheapest(Going(seen, Return)))
    {
      var slot := slots[i];
      ghost var before := seen;
      assert OffersOf(slot, 0) == [];
      for j := 0 to |slot.prices|
        invariant seen == before + OffersOf(slot, j)
        invariant Tracks(best, Cheapest(seen))
        invariant Tracks(outbound, Cheapest(Going(seen, Outbound)))
        invariant Tracks(return_, Cheapest(Going(seen, Return)))
      {
        var x := Offer(slot, slot.prices[j]);
        AppendOffer(seen, x, best, outbound, return_);
        assert OffersOf(slot, j + 1) == OffersOf(slot, j) + [x];
        seen := seen + [x];

        best := Improve(best, x);
        match slot.direction {
          case Outbound => outbound := Improve(outbound, x);
          case Return => return_ := Improve(return_, x);
          case Unspecified =>
        }
      }
      assert slots[..i + 1][..i] == slots[..i];
    }
    assert slots[..|slots|] == slots;

    if !best.has {
      return None;
    }
    var outboundPrice := if outbound.has then Some(outbound.price) else None;
    var returnPrice := if return_.has then Some(return_.price) else None;
    var roundTripPrice := if outbound.has && return_.has then Some(Wrap64(outbound.price + return_.price)) else None;
    summary := Some(Summary(best.price, best.kind, best.date, outboundPrice, returnPrice, return_.date, roundTripPrice));
  }

  lemma AppendOffer(offers: seq<Offer>, x: Offer, best: Running, outbound: Running, return_: Running)
    requires Tracks(best, Cheapest(offers))
    requires Tracks(outbound, Cheapest(Going(offers, Outbound)))
    requires Tracks(return_, Cheapest(Going(offers, Return)))
    ensures Tracks(Improve(best, x), Cheapest(offers + [x]))
    ensures Tracks(if x.slot.direction.Outbound? then Improve(outbound, x) else outbound,
                   Cheapest(Going(offers + [x], Outbound)))
    ensures Tracks(if x.slot.direction.Return? then Improve(return_, x) else return_,
                   Cheapest(Going(offers + [x], Return)))
  {
  }

  // --- What Offers, Going and Cheapest mean ---

  ghost predicate IsFirstMinimum(offers: seq<Offer>, k: int) {
    && 0 <= k < |offers|
    && (forall j :: 0 <= j < k ==> offers[k].price < offers[j].price)
    && (forall j :: k <= j < |offers| ==> offers[k].price <= offers[j].price)
  }

  lemma ExtendMinimum(offers: seq<Offer>, k: int)
    requires offers != [] && IsFirstMinimum(offers[..|offers| - 1], k)
    ensures var n := |offers| - 1; IsFirstMinimum(offers, if offers[n].price < offers[k].price then n else k)
  {
  }

  lemma {:induction false} CheapestIsFirstMinimum(offers: seq<Offer>)
    requires offers != []
    ensures exists k :: IsFirstMinimum(offers, k) && Cheapest(offers) == Some(offers[k])
  {
    var n := |offers| - 1;
    if n == 0 {
      assert IsFirstMinimum(offers, 0);
    } else {
      var front := offers[..n];
      CheapestIsFirstMinimum(front);
      var k :| IsFirstMinimum(front, k) && Cheapest(front) == Some(front[k]);
      ExtendMinimum(offers, k);
    }
  }

  lemma {:induction false} GoingIsTheDirection(offers: seq<Offer>, d: Direction)
    ensures forall x :: x in Going(offers, d) <==> x in offers && x.slot.direction == d
  {
    if offers != [] {
      var n := |offers| - 1;
      GoingIsTheDirection(offers[..n], d);
      assert offers == offers[..n] + [offers[n]];
    }
  }

  lemma {:induction false} OffersAreThePrices(slots: seq<Slot>, x: Offer)
    ensures x in Offers(slots) <==> x.slot in slots && x.price in x.slot.prices
  {
    if slots != [] {
      var n := |slots| - 1;
      var last := slots[n];
      OffersAreThePrices(slots[..n], x);
      assert slots == slots[..n] + [last];
      var mine := OffersOf(last, |last.prices|);
      if x.slot == last && x.price in last.prices {
        var j :| 0 <= j < |last.prices| && last.prices[j] == x.price;
        assert mine[j] == x;
      }
    }
  }

  // The best price over all slots, taken at its first occurrence in slot order.
  lemma BestIsGlobalMinimum(slots: seq<Slot>)
    ensures Summarize(slots).None? <==> forall s :: s in slots ==> s.prices == []
    ensures Summarize(slots).Some? ==>
              var r, all := Summarize(slots).value, Offers(slots);
              && (exists k ::
                    && IsFirstMinimum(all, k)
                    && all[k].slot in slots
                    && r.minPrice == all[k].price
                    && r.minPrice in all[k].slot.prices
                    && r.bestSlot == all[k].slot.kind
                    && r.bestDate == all[k].slot.date)
              && (forall s, p :: s in slots && p in s.prices ==> r.minPrice <= p)
  {
    var all := Offers(slots);
    forall s | s in slots && s.prices != [] ensures Offer(s, s.prices[0]) in all {
      OffersAreThePrices(slots, Offer(s, s.prices[0]));
    }
    if all != [] {
      CheapestIsFirstMinimum(all);
      var k :| IsFirstMinimum(all, k) && Cheapest(all) == Some(all[k]);
      OffersAreThePrices(slots, all[k]);
      assert all[k].slot in slots && all[k].slot.prices != [];
      forall s, p | s in slots && p in s.prices ensures all[k].price <= p {
        OffersAreThePrices(slots, Offer(s, p));
        assert Offer(s, p) in all;
      }
    }
  }

  ghost predicate Priced(slots: seq<Slot>, d: Direction, s: Slot, p: int) {
    s in slots && s.direction == d && p in s.prices
  }

  // The minimum of a direction is attained and is a lower bound, and it is absent exactly
  // when no slot of that direction has a price.
  lemma DirectionMinimum(slots: seq<Slot>, d: Direction)
    ensures var m := Cheapest(Going(Offers(slots), d));
            && (m.None? <==> forall s, p :: !Priced(slots, d, s, p))
            && (m.Some? ==> Priced(slots, d, m.value.slot, m.value.price))
            && (m.Some? ==> forall s, p :: Priced(slots, d, s, p) ==> m.value.price <= p)
  {
    var going := Going(Offers(slots), d);
    GoingIsTheDirection(Offers(slots), d);
    forall s, p ensures Offer(s, p) in going <==> Priced(slots, d, s, p) {
      OffersAreThePrices(slots, Offer(s, p));
    }
    if going == [] {
      assert forall s, p :: Offer(s, p) !in going;
    } else {
      CheapestIsFirstMinimum(going);
      var k :| IsFirstMinimum(going, k) && Cheapest(going) == Some(going[k]);
      assert Offer(going[k].slot, going[k].price) in going;
      forall s, p | Priced(slots, d, s, p) ensures going[k].price <= p {
        assert Offer(s, p) in going;
      }
    }
  }

  ghost predicate IsLeast(slots: seq<Slot>, d: Direction, p: int) {
    (exists s :: Priced(slots, d, s, p)) && forall s, q :: Priced(slots, d, s, q) ==> p <= q
  }

  // Each direction reports its own minimum, also when the other direction has no price.
  lemma DirectionPricesAreMinima(slots: seq<Slot>)
    requires Summarize(slots).Some?
    ensures var r := Summarize(slots).value;
            && (r.outboundPrice.None? <==> forall s, p :: !Priced(slots, Outbound, s, p))
            && (r.outboundPrice.Some? ==> IsLeast(slots, Outbound, r.outboundPrice.value))
            && (r.returnPrice.None? <==> forall s, p :: !Priced(slots, Return, s, p))
            && (r.returnPrice.Some? ==> IsLeast(slots, Return, r.returnPrice.value))
            && (r.returnPrice.Some? ==> exists s :: Priced(slots, Return, s, r.returnPrice.value) && s.date == r.returnDate)
            && (r.returnPrice.None? ==> r.returnDate == "")
  {
    DirectionMinimum(slots, Outbound);
    DirectionMinimum(slots, Return);
  }

  // The round trip is the cheapest combination of an outbound and a return price;
  // int64 addition reports it exactly when that sum is an int64.
  lemma RoundTripIsCheapestPair(slots: seq<Slot>)
    requires Summarize(slots).Some?
    ensures var s := Summarize(slots).value;
            && (s.roundTripPrice.Some? <==>
                 && (exists o, p :: Priced(slots, Outbound, o, p))
                 && (exists r, q :: Priced(slots, Return, r, q)))
            && (s.roundTripPrice.Some? ==>
                 && s.outboundPrice.Some? && s.returnPrice.Some?
                 && (exists o :: Priced(slots, Outbound, o, s.outboundPrice.value))
                 && (exists r :: Priced(slots, Return, r, s.returnPrice.value) && r.date == s.returnDate)
                 && (forall o, p, r, q :: Priced(slots, Outbound, o, p) && Priced(slots, Return, r, q) ==>
                      s.outboundPrice.value + s.returnPrice.value <= p + q)
                 && (s.roundTripPrice.value == s.outboundPrice.value + s.returnPrice.value
                     <==> InInt64(s.outboundPrice.value + s.returnPrice.value)))
  {
    DirectionMinimum(slots, Outbound);
    DirectionMinimum(slots, Return);
  }

  // Positive prices below 2^62 never overflow the round trip.
  lemma RoundTripDoesNotOverflow(slots: seq<Slot>)
    requires forall s, p :: s in slots && p in s.prices ==> 0 < p < TWO_TO_62
    ensures Summarize(slots).Some? && Summarize(slots).value.roundTripPrice.Some? ==>
              var s := Summarize(slots).value;
              && s.outboundPrice.Some? && s.returnPrice.Some?
              && s.roundTripPrice.value == s.outboundPrice.value + s.returnPrice.value
              && s.roundTripPrice.value > 0
  {
    DirectionMinimum(slots, Outbound);
    DirectionMinimum(slots, Return);
  }

  // The cheapest offer of a strictly increasing price list is its first price.
  lemma LeastIsFirst(prices: seq<int>, p: int)
    requires StrictlyIncreasing(prices) && p in prices
    requires forall q :: q in prices ==> p <= q
    ensures prices[0] == p
  {
    assert prices[0] in prices;
  }

  // On price lists as the fare source extracts them every reported price is the first
  // price of some slot.
  lemma FirstPricesDecide(slots: seq<Slot>)
    requires forall s :: s in slots ==> StrictlyIncreasing(s.prices)
    requires Summarize(slots).Some?
    ensures var r := Summarize(slots).value;
            && (exists s :: s in slots && s.prices != [] && s.prices[0] == r.minPrice &&
                  s.kind == r.bestSlot && s.date == r.bestDate)
            && (r.outboundPrice.Some? ==> exists s :: FirstPrice(slots, Outbound, s, r.outboundPrice.value))
            && (r.returnPrice.Some? ==> exists s :: FirstPrice(slots, Return, s, r.returnPrice.value))
  {
    BestIsGlobalMinimum(slots);
    var all := Offers(slots);
    var r := Summarize(slots).value;
    var k :| IsFirstMinimum(all, k) && all[k].slot in slots && r.minPrice in all[k].slot.prices &&
             r.bestSlot == all[k].slot.kind && r.bestDate == all[k].slot.date;
    LeastIsFirst(all[k].slot.prices, r.minPrice);
    DirectionFirstPrice(slots, Outbound);
    DirectionFirstPrice(slots, Return);
  }

  ghost predicate FirstPrice(slots: seq<Slot>, d: Direction, s: Slot, p: int) {
    s in slots && s.direction == d && s.prices != [] && s.prices[0] == p
  }

  lemma DirectionFirstPrice(slots: seq<Slot>, d: Direction)
    requires forall s :: s in slots ==> StrictlyIncreasing(s.prices)
    ensures var m := Cheapest(Going(Offers(slots), d));
            m.Some? ==> FirstPrice(slots, d, m.value.slot, m.value.price)
  {
    DirectionMinimum(slots, d);
    var m := Cheapest(Going(Offers(slots), d));
    if m.Some? {
      forall q | q in m.value.slot.prices ensures m.value.price <= q {
        assert Priced(slots, d, m.value.slot, q);
      }
      LeastIsFirst(m.value.slot.prices, m.value.price);
    }
  }

  // --- The summary in terms of the slots alone ---

  predicate Counts(d: Option<Direction>, s: Slot) {
    d.None? || s.direction == d.value
  }

  function Restricted(offers: seq<Offer>, d: Option<Direction>): seq<Offer> {
    if d.None? then offers else Going(offers, d.value)
  }

  // p is the least price of the slots that count, and slot i is the first to list it.
  ghost predicate FirstLeast(slots: seq<Slot>, d: Option<Direction>, i: int, p: int) {
    && 0 <= i < |slots| && Counts(d, slots[i]) && p in slots[i].prices
    && forall j, q :: 0 <= j < |slots| && Counts(d, slots[j]) && q in slots[j].prices ==> if j < i then p < q else p <= q
  }

  ghost predicate NoPrice(slots: seq<Slot>, d: Option<Direction>) {
    forall i :: 0 <= i < |slots| && Counts(d, slots[i]) ==> slots[i].prices == []
  }

  lemma {:induction false} CheapestAppend(a: seq<Offer>, b: seq<Offer>)
    ensures Cheapest(a + b) ==
            if Cheapest(b).None? || (Cheapest(a).Some? && Cheapest(a).value.price <= Cheapest(b).value.price)
            then Cheapest(a) else Cheapest(b)
  {
    if b == [] {
      assert a + b == a;
    } else {
      CheapestAppend(a, b[..|b| - 1]);
      assert (a + b)[..|a + b| - 1] == a + b[..|b| - 1];
    }
  }

  lemma {:induction false} GoingAppend(a: seq<Offer>, b: seq<Offer>, d: Direction)
    ensures Going(a + b, d) == Going(a, d) + Going(b, d)
  {
    if b == [] {
      assert a + b == a;
    } else {
      GoingAppend(a, b[..|b| - 1], d);
      assert (a + b)[..|a + b| - 1] == a + b[..|b| - 1];
    }
  }

  lemma {:induction false} GoingOfSlot(slot: Slot, k: nat, d: Direction)
    requires k <= |slot.prices|
    ensures Going(OffersOf(slot, k), d) == if slot.direction == d then OffersOf(slot, k) else []
  {
    if k > 0 {
      assert OffersOf(slot, k)[..k - 1] == OffersOf(slot, k - 1);
      GoingOfSlot(slot, k - 1, d);
    }
  }

  lemma CheapestOfSlot(slot: Slot)
    ensures var m := Cheapest(OffersOf(slot, |slot.prices|));
            && (m.None? <==> slot.prices == [])
            && (m.Some? ==> m.value.slot == slot && m.value.price in slot.prices &&
                            forall q :: q in slot.prices ==> m.value.price <= q)
  {
    var mine := OffersOf(slot, |slot.prices|);
    if mine != [] {
      CheapestIsFirstMinimum(mine);
    }
  }

  // The part of a slot that counts, and how it adds to what came before.
  lemma OneMoreSlot(slots: seq<Slot>, d: Option<Direction>)
    requires slots != []
    ensures var n := |slots| - 1;
            var before := Cheapest(Restricted(Offers(slots[..n]), d));
            var mine := Cheapest(OffersOf(slots[n], |slots[n].prices|));
            Cheapest(Restricted(Offers(slots), d)) ==
            if !Counts(d, slots[n]) || mine.None? || (before.Some? && before.value.price <= mine.value.price)
            then before else mine
  {
    var n := |slots| - 1;
    var before, mine := Offers(slots[..n]), OffersOf(slots[n], |slots[n].prices|);
    if d.Some? {
      GoingAppend(before, mine, d.value);
      GoingOfSlot(slots[n], |slots[n].prices|, d.value);
      CheapestAppend(Going(before, d.value), Going(mine, d.value));
    } else {
      CheapestAppend(before, mine);
    }
  }

  ghost predicate Describes(m: Option<Offer>, slots: seq<Slot>, d: Option<Direction>) {
    match m
    case None => NoPrice(slots, d)
    case Some(x) => exists i :: FirstLeast(slots, d, i, x.price) && x.slot == slots[i]
  }

  lemma ExtendDescription(slots: seq<Slot>, d: Option<Direction>, before: Option<Offer>)
    requires slots != [] && Describes(before, slots[..|slots| - 1], d)
    ensures var n := |slots| - 1;
            var mine := Cheapest(OffersOf(slots[n], |slots[n].prices|));
            var m := if !Counts(d, slots[n]) || mine.None? || (before.Some? && before.value.price <= mine.value.price)
                     then before else mine;
            Describes(m, slots, d)
  {
    var n := |slots| - 1;
    var front := slots[..n];
    CheapestOfSlot(slots[n]);
    var mine := Cheapest(OffersOf(slots[n], |slots[n].prices|));
    assert forall j :: 0 <= j < n ==> front[j] == slots[j];
    if !Counts(d, slots[n]) || mine.None? || (before.Some? && before.value.price <= mine.value.price) {
      if before.Some? {
        var i :| FirstLeast(front, d, i, before.value.price) && before.value.slot == front[i];
        assert FirstLeast(slots, d, i, before.value.price);
      }
    } else {
      assert FirstLeast(slots, d, n, mine.value.price);
    }
  }

  lemma {:induction false} CheapestDescribes(slots: seq<Slot>, d: Option<Direction>)
    ensures Describes(Cheapest(Restricted(Offers(slots), d)), slots, d)
  {
    if slots != [] {
      CheapestDescribes(slots[..|slots| - 1], d);
      OneMoreSlot(slots, d);
      ExtendDescription(slots, d, Cheapest(Restricted(Offers(slots[..|slots| - 1]), d)));
    }
  }

  // What a summary must say about the slots it was made of: the least price with kind and
  // date of the first slot that lists it, the least price of each direction with the date of
  // the first return slot that lists it, and the sum of the two as far as it is an int64.
  ghost predicate Shows(r: Summary, slots: seq<Slot>) {
    && (exists i :: FirstLeast(slots, None, i, r.minPrice) && r.bestSlot == slots[i].kind && r.bestDate == slots[i].date)
    && (match r.outboundPrice
        case None => NoPrice(slots, Some(Outbound))
        case Some(p) => exists i :: FirstLeast(slots, Some(Outbound), i, p))
    && (match r.returnPrice
        case None => NoPrice(slots, Some(Return)) && r.returnDate == ""
        case Some(p) => exists i :: FirstLeast(slots, Some(Return), i, p) && r.returnDate == slots[i].date)
    && (r.roundTripPrice.Some? <==> r.outboundPrice.Some? && r.returnPrice.Some?)
    && (r.roundTripPrice.Some? ==>
          var sum := r.outboundPrice.value + r.returnPrice.value; r.roundTripPrice.value == sum <==> InInt64(sum))
  }

  // Slots without any price have no summary; all others have one, and it shows them.
  lemma SummaryShows(slots: seq<Slot>)
    ensures Summarize(slots).None? <==> NoPrice(slots, None)
    ensures Summarize(slots).Some? ==> Shows(Summarize(slots).value, slots)
  {
    CheapestDescribes(slots, None);
    CheapestDescribes(slots, Some(Outbound));
    CheapestDescribes(slots, Some(Return));
    var best := Cheapest(Offers(slots));
    if best.Some? {
      var i :| FirstLeast(slots, None, i, best.value.price) && best.value.slot == slots[i];
      assert !NoPrice(slots, None);
    }
  }
}
