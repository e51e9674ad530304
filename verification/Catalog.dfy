// The airfare of one match as the gateway's catalogue shows it: the provider's six slots
// (airfare_service.go) go through the best-fare pass (catalog_handler.go).
module Catalog {
  import opened Common
  import opened BestFare
  import opened Text
  import Airfare
  import Windows
  import FareSource
  import Fanout

  // How kinds and days are written on the wire.
  datatype Rendering = Rendering(kind: Airfare.SlotKind -> string, date: int -> string)

  function ShownSlot(s: Airfare.FareSlot, as_: Rendering): Slot {
    Slot(as_.kind(s.kind), as_.date(s.date), if s.direction.Out? then Outbound else Return, s.prices)
  }

  function ShownSlots(slots: seq<Airfare.FareSlot>, as_: Rendering): (shown: seq<Slot>)
    ensures |shown| == |slots|
    ensures forall i :: 0 <= i < |slots| ==> shown[i] == ShownSlot(slots[i], as_)
  {
    seq(|slots|, i requires 0 <= i < |slots| => ShownSlot(slots[i], as_))
  }

  // Slots as the provider serves them: three outbound, three return, with positive prices
  // below 2^62 in strictly increasing order.
  ghost predicate WellPriced(slots: seq<Airfare.FareSlot>) {
    && |slots| == 6
    && (forall i :: 0 <= i < 6 ==> (slots[i].direction.Out? <==> i < 3))
    && (forall i :: 0 <= i < 6 ==> StrictlyIncreasing(slots[i].prices))
    && (forall i, p :: 0 <= i < 6 && p in slots[i].prices ==> 0 < p < TWO_TO_62)
  }

  // i is the slot of lo..hi whose first price is the least.
  ghost predicate CheapestSlot(slots: seq<Airfare.FareSlot>, lo: nat, hi: nat, i: nat)
    requires lo <= hi <= |slots|
  {
    && lo <= i < hi && slots[i].prices != []
    && forall j :: lo <= j < hi && slots[j].prices != [] ==> slots[i].prices[0] <= slots[j].prices[0]
  }

  lemma MinimumIsCheapestSlot(slots: seq<Airfare.FareSlot>, shown: seq<Slot>, as_: Rendering,
                              lo: nat, hi: nat, s: Slot, p: int)
    requires WellPriced(slots) && shown == ShownSlots(slots, as_) && lo <= hi <= 6
    requires exists i :: lo <= i < hi && shown[i] == s
    requires p in s.prices
    requires forall j, q :: lo <= j < hi && q in shown[j].prices ==> p <= q
    ensures exists i: nat :: CheapestSlot(slots, lo, hi, i) && shown[i] == s && slots[i].prices[0] == p
  {
    var i: nat :| lo <= i < hi && shown[i] == s;
    LeastIsFirst(slots[i].prices, p);
    forall j | lo <= j < hi && slots[j].prices != [] ensures p <= slots[j].prices[0] {
      assert slots[j].prices[0] in shown[j].prices;
    }
    assert CheapestSlot(slots, lo, hi, i);
  }

  // What the catalogue must say about six slots: the cheapest offer of all, and the round
  // trip made of the cheapest outbound and the cheapest return slot, if there are both.
  ghost predicate Reports(r: Option<Summary>, slots: seq<Airfare.FareSlot>, as_: Rendering)
    requires |slots| == 6
  {
    && (r.None? <==> forall i :: 0 <= i < 6 ==> slots[i].prices == [])
    && (r.Some? ==> exists i :: ReportsBest(r.value, slots, as_, i))
    && (r.Some? ==>
         if (exists i :: 0 <= i < 3 && slots[i].prices != []) && (exists j :: 3 <= j < 6 && slots[j].prices != []) then
           exists i, j :: ReportsRoundTrip(r.value, slots, as_, i, j)
         else r.value.roundTripPrice.None?)
  }

  ghost predicate ReportsBest(r: Summary, slots: seq<Airfare.FareSlot>, as_: Rendering, i: nat)
    requires |slots| == 6
  {
    && CheapestSlot(slots, 0, 6, i)
    && r.minPrice == slots[i].prices[0]
    && r.bestSlot == as_.kind(slots[i].kind)
    && r.bestDate == as_.date(slots[i].date)
  }

  ghost predicate ReportsRoundTrip(r: Summary, slots: seq<Airfare.FareSlot>, as_: Rendering, i: nat, j: nat)
    requires |slots| == 6
  {
    && CheapestSlot(slots, 0, 3, i) && CheapestSlot(slots, 3, 6, j)
    && r.roundTripPrice == Some(slots[i].prices[0] + slots[j].prices[0])
    && r.returnDate == as_.date(slots[j].date)
  }

  // A direction's minimum m is the first price of its cheapest slot, if it has prices.
  ghost predicate DirectionReported(m: Option<Offer>, slots: seq<Airfare.FareSlot>, as_: Rendering, lo: nat, hi: nat)
    requires lo <= hi <= |slots|
  {
    match m
    case None => forall i :: lo <= i < hi ==> slots[i].prices == []
    case Some(x) => exists i :: AtSlot(x, slots, as_, lo, hi, i)
  }

  ghost predicate AtSlot(x: Offer, slots: seq<Airfare.FareSlot>, as_: Rendering, lo: nat, hi: nat, i: nat)
    requires lo <= hi <= |slots|
  {
    CheapestSlot(slots, lo, hi, i) && x == Offer(ShownSlot(slots[i], as_), slots[i].prices[0])
  }

  lemma DirectionReport(slots: seq<Airfare.FareSlot>, as_: Rendering, d: Direction, lo: nat, hi: nat)
    requires WellPriced(slots)
    requires (d, lo, hi) == (Outbound, 0, 3) || (d, lo, hi) == (Return, 3, 6)
    ensures DirectionReported(Cheapest(Going(Offers(ShownSlots(slots, as_)), d)), slots, as_, lo, hi)
  {
    var shown := ShownSlots(slots, as_);
    var m := Cheapest(Going(Offers(shown), d));
    DirectionMinimum(shown, d);
    forall i, q | lo <= i < hi && q in shown[i].prices ensures Priced(shown, d, shown[i], q) {
    }
    forall i | lo <= i < hi && slots[i].prices != [] ensures m.Some? {
      assert Priced(shown, d, shown[i], shown[i].prices[0]);
    }
    if m.Some? {
      MinimumIsCheapestSlot(slots, shown, as_, lo, hi, m.value.slot, m.value.price);
      var i: nat :| CheapestSlot(slots, lo, hi, i) && shown[i] == m.value.slot && slots[i].prices[0] == m.value.price;
      assert AtSlot(m.value, slots, as_, lo, hi, i);
    }
  }

  lemma BestReport(slots: seq<Airfare.FareSlot>, as_: Rendering)
    requires WellPriced(slots)
    ensures var r := Summarize(ShownSlots(slots, as_));
            && (r.None? <==> forall i :: 0 <= i < 6 ==> slots[i].prices == [])
            && (r.Some? ==> exists i :: ReportsBest(r.value, slots, as_, i))
  {
    var shown := ShownSlots(slots, as_);
    var r := Summarize(shown);
    BestIsGlobalMinimum(shown);
    forall i | 0 <= i < 6 && slots[i].prices != [] ensures r.Some? {
      assert shown[i] in shown;
    }
    if r.Some? {
      var all := Offers(shown);
      var k :| IsFirstMinimum(all, k) && all[k].slot in shown && r.value.minPrice in all[k].slot.prices &&
               r.value.bestSlot == all[k].slot.kind && r.value.bestDate == all[k].slot.date;
      MinimumIsCheapestSlot(slots, shown, as_, 0, 6, all[k].slot, r.value.minPrice);
      var i: nat :| CheapestSlot(slots, 0, 6, i) && shown[i] == all[k].slot && slots[i].prices[0] == r.value.minPrice;
      assert ReportsBest(r.value, slots, as_, i);
    }
  }

  lemma RoundTripReport(slots: seq<Airfare.FareSlot>, as_: Rendering, r: Summary, out: Offer, ret: Offer, i: nat, j: nat)
    requires WellPriced(slots)
    requires AtSlot(out, slots, as_, 0, 3, i) && AtSlot(ret, slots, as_, 3, 6, j)
    requires r.roundTripPrice == Some(Wrap64(out.price + ret.price)) && r.returnDate == ret.slot.date
    ensures ReportsRoundTrip(r, slots, as_, i, j)
  {
    assert out.price in slots[i].prices && ret.price in slots[j].prices;
  }

  lemma DirectionsReport(slots: seq<Airfare.FareSlot>, as_: Rendering, r: Summary, out: Option<Offer>, ret: Option<Offer>)
    requires WellPriced(slots)
    requires DirectionReported(out, slots, as_, 0, 3) && DirectionReported(ret, slots, as_, 3, 6)
    requires r.roundTripPrice == if out.Some? && ret.Some? then Some(Wrap64(out.value.price + ret.value.price)) else None
    requires ret.Some? ==> r.returnDate == ret.value.slot.date
    ensures if (exists i :: 0 <= i < 3 && slots[i].prices != []) && (exists j :: 3 <= j < 6 && slots[j].prices != []) then
              exists i, j :: ReportsRoundTrip(r, slots, as_, i, j)
            else r.roundTripPrice.None?
  {
    if out.Some? && ret.Some? {
      var i :| AtSlot(out.value, slots, as_, 0, 3, i);
      var j :| AtSlot(ret.value, slots, as_, 3, 6, j);
      RoundTripReport(slots, as_, r, out.value, ret.value, i, j);
    }
  }

  lemma SummaryReports(slots: seq<Airfare.FareSlot>, as_: Rendering)
    requires WellPriced(slots)
    ensures Reports(Summarize(ShownSlots(slots, as_)), slots, as_)
  {
    var all := Offers(ShownSlots(slots, as_));
    var r, out, ret := SummaryOf(all), Cheapest(Going(all, Outbound)), Cheapest(Going(all, Return));
    BestReport(slots, as_);
    DirectionReport(slots, as_, Outbound, 0, 3);
    DirectionReport(slots, as_, Return, 3, 6);
    if r.Some? {
      DirectionsReport(slots, as_, r.value, out, ret);
    }
  }

  ghost predicate BelowBound(raw: Airfare.Raw, o: string, d: string, t: int, k: int) {
    raw(o, d, t).Some? && 0 <= k < |raw(o, d, t).value| ==> raw(o, d, t).value[k].price < TWO_TO_62
  }

  lemma OfferedIsWellPriced(raw: Airfare.Raw, try_: Windows.Try, slot: Airfare.FareSlot)
    requires forall o, d, t, k :: BelowBound(raw, o, d, t, k)
    requires Airfare.OfferedTo(raw, try_, slot)
    ensures StrictlyIncreasing(slot.prices) && forall p :: p in slot.prices ==> 0 < p < TWO_TO_62
  {
    var search := try_.search;
    var data := raw(search.origin, search.destination, search.date).value;
    forall p | p in slot.prices ensures 0 < p < TWO_TO_62 {
      assert FareSource.Offered(data, search, p);
      var k :| 0 <= k < |data| && data[k].price == p && p > 0;
      assert BelowBound(raw, search.origin, search.destination, search.date, k);
    }
  }

  lemma ServedIsWellPriced(p: Windows.Policy, raw: Airfare.Raw,
                           reader: int -> Result<Airfare.Snapshot, Airfare.Error>, matchId: int, origin: string)
    requires forall o, d, t, k :: BelowBound(raw, o, d, t, k)
    ensures var r := Airfare.Compute(p, Airfare.Upstream(reader, Some(Airfare.SourceOver(raw))), matchId, origin);
            r.Ok? ==> WellPriced(r.value.slots)
  {
    Airfare.ServedPricesAreOffered(p, raw, reader, matchId, origin);
    var r := Airfare.Compute(p, Airfare.Upstream(reader, Some(Airfare.SourceOver(raw))), matchId, origin);
    if r.Ok? {
      var m := reader(matchId).value;
      var trip := Airfare.Trip(p, Normalize(origin), Normalize(m.destinationIata), m.kickoff);
      forall i: nat | i < 6
        ensures StrictlyIncreasing(r.value.slots[i].prices)
        ensures forall p :: p in r.value.slots[i].prices ==> 0 < p < TWO_TO_62
      {
        if r.value.slots[i].prices != [] {
          assert Airfare.AllOffered(trip, raw, i, r.value.slots[i]);
          var k: nat :| k < |Airfare.SlotTries(trip, i)| &&
                        Airfare.OfferedTo(raw, Airfare.SlotTries(trip, i)[k], r.value.slots[i]);
          OfferedIsWellPriced(raw, Airfare.SlotTries(trip, i)[k], r.value.slots[i]);
        }
      }
    }
  }

  // From upstream fares to the catalogue: whatever the upstream answers for each route and
  // day, if its prices are below 2^62 then the catalogue shows the least first price and the
  // sum of the cheapest outbound and return slots of what the provider serves.
  lemma CatalogueShowsCheapestSlots(p: Windows.Policy, raw: Airfare.Raw, as_: Rendering,
                                    reader: int -> Result<Airfare.Snapshot, Airfare.Error>, matchId: int, origin: string)
    requires forall o, d, t, k :: BelowBound(raw, o, d, t, k)
    ensures var r := Airfare.Compute(p, Airfare.Upstream(reader, Some(Airfare.SourceOver(raw))), matchId, origin);
            r.Ok? ==> |r.value.slots| == 6 && Reports(Summarize(ShownSlots(r.value.slots, as_)), r.value.slots, as_)
  {
    ServedIsWellPriced(p, raw, reader, matchId, origin);
    var r := Airfare.Compute(p, Airfare.Upstream(reader, Some(Airfare.SourceOver(raw))), matchId, origin);
    if r.Ok? {
      SummaryReports(r.value.slots, as_);
    }
  }

  // From upstream fares to the response of the gateway: when a match's call is answered with
  // what the provider computed, its item reports the cheapest slots that the provider served.
  lemma ItemReportsServedSlots(jobs: seq<Fanout.Job>, run: seq<Fanout.State>, j: nat,
                               p: Windows.Policy, raw: Airfare.Raw, as_: Rendering,
                               reader: int -> Result<Airfare.Snapshot, Airfare.Error>, matchId: int, origin: string)
    requires Fanout.IsRun(jobs, run) && run[|run| - 1].main.Responded? && j < |jobs|
    requires forall o, d, t, k :: BelowBound(raw, o, d, t, k)
    requires var r := Airfare.Compute(p, Airfare.Upstream(reader, Some(Airfare.SourceOver(raw))), matchId, origin);
             r.Ok? && jobs[j] == Fanout.Remote(Fanout.Loaded(ShownSlots(r.value.slots, as_)))
    ensures var r := Airfare.Compute(p, Airfare.Upstream(reader, Some(Airfare.SourceOver(raw))), matchId, origin);
            var items := run[|run| - 1].items;
            j < |items| && |r.value.slots| == 6 && Reports(items[j].fare, r.value.slots, as_)
            && (items[j].error == "" <==> items[j].fare.Some?)
  {
    CatalogueShowsCheapestSlots(p, raw, as_, reader, matchId, origin);
    Fanout.FanoutRefinesSequentialLoop(jobs, run);
  }
}
