// The airfare service (airfare_service.go): six slots around a match, up to three tries
// for the two match-day slots, and a cache keyed on the match and the normalized origin.
module Airfare {
  import opened Common
  import opened Text
  import opened FareSource
  import opened Windows

  datatype SlotKind = OutDMinus2 | OutDMinus1 | OutD0ArriveBy | RetD0DepartAfter | RetDPlus1 | RetDPlus2

  datatype Direction = Out | Ret

  datatype FareSlot = FareSlot(kind: SlotKind, direction: Direction, date: int, prices: seq<int>, level: WindowLevel)

  datatype AirfareByMatch = AirfareByMatch(matchId: int, ticketsLink: string, slots: seq<FareSlot>)

  datatype Snapshot = Snapshot(matchId: int, kickoff: int, destinationIata: string, ticketsLink: string)

  datatype Error = MatchNotFound | InvalidOrigin | InvalidRoute | SourceTemporary | ReaderFailed(message: string)

  // --- Slots and their tries ---

  function DayOf(t: int): int {
    t - t % DAY
  }

  // buildDefaultSlots
  function DefaultSlots(kickoff: int): (slots: seq<FareSlot>)
    ensures |slots| == 6
  {
    var day := DayOf(kickoff);
    [ FareSlot(OutDMinus2, Out, day - 2 * DAY, [], Strict),
      FareSlot(OutDMinus1, Out, day - DAY, [], Strict),
      FareSlot(OutD0ArriveBy, Out, day, [], Strict),
      FareSlot(RetD0DepartAfter, Ret, day, [], Strict),
      FareSlot(RetDPlus1, Ret, day + DAY, [], Strict),
      FareSlot(RetDPlus2, Ret, day + 2 * DAY, [], Strict) ]
  }

  function BaseSearch(slot: FareSlot, origin: string, destination: string): FareSearch {
    if slot.direction.Out? then
      FareSearch(Normalize(origin), Normalize(destination), slot.date, None, None, None)
    else
      FareSearch(Normalize(destination), Normalize(origin), slot.date, None, None, None)
  }

  // buildFareSearchAttempts
  function Tries(p: Policy, slot: FareSlot, origin: string, destination: string, kickoff: int): (tries: seq<Try>)
    ensures |tries| == if slot.kind.OutD0ArriveBy? || slot.kind.RetD0DepartAfter? then 3 else 1
  {
    var base := BaseSearch(slot, origin, destination);
    match slot.kind
    case OutD0ArriveBy => OutboundTries(p, base, kickoff)
    case RetD0DepartAfter => ReturnTries(p, base, kickoff)
    case _ => [Try(Strict, base)]
  }

  // --- The fallback loop of one slot ---

  // The answer to a try: its prices, or None when the call failed.
  type Answer = Option<seq<int>>

  predicate Hit(a: Answer) {
    a.Some? && a.value != []
  }

  datatype Selection = Selection(level: WindowLevel, prices: seq<int>, calls: nat, failures: nat)

  function FirstHit(answers: seq<Answer>): (k: nat)
    ensures k <= |answers|
    ensures k < |answers| ==> Hit(answers[k])
    ensures forall j :: 0 <= j < k ==> !Hit(answers[j])
  {
    if answers == [] || Hit(answers[0]) then 0
    else
      var k := FirstHit(answers[1..]);
      assert forall j :: 1 <= j < k + 1 ==> answers[j] == answers[1..][j - 1];
      1 + k
  }

  function Failures(answers: seq<Answer>): nat {
    if answers == [] then 0 else Failures(answers[..|answers| - 1]) + if answers[|answers| - 1].None? then 1 else 0
  }

  // The level of the last try that was answered.
  function LastAnswered(tries: seq<Try>, answers: seq<Answer>): WindowLevel
    requires |tries| == |answers|
  {
    var n := |tries|;
    if n == 0 then Strict
    else if answers[n - 1].Some? then tries[n - 1].level
    else LastAnswered(tries[..n - 1], answers[..n - 1])
  }

  function Select(tries: seq<Try>, answers: seq<Answer>): Selection
    requires |tries| == |answers|
  {
    var k := FirstHit(answers);
    if k < |answers| then
      Selection(tries[k].level, answers[k].value, k + 1, Failures(answers[..k + 1]))
    else
      Selection(LastAnswered(tries, answers), [], |answers|, Failures(answers))
  }

  // The inner loop of GetAirfareByMatch. answers[k] is what the source would say to try k;
  // tries after the one that ends the loop are never made.
  method SearchSlot(tries: seq<Try>, answers: seq<Answer>) returns (selected: Selection)
    requires |tries| == |answers| > 0
    ensures selected == Select(tries, answers)
  {
    var selectedLevel := Strict;
    var selectedPrices: seq<int> := [];
    var calls, failures := 0, 0;
    for k := 0 to |tries|
      invariant calls == k
      invariant failures == Failures(answers[..k])
      invariant selectedPrices == []
      invariant forall j :: 0 <= j < k ==> !Hit(answers[j])
      invariant selectedLevel == LastAnswered(tries[..k], answers[..k])
    {
      assert answers[..k + 1][..k] == answers[..k] && tries[..k + 1][..k] == tries[..k];
      calls := calls + 1;
      if answers[k].None? {
        failures := failures + 1;
        continue;
      }
      selectedLevel := tries[k].level;
      selectedPrices := answers[k].value;
      if |selectedPrices| > 0 || k == |tries| - 1 {
        assert |selectedPrices| == 0 ==> tries[..k + 1] == tries && answers[..k + 1] == answers;
        return Selection(selectedLevel, selectedPrices, calls, failures);
      }
    }
    assert tries[..|tries|] == tries && answers[..|answers|] == answers;
    return Selection(selectedLevel, selectedPrices, calls, failures);
  }

  lemma {:induction false} LastAnsweredMeaning(tries: seq<Try>, answers: seq<Answer>)
    requires |tries| == |answers|
    ensures (forall j :: 0 <= j < |answers| ==> answers[j].None?) ==> LastAnswered(tries, answers) == Strict
    ensures (exists j :: 0 <= j < |answers| && answers[j].Some?) ==>
              exists j :: 0 <= j < |answers| && answers[j].Some? && LastAnswered(tries, answers) == tries[j].level &&
                          forall i :: j < i < |answers| ==> answers[i].None?
  {
    var n := |tries|;
    if n > 0 && answers[n - 1].None? {
      LastAnsweredMeaning(tries[..n - 1], answers[..n - 1]);
    }
  }

  lemma {:induction false} FailuresMeaning(answers: seq<Answer>)
    ensures Failures(answers) <= |answers|
    ensures Failures(answers) == |answers| <==> forall j :: 0 <= j < |answers| ==> answers[j].None?
  {
    if answers != [] {
      FailuresMeaning(answers[..|answers| - 1]);
    }
  }

  // For every pattern of errors: the first successful non-empty try is chosen; failing that
  // the level of the last successful try with no prices; failing that strict with no prices.
  // Tries stop at the first hit, and all calls failed exactly when every try did.
  lemma FallbackMeetsItsSpecification(tries: seq<Try>, answers: seq<Answer>)
    requires |tries| == |answers| > 0
    ensures var s := Select(tries, answers);
            && 1 <= s.calls <= |tries|
            && (s.failures == s.calls <==> forall j :: 0 <= j < |answers| ==> answers[j].None?)
            && (forall j :: 0 <= j < s.calls - 1 ==> !Hit(answers[j]))
            && (s.prices != [] ==> answers[s.calls - 1] == Some(s.prices) && s.level == tries[s.calls - 1].level)
            && (s.prices == [] ==> s.calls == |tries| && forall j :: 0 <= j < |answers| ==> !Hit(answers[j]))
            && (s.prices == [] && (exists j :: 0 <= j < |answers| && answers[j].Some?) ==>
                  exists j :: 0 <= j < |answers| && answers[j].Some? && s.level == tries[j].level &&
                              forall i :: j < i < |answers| ==> answers[i].None?)
            && ((forall j :: 0 <= j < |answers| ==> answers[j].None?) ==> s.level == Strict)
  {
    var k := FirstHit(answers);
    FailuresMeaning(answers);
    if k < |answers| {
      FailuresMeaning(answers[..k + 1]);
      assert answers[..k + 1][k] == answers[k];
    } else {
      LastAnsweredMeaning(tries, answers);
    }
  }

  // --- The whole computation, without the cache ---

  // What a fare source answers to try k of slot i.
  type Source = (nat, nat, FareSearch) -> Answer

  datatype Upstream = Upstream(reader: int -> Result<Snapshot, Error>, source: Option<Source>)

  function AnswersTo(source: Source, i: nat, tries: seq<Try>): (answers: seq<Answer>)
    ensures |answers| == |tries|
  {
    seq(|tries|, k requires 0 <= k < |tries| => source(i, k, tries[k].search))
  }

  // What is searched: policy, route and kickoff.
  datatype Trip = Trip(policy: Policy, origin: string, destination: string, kickoff: int)

  function SlotTries(trip: Trip, i: nat): (tries: seq<Try>)
    requires i < 6
    ensures |tries| == if i == 2 || i == 3 then 3 else 1
  {
    Tries(trip.policy, DefaultSlots(trip.kickoff)[i], trip.origin, trip.destination, trip.kickoff)
  }

  function SlotSelection(trip: Trip, source: Source, i: nat): Selection
    requires i < 6
  {
    Select(SlotTries(trip, i), AnswersTo(source, i, SlotTries(trip, i)))
  }

  function Filled(slot: FareSlot, s: Selection): FareSlot {
    slot.(level := s.level, prices := s.prices)
  }

  // The first n slots filled, with the calls and failures they took.
  datatype Progress = Progress(slots: seq<FareSlot>, calls: nat, failures: nat)

  function FillSlots(trip: Trip, source: Source, n: nat): (r: Progress)
    requires n <= 6
    ensures |r.slots| == n
    ensures forall i :: 0 <= i < n ==> r.slots[i] == Filled(DefaultSlots(trip.kickoff)[i], SlotSelection(trip, source, i))
  {
    if n == 0 then Progress([], 0, 0)
    else
      var before := FillSlots(trip, source, n - 1);
      var s := SlotSelection(trip, source, n - 1);
      Progress(before.slots + [Filled(DefaultSlots(trip.kickoff)[n - 1], s)],
               before.calls + s.calls, before.failures + s.failures)
  }

  // GetAirfareByMatch without its cache.
  function Compute(p: Policy, up: Upstream, matchId: int, origin: string): Result<AirfareByMatch, Error> {
    if matchId <= 0 then Err(MatchNotFound)
    else if Trim(origin) == "" then Err(InvalidOrigin)
    else if up.reader(matchId).Err? then Err(up.reader(matchId).error)
    else
      var m := up.reader(matchId).value;
      var trip := Trip(p, Normalize(origin), Normalize(m.destinationIata), m.kickoff);
      if trip.origin == trip.destination then Err(InvalidRoute)
      else if up.source.None? then Ok(AirfareByMatch(m.matchId, m.ticketsLink, DefaultSlots(m.kickoff)))
      else
        var filled := FillSlots(trip, up.source.value, 6);
        if filled.failures == filled.calls then Err(SourceTemporary)
        else Ok(AirfareByMatch(m.matchId, m.ticketsLink, filled.slots))
  }

  // --- The cached service ---

  // airfareKey
  function Key(matchId: nat, origin: string): string {
    "airfare:" + Decimal(matchId) + ":" + Normalize(origin)
  }

  datatype Config = Config(policy: Policy, hasCache: bool, ttl: int)

  // Whether the cache can be read and written during one call.
  datatype CacheHealth = CacheHealth(readable: bool, writable: bool)

  type Cache = map<string, AirfareByMatch>

  function Serve(cache: Cache, c: Config, up: Upstream, matchId: int, origin: string, h: CacheHealth)
    : (Cache, Result<AirfareByMatch, Error>)
  {
    if matchId > 0 && Trim(origin) != "" && c.hasCache && h.readable && Key(matchId, origin) in cache then
      (cache, Ok(cache[Key(matchId, origin)]))
    else
      var r := Compute(c.policy, up, matchId, origin);
      if r.Ok? && matchId > 0 && c.hasCache && c.ttl > 0 && h.writable then
        (cache[Key(matchId, origin) := r.value], r)
      else
        (cache, r)
  }

  class AirfareService {
    const config: Config
    var cache: Cache

    constructor (policy: Policy, hasCache: bool, ttl: int)
      ensures config == Config(Normalized(policy), hasCache, ttl) && cache == map[]
    {
      config := Config(Normalized(policy), hasCache, ttl);
      cache := map[];
    }

    method BuildFareSearchAttempts(slot: FareSlot, origin: string, destination: string, kickoff: int)
      returns (tries: seq<Try>)
      ensures tries == Tries(config.policy, slot, origin, destination, kickoff)
    {
      var base := BaseSearch(slot, origin, destination);
      match slot.kind {
        case OutD0ArriveBy => tries := OutboundDayMatchAttempts(config.policy, base, kickoff);
        case RetD0DepartAfter => tries := ReturnDayMatchAttempts(config.policy, base, kickoff);
        case _ => tries := [Try(Strict, base)];
      }
    }

    // The body of the slot loop of GetAirfareByMatch: the tries of the i-th slot.
    method PriceSlot(i: nat, slot: FareSlot, origin: string, destination: string, kickoff: int, source: Source)
      returns (selected: Selection)
      requires i < 6 && slot == DefaultSlots(kickoff)[i]
      ensures selected == SlotSelection(Trip(config.policy, origin, destination, kickoff), source, i)
    {
      var tries := BuildFareSearchAttempts(slot, origin, destination, kickoff);
      assert tries == SlotTries(Trip(config.policy, origin, destination, kickoff), i);
      selected := SearchSlot(tries, AnswersTo(source, i, tries));
    }

    // The slot loop of GetAirfareByMatch.
    method PriceSlots(origin: string, destination: string, kickoff: int, source: Source)
      returns (slots: seq<FareSlot>, sourceCalls: nat, sourceFailures: nat)
      ensures Progress(slots, sourceCalls, sourceFailures) ==
              FillSlots(Trip(config.policy, origin, destination, kickoff), source, 6)
    {
      ghost var trip := Trip(config.policy, origin, destination, kickoff);
      ghost var unfilled := DefaultSlots(kickoff);
      slots, sourceCalls, sourceFailures := DefaultSlots(kickoff), 0, 0;
      for i := 0 to |slots|
        invariant |slots| == 6
        invariant FillSlots(trip, source, i).calls == sourceCalls && FillSlots(trip, source, i).failures == sourceFailures
        invariant forall j :: 0 <= j < i ==> slots[j] == Filled(unfilled[j], SlotSelection(trip, source, j))
        invariant forall j :: i <= j < 6 ==> slots[j] == unfilled[j]
      {
        var selected := PriceSlot(i, slots[i], origin, destination, kickoff, source);
        sourceCalls := sourceCalls + selected.calls;
        sourceFailures := sourceFailures + selected.failures;
        slots := slots[i := Filled(slots[i], selected)];
      }
      assert slots == FillSlots(trip, source, 6).slots;
    }

    method GetAirfareByMatch(matchId: int, origin: string, up: Upstream, h: CacheHealth)
      returns (r: Result<AirfareByMatch, Error>)
      modifies this
      ensures (cache, r) == Serve(old(cache), config, up, matchId, origin, h)
    {
      if matchId <= 0 {
        return Err(MatchNotFound);
      }
      if Trim(origin) == "" {
        return Err(InvalidOrigin);
      }
      if config.hasCache && h.readable && Key(matchId, origin) in cache {
        return Ok(cache[Key(matchId, origin)]);
      }

      var read := up.reader(matchId);
      if read.Err? {
        return Err(read.error);
      }
      var m := read.value;
      var destination := Normalize(m.destinationIata);
      var normalizedOrigin := Normalize(origin);
      if normalizedOrigin == destination {
        return Err(InvalidRoute);
      }

      var slots := DefaultSlots(m.kickoff);
      if up.source.Some? {
        var sourceCalls, sourceFailures: nat;
        slots, sourceCalls, sourceFailures := PriceSlots(normalizedOrigin, destination, m.kickoff, up.source.value);
        CallsAreBounded(Trip(config.policy, normalizedOrigin, destination, m.kickoff), up.source.value, 6);
        if sourceCalls > 0 && sourceFailures == sourceCalls {
          return Err(SourceTemporary);
        }
      }
      var result := AirfareByMatch(m.matchId, m.ticketsLink, slots);

      if config.hasCache && config.ttl > 0 && h.writable {
        cache := cache[Key(matchId, origin) := result];
      }
      return Ok(result);
    }
  }

  // The day of a slot relative to the day of the match, as its kind names it.
  function Offset(kind: SlotKind): int {
    match kind
    case OutDMinus2 => -2
    case OutDMinus1 => -1
    case OutD0ArriveBy => 0
    case RetD0DepartAfter => 0
    case RetDPlus1 => 1
    case RetDPlus2 => 2
  }

  lemma SlotsAreWhatTheirKindsSay(kickoff: int, i: nat)
    requires i < 6
    ensures var slots := DefaultSlots(kickoff);
            && slots[i].date == DayOf(kickoff) + Offset(slots[i].kind) * DAY
            && (slots[i].direction.Out? <==> slots[i].kind.OutDMinus2? || slots[i].kind.OutDMinus1? || slots[i].kind.OutD0ArriveBy?)
            && slots[i].prices == [] && slots[i].level == Strict
  {
  }

  // The three outbound days end with the day of the match and the three return days begin
  // with it; no outbound day begins after kickoff, no return day ends before it.
  lemma SlotsSurroundTheMatch(kickoff: int)
    ensures var slots := DefaultSlots(kickoff);
            && (forall i :: 0 <= i < 6 ==> (slots[i].direction.Out? <==> i < 3) && slots[i].date % DAY == 0)
            && slots[2].date == slots[3].date <= kickoff < slots[3].date + DAY
            && (forall i :: 0 <= i < 5 && i != 2 ==> slots[i + 1].date == slots[i].date + DAY)
            && (forall i, j :: 0 <= i < j < 6 ==> slots[i].kind != slots[j].kind)
  {
  }

  // --- Counting calls ---

  ghost predicate AllTriesFail(trip: Trip, source: Source, i: nat)
    requires i < 6
  {
    forall k :: 0 <= k < |SlotTries(trip, i)| ==> source(i, k, SlotTries(trip, i)[k].search).None?
  }

  lemma SlotCalls(trip: Trip, source: Source, i: nat)
    requires i < 6
    ensures var s := SlotSelection(trip, source, i);
            && 1 <= s.calls <= (if i == 2 || i == 3 then 3 else 1)
            && s.failures <= s.calls
            && (s.failures == s.calls <==> AllTriesFail(trip, source, i))
  {
    var tries := SlotTries(trip, i);
    var answers := AnswersTo(source, i, tries);
    FallbackMeetsItsSpecification(tries, answers);
    FailuresMeaning(answers);
    FailuresMeaning(answers[..SlotSelection(trip, source, i).calls]);
    assert forall k :: 0 <= k < |tries| ==> answers[k] == source(i, k, tries[k].search);
  }

  lemma {:induction false} CallsAreBounded(trip: Trip, source: Source, n: nat)
    requires n <= 6
    ensures var r := FillSlots(trip, source, n);
            && n <= r.calls <= n + (if n > 3 then 4 else if n > 2 then 2 else 0)
            && r.failures <= r.calls
            && (r.failures == r.calls <==> forall i :: 0 <= i < n ==> AllTriesFail(trip, source, i))
  {
    if n > 0 {
      CallsAreBounded(trip, source, n - 1);
      SlotCalls(trip, source, n - 1);
    }
  }

  // A computation on a valid route makes between 6 and 10 calls, and reports a temporary
  // failure exactly when every try of every slot would fail.
  lemma TemporaryFailureIffAllFail(p: Policy, up: Upstream, matchId: int, origin: string)
    requires matchId > 0 && Trim(origin) != "" && up.reader(matchId).Ok? && up.source.Some?
    requires Normalize(origin) != Normalize(up.reader(matchId).value.destinationIata)
    ensures var m := up.reader(matchId).value;
            var trip := Trip(p, Normalize(origin), Normalize(m.destinationIata), m.kickoff);
            && 6 <= FillSlots(trip, up.source.value, 6).calls <= 10
            && (Compute(p, up, matchId, origin) == Err(SourceTemporary) <==>
                 forall i :: 0 <= i < 6 ==> AllTriesFail(trip, up.source.value, i))
  {
    var m := up.reader(matchId).value;
    CallsAreBounded(Trip(p, Normalize(origin), Normalize(m.destinationIata), m.kickoff), up.source.value, 6);
  }

  // --- The cache is transparent ---

  // Two requests share a key exactly when they ask for the same match and the same code.
  lemma KeyInjective(m: nat, o: string, m': nat, o': string)
    ensures Key(m, o) == Key(m', o') <==> m == m' && Normalize(o) == Normalize(o')
  {
    if Key(m, o) == Key(m', o') {
      assert Key(m, o)[8..] == Decimal(m) + ":" + Normalize(o);
      assert Key(m', o')[8..] == Decimal(m') + ":" + Normalize(o');
      ColonCutsOnce(Decimal(m), Normalize(o), Decimal(m'), Normalize(o'));
      DecimalInjective(m, m');
    }
  }

  // The computation sees the origin only through its normal form.
  lemma ComputeIgnoresSpelling(p: Policy, up: Upstream, m: int, o: string, o': string)
    requires Normalize(o) == Normalize(o')
    ensures Compute(p, up, m, o) == Compute(p, up, m, o')
  {
  }

  ghost predicate CacheCorrect(cache: Cache, p: Policy, up: Upstream) {
    forall m: nat, o :: m > 0 && Key(m, o) in cache ==> Compute(p, up, m, o) == Ok(cache[Key(m, o)])
  }

  lemma ServeIsTransparent(cache: Cache, c: Config, up: Upstream, matchId: int, origin: string, h: CacheHealth)
    requires CacheCorrect(cache, c.policy, up)
    ensures Serve(cache, c, up, matchId, origin, h).1 == Compute(c.policy, up, matchId, origin)
    ensures CacheCorrect(Serve(cache, c, up, matchId, origin, h).0, c.policy, up)
  {
    var (cache', r) := Serve(cache, c, up, matchId, origin, h);
    forall m: nat, o | m > 0 && Key(m, o) in cache' ensures Compute(c.policy, up, m, o) == Ok(cache'[Key(m, o)]) {
      if matchId > 0 {
        KeyInjective(m, o, matchId, origin);
        if Key(m, o) == Key(matchId, origin) {
          ComputeIgnoresSpelling(c.policy, up, m, o, origin);
        }
      }
    }
  }

  // A failed call stores nothing, and so does a call without a cache or with ttl <= 0; no
  // other entry is ever touched. After a successful one that could write the cache, every
  // spelling of the origin gets the same answer from it, whatever reader and source say.
  lemma ServeRemembers(cache: Cache, c: Config, up: Upstream, m: int, o: string, h: CacheHealth,
                       up': Upstream, o': string, h': CacheHealth)
    requires Normalize(o) == Normalize(o')
    ensures var (cache', r) := Serve(cache, c, up, m, o, h);
            && (r.Err? || !c.hasCache || c.ttl <= 0 ==> cache' == cache)
            && (forall key :: key != Key(if m > 0 then m else 0, o) ==>
                  (key in cache' <==> key in cache) && (key in cache ==> cache'[key] == cache[key]))
            && (r.Ok? && c.hasCache && c.ttl > 0 && h.writable && h'.readable ==>
                  Serve(cache', c, up', m, o', h') == (cache', r))
  {
  }

  datatype Event = Ask(matchId: int, origin: string, h: CacheHealth) | Evict(key: string)

  function CacheAfter(c: Config, up: Upstream, events: seq<Event>): Cache {
    if events == [] then map[]
    else
      var before := CacheAfter(c, up, events[..|events| - 1]);
      match events[|events| - 1]
      case Ask(m, o, h) => Serve(before, c, up, m, o, h).0
      case Evict(key) => before - {key}
  }

  lemma {:induction false} CacheStaysCorrect(c: Config, up: Upstream, events: seq<Event>)
    ensures CacheCorrect(CacheAfter(c, up, events), c.policy, up)
  {
    if events != [] {
      var n := |events| - 1;
      CacheStaysCorrect(c, up, events[..n]);
      var before := CacheAfter(c, up, events[..n]);
      match events[n] {
        case Ask(m, o, h) => ServeIsTransparent(before, c, up, m, o, h);
        case Evict(key) =>
      }
    }
  }

  // For a fixed match reader and fare source, after any calls and evictions, with any cache
  // failures, a request is answered with exactly what computing it afresh would answer, for
  // every spelling of the origin.
  lemma CacheIsTransparent(c: Config, up: Upstream, events: seq<Event>, m: int, o: string, o': string, h: CacheHealth)
    requires Normalize(o) == Normalize(o')
    ensures Serve(CacheAfter(c, up, events), c, up, m, o, h).1 == Compute(c.policy, up, m, o')
  {
    CacheStaysCorrect(c, up, events);
    ServeIsTransparent(CacheAfter(c, up, events), c, up, m, o, h);
    ComputeIgnoresSpelling(c.policy, up, m, o, o');
  }

  // --- Windows carried through the fallback ---

  // The upstream data for a route and day; None is a failed call.
  type Raw = (string, string, int) -> Option<seq<Item>>

  // The source as the client builds it: one query per route and day, filtered locally.
  function SourceOver(raw: Raw): Source {
    (i: nat, k: nat, s: FareSearch) =>
      var data := raw(s.origin, s.destination, s.date);
      if data.None? then None else Some(Extracted(data.value, s))
  }

  function QueryOf(s: FareSearch): (string, string, int) {
    (s.origin, s.destination, s.date)
  }

  // All tries of a slot send the same upstream query: the route in the slot's direction on
  // the slot's day.
  lemma TriesShareTheirQuery(trip: Trip, i: nat, k: nat)
    requires i < 6 && k < |SlotTries(trip, i)|
    ensures var o, d := Normalize(trip.origin), Normalize(trip.destination);
            QueryOf(SlotTries(trip, i)[k].search) ==
            (if i < 3 then o else d, if i < 3 then d else o, DefaultSlots(trip.kickoff)[i].date)
  {
  }

  lemma TriesWiden(trip: Trip, i: nat, data: seq<Item>)
    requires Nested(trip.policy) && (i == 2 || i == 3)
    ensures var tries := SlotTries(trip, i);
            && NoFareLost(data, tries[0].search, tries[1].search)
            && NoFareLost(data, tries[1].search, tries[2].search)
            && (tries[0].level, tries[1].level, tries[2].level) == (Strict, Soft1, Soft2)
  {
  }

  // With nested windows and an upstream that answers, a match-day slot ends at the tightest
  // level that has prices, with the prices of that level, and is empty exactly when even
  // the softest window offers nothing.
  lemma MatchDaySlotTakesTightestWindow(trip: Trip, raw: Raw, i: nat)
    requires Nested(trip.policy) && (i == 2 || i == 3)
    requires raw(SlotTries(trip, i)[0].search.origin, SlotTries(trip, i)[0].search.destination,
                 SlotTries(trip, i)[0].search.date).Some?
    ensures var tries := SlotTries(trip, i);
            var q := QueryOf(tries[0].search);
            var data := raw(q.0, q.1, q.2).value;
            var s := SlotSelection(trip, SourceOver(raw), i);
            && NoFareLost(data, tries[0].search, tries[1].search)
            && NoFareLost(data, tries[1].search, tries[2].search)
            && (s.level == Strict <==> Extracted(data, tries[0].search) != [])
            && (s.level == Soft1 <==> Extracted(data, tries[0].search) == [] && Extracted(data, tries[1].search) != [])
            && s.prices == Extracted(data, tries[if s.level == Strict then 0 else if s.level == Soft1 then 1 else 2].search)
            && (s.prices == [] <==> Extracted(data, tries[2].search) == [])
  {
    var tries := SlotTries(trip, i);
    var q := QueryOf(tries[0].search);
    var data := raw(q.0, q.1, q.2).value;
    var answers := AnswersTo(SourceOver(raw), i, tries);
    TriesWiden(trip, i, data);
    forall k: nat | k < 3 ensures answers[k] == Some(Extracted(data, tries[k].search)) {
      TriesShareTheirQuery(trip, i, k);
      TriesShareTheirQuery(trip, i, 0);
    }
    FirstHitOfThree(answers);
    EmptyShrinks(data, tries[0].search, tries[1].search);
    EmptyShrinks(data, tries[1].search, tries[2].search);
  }

  // The slot's outcome when the upstream answers every query with the same data.
  function SlotPrices(trip: Trip, i: nat, data: seq<Item>): seq<int>
    requires i < 6
  {
    SlotSelection(trip, SourceOver((o, d, t) => Some(data)), i).prices
  }

  // The slot ends empty on this data if and only if its softest search finds nothing.
  ghost predicate EmptyAsSoftest(trip: Trip, i: nat, data: seq<Item>)
    requires i == 2 || i == 3
  {
    SlotPrices(trip, i, data) == [] <==> Extracted(data, SlotTries(trip, i)[2].search) == []
  }

  lemma EmptySlotMeaning(trip: Trip, i: nat, data: seq<Item>)
    requires i == 2 || i == 3
    ensures SlotPrices(trip, i, data) == [] <==>
            forall k :: 0 <= k < 3 ==> Extracted(data, SlotTries(trip, i)[k].search) == []
  {
    var tries := SlotTries(trip, i);
    var answers := AnswersTo(SourceOver((o, d, t) => Some(data)), i, tries);
    assert forall k :: 0 <= k < 3 ==> answers[k] == Some(Extracted(data, tries[k].search));
    FirstHitOfThree(answers);
  }

  // A slot whose stricter search separates data from its softest one is not empty with it.
  lemma SeparatedSlot(trip: Trip, i: nat, data: seq<Item>, k: nat)
    requires (i == 2 || i == 3) && k < 2
    requires Separates(data, SlotTries(trip, i)[k].search, SlotTries(trip, i)[2].search)
    ensures !EmptyAsSoftest(trip, i, data)
  {
    EmptySlotMeaning(trip, i, data);
  }

  // For every normalized policy, nested or not: on all data the outbound match-day slot is
  // empty exactly when soft-2 offers nothing, if and only if both stricter windows lie
  // within soft-2.
  lemma OutboundEmptinessFollowsSoft2(trip: Trip)
    requires Proper(trip.policy)
    requires trip.kickoff > trip.policy.outStrict.earliest && trip.kickoff > trip.policy.outSoft1.earliest
    ensures (forall data :: EmptyAsSoftest(trip, 2, data)) <==>
            Within(trip.policy.outStrict, trip.policy.outSoft2) && Within(trip.policy.outSoft1, trip.policy.outSoft2)
  {
    var p, base := trip.policy, BaseSearch(DefaultSlots(trip.kickoff)[2], trip.origin, trip.destination);
    if !Within(p.outStrict, p.outSoft2) {
      var data := OutboundFlight(base, trip.kickoff, p.outStrict, p.outSoft2);
      SeparatedSlot(trip, 2, data, 0);
    } else if !Within(p.outSoft1, p.outSoft2) {
      var data := OutboundFlight(base, trip.kickoff, p.outSoft1, p.outSoft2);
      SeparatedSlot(trip, 2, data, 1);
    } else {
      forall data ensures EmptyAsSoftest(trip, 2, data) {
        var tries := SlotTries(trip, 2);
        LooserSearchLosesNothing(data, tries[0].search, tries[2].search);
        LooserSearchLosesNothing(data, tries[1].search, tries[2].search);
        EmptyShrinks(data, tries[0].search, tries[2].search);
        EmptyShrinks(data, tries[1].search, tries[2].search);
        EmptySlotMeaning(trip, 2, data);
      }
    }
  }

  // The same for the return match-day slot and its bounds.
  lemma ReturnEmptinessFollowsSoft2(trip: Trip)
    requires Proper(trip.policy) && trip.kickoff > 0
    ensures (forall data :: EmptyAsSoftest(trip, 3, data)) <==>
            trip.policy.retStrict >= trip.policy.retSoft2 && trip.policy.retSoft1 >= trip.policy.retSoft2
  {
    var p, base := trip.policy, BaseSearch(DefaultSlots(trip.kickoff)[3], trip.origin, trip.destination);
    if p.retStrict < p.retSoft2 {
      var data := ReturnFlight(base, trip.kickoff, p.retStrict, p.retSoft2);
      SeparatedSlot(trip, 3, data, 0);
    } else if p.retSoft1 < p.retSoft2 {
      var data := ReturnFlight(base, trip.kickoff, p.retSoft1, p.retSoft2);
      SeparatedSlot(trip, 3, data, 1);
    } else {
      forall data ensures EmptyAsSoftest(trip, 3, data) {
        var tries := SlotTries(trip, 3);
        LooserSearchLosesNothing(data, tries[0].search, tries[2].search);
        LooserSearchLosesNothing(data, tries[1].search, tries[2].search);
        EmptyShrinks(data, tries[0].search, tries[2].search);
        EmptyShrinks(data, tries[1].search, tries[2].search);
        EmptySlotMeaning(trip, 3, data);
      }
    }
  }

  lemma FirstHitOfThree(answers: seq<Answer>)
    requires |answers| == 3
    ensures FirstHit(answers) == if Hit(answers[0]) then 0 else if Hit(answers[1]) then 1 else if Hit(answers[2]) then 2 else 3
  {
  }

  lemma EmptyShrinks(data: seq<Item>, narrow: FareSearch, wide: FareSearch)
    requires NoFareLost(data, narrow, wide)
    ensures Extracted(data, wide) == [] ==> Extracted(data, narrow) == []
  {
    var prices := Extracted(data, narrow);
    assert prices == [] || prices[0] in prices;
  }

  // The prices are all that the upstream offers to one of the slot's searches.
  ghost predicate AllOffered(trip: Trip, raw: Raw, i: nat, slot: FareSlot)
    requires i < 6
  {
    exists k: nat :: k < |SlotTries(trip, i)| && OfferedTo(raw, SlotTries(trip, i)[k], slot)
  }

  ghost predicate OfferedTo(raw: Raw, try_: Try, slot: FareSlot) {
    var data := raw(try_.search.origin, try_.search.destination, try_.search.date);
    try_.level == slot.level && data.Some? && IsExtraction(slot.prices, data.value, try_.search)
  }

  lemma SlotPricesAreOffered(trip: Trip, raw: Raw, i: nat)
    requires i < 6
    ensures var slot := Filled(DefaultSlots(trip.kickoff)[i], SlotSelection(trip, SourceOver(raw), i));
            slot.prices == [] || AllOffered(trip, raw, i, slot)
  {
    var tries := SlotTries(trip, i);
    var answers := AnswersTo(SourceOver(raw), i, tries);
    FallbackMeetsItsSpecification(tries, answers);
    var s := Select(tries, answers);
    if s.prices != [] {
      var k: nat := s.calls - 1;
      assert answers[k] == SourceOver(raw)(i, k, tries[k].search);
      assert OfferedTo(raw, tries[k], Filled(DefaultSlots(trip.kickoff)[i], s));
    }
  }

  // Every slot that is served either is empty or lists exactly the positive prices that the
  // upstream offers within the window it names, each once and in increasing order.
  lemma ServedPricesAreOffered(p: Policy, raw: Raw, reader: int -> Result<Snapshot, Error>, matchId: int, origin: string)
    ensures var r := Compute(p, Upstream(reader, Some(SourceOver(raw))), matchId, origin);
            r.Ok? ==>
              var m := reader(matchId).value;
              var trip := Trip(p, Normalize(origin), Normalize(m.destinationIata), m.kickoff);
              && |r.value.slots| == 6
              && (forall i: nat :: i < 6 ==> (r.value.slots[i].direction.Out? <==> i < 3))
              && (forall i: nat :: i < 6 ==> r.value.slots[i].prices == [] || AllOffered(trip, raw, i, r.value.slots[i]))
  {
    var r := Compute(p, Upstream(reader, Some(SourceOver(raw))), matchId, origin);
    if r.Ok? {
      var m := reader(matchId).value;
      var trip := Trip(p, Normalize(origin), Normalize(m.destinationIata), m.kickoff);
      assert r.value.slots == FillSlots(trip, SourceOver(raw), 6).slots;
      forall i: nat | i < 6
        ensures r.value.slots[i].prices == [] || AllOffered(trip, raw, i, r.value.slots[i])
      {
        SlotPricesAreOffered(trip, raw, i);
      }
    }
  }

  // --- What the service answers ---

  // The result in terms of the request, the reader and the answers of the source: when it is
  // each of the errors, and when there is one at all.
  lemma ComputeErrors(p: Policy, up: Upstream, matchId: int, origin: string)
    ensures var r := Compute(p, up, matchId, origin);
            && (matchId <= 0 ==> r == Err(MatchNotFound))
            && (matchId > 0 && Trim(origin) == "" ==> r == Err(InvalidOrigin))
            && (matchId > 0 && Trim(origin) != "" ==>
                  match up.reader(matchId)
                  case Err(e) => r == Err(e)
                  case Ok(m) =>
                    if Normalize(origin) == Normalize(m.destinationIata) then r == Err(InvalidRoute)
                    else if up.source.None? then r.Ok?
                    else
                      var trip := Trip(p, Normalize(origin), Normalize(m.destinationIata), m.kickoff);
                      && (r.Ok? <==> exists i: nat :: i < 6 && !AllTriesFail(trip, up.source.value, i))
                      && (r.Err? ==> r == Err(SourceTemporary)))
  {
    if matchId > 0 && Trim(origin) != "" && up.reader(matchId).Ok? {
      var m := up.reader(matchId).value;
      var trip := Trip(p, Normalize(origin), Normalize(m.destinationIata), m.kickoff);
      if up.source.Some? {
        CallsAreBounded(trip, up.source.value, 6);
      }
    }
  }

  ghost predicate NoHit(answers: seq<Answer>, n: nat)
    requires n <= |answers|
  {
    forall k :: 0 <= k < n ==> answers[k] == None || answers[k] == Some([])
  }

  // The first non-empty answer and the level of its try; with none, no prices and the level
  // of the last answered try, or strict if none was answered.
  ghost predicate IsChoice(level: WindowLevel, prices: seq<int>, tries: seq<Try>, answers: seq<Answer>)
    requires |tries| == |answers|
  {
    if !NoHit(answers, |answers|) then
      exists k: nat :: k < |tries| && NoHit(answers, k) && prices != [] &&
                       answers[k] == Some(prices) && level == tries[k].level
    else if forall k :: 0 <= k < |answers| ==> answers[k].None? then
      prices == [] && level == Strict
    else
      prices == [] && exists k :: 0 <= k < |tries| && answers[k].Some? && level == tries[k].level &&
                                  forall j :: k < j < |tries| ==> answers[j].None?
  }

  lemma SelectIsChoice(tries: seq<Try>, answers: seq<Answer>)
    requires |tries| == |answers| > 0
    ensures IsChoice(Select(tries, answers).level, Select(tries, answers).prices, tries, answers)
  {
    FallbackMeetsItsSpecification(tries, answers);
    var s := Select(tries, answers);
    if s.prices != [] {
      assert NoHit(answers, s.calls - 1);
    } else {
      assert NoHit(answers, |answers|);
    }
  }

  // The slot holds the choice among what the source answers to its tries.
  ghost predicate HoldsChoice(trip: Trip, source: Source, i: nat, slot: FareSlot)
    requires i < 6
  {
    var tries := SlotTries(trip, i);
    exists answers: seq<Answer> ::
      && |answers| == |tries|
      && (forall k :: 0 <= k < |tries| ==> answers[k] == source(i, k, tries[k].search))
      && IsChoice(slot.level, slot.prices, tries, answers)
  }

  lemma SelectionHoldsChoice(trip: Trip, source: Source, i: nat)
    requires i < 6
    ensures HoldsChoice(trip, source, i, Filled(DefaultSlots(trip.kickoff)[i], SlotSelection(trip, source, i)))
  {
    SelectIsChoice(SlotTries(trip, i), AnswersTo(source, i, SlotTries(trip, i)));
  }

  // The match's own data, and six slots of the fixed kinds, directions and days; each holds
  // the first non-empty answer that the source gives to its tries, or is empty and strict if
  // there is no source.
  ghost predicate Serves(r: AirfareByMatch, p: Policy, m: Snapshot, source: Option<Source>, origin: string) {
    var trip := Trip(p, Normalize(origin), Normalize(m.destinationIata), m.kickoff);
    && r.matchId == m.matchId && r.ticketsLink == m.ticketsLink && |r.slots| == 6
    && forall i: nat :: i < 6 ==>
         var default := DefaultSlots(m.kickoff)[i];
         && (r.slots[i].kind, r.slots[i].direction, r.slots[i].date) == (default.kind, default.direction, default.date)
         && if source.None? then r.slots[i].prices == [] && r.slots[i].level == Strict
            else HoldsChoice(trip, source.value, i, r.slots[i])
  }

  // Whatever is answered carries the prices that were found.
  lemma AnswersAreServed(p: Policy, up: Upstream, matchId: int, origin: string)
    ensures var r := Compute(p, up, matchId, origin);
            r.Ok? ==> up.reader(matchId).Ok? && Serves(r.value, p, up.reader(matchId).value, up.source, origin)
  {
    var r := Compute(p, up, matchId, origin);
    if r.Ok? && up.source.Some? {
      var m := up.reader(matchId).value;
      var trip := Trip(p, Normalize(origin), Normalize(m.destinationIata), m.kickoff);
      assert r.value.slots == FillSlots(trip, up.source.value, 6).slots;
      forall i: nat | i < 6 ensures HoldsChoice(trip, up.source.value, i, r.value.slots[i]) {
        SelectionHoldsChoice(trip, up.source.value, i);
      }
    }
  }

  // Which flights a try of a slot admits: those that land or leave within the policy's window
  // of the try's level for the two match-day slots, and all flights for the other slots.
  lemma TriesUseThePolicy(trip: Trip, i: nat, k: nat, item: Item)
    requires i < 6 && k < |SlotTries(trip, i)|
    ensures var t, p := SlotTries(trip, i)[k], trip.policy;
            && t.level == [Strict, Soft1, Soft2][k]
            && (PassesTimeConstraints(item, t.search) <==>
                 if i == 2 then LandsWithin(item, trip.kickoff, [p.outStrict, p.outSoft1, p.outSoft2][k])
                 else if i == 3 then LeavesAfter(item, trip.kickoff + [p.retStrict, p.retSoft1, p.retSoft2][k])
                 else true)
  {
    var slot := DefaultSlots(trip.kickoff)[i];
    var base := BaseSearch(slot, trip.origin, trip.destination);
    if i == 2 {
      OutboundTryAdmits(base, trip.kickoff, Strict, [trip.policy.outStrict, trip.policy.outSoft1, trip.policy.outSoft2][k], item);
    } else if i == 3 {
      ReturnTryAdmits(base, trip.kickoff, Strict, [trip.policy.retStrict, trip.policy.retSoft1, trip.policy.retSoft2][k], item);
    }
  }

  // The slot's prices are all that the data offers to one of its tries, the first one with
  // any offer or else the last one.
  ghost predicate HoldsOffers(trip: Trip, i: nat, data: seq<Item>, slot: FareSlot, k: nat)
    requires i < 6 && k < |SlotTries(trip, i)|
  {
    var tries := SlotTries(trip, i);
    && slot.level == tries[k].level
    && IsExtraction(slot.prices, data, tries[k].search)
    && (forall j, x :: 0 <= j < k ==> !Offered(data, tries[j].search, x))
    && (slot.prices == [] ==> k == |tries| - 1)
  }

  lemma AllAnswered(raw: Raw, tries: seq<Try>, answers: seq<Answer>, i: nat, data: seq<Item>)
    requires |answers| == |tries|
    requires forall k :: 0 <= k < |tries| ==> answers[k] == SourceOver(raw)(i, k, tries[k].search)
    requires forall j :: 0 <= j < |tries| ==> var q := QueryOf(tries[j].search); raw(q.0, q.1, q.2) == Some(data)
    ensures forall j :: 0 <= j < |tries| ==> answers[j] == Some(Extracted(data, tries[j].search))
  {
    forall j | 0 <= j < |tries| ensures answers[j] == Some(Extracted(data, tries[j].search)) {
      var q := QueryOf(tries[j].search);
      assert raw(q.0, q.1, q.2) == Some(data);
    }
  }

  // The first hit, or else the last try.
  lemma ChosenTry(tries: seq<Try>, answers: seq<Answer>, level: WindowLevel, prices: seq<int>) returns (k: nat)
    requires |tries| == |answers| > 0 && IsChoice(level, prices, tries, answers)
    requires forall j :: 0 <= j < |answers| ==> answers[j].Some?
    ensures k < |tries| && NoHit(answers, k) && level == tries[k].level && answers[k] == Some(prices)
    ensures prices == [] ==> k == |tries| - 1
  {
    if NoHit(answers, |answers|) {
      k := |tries| - 1;
      assert answers[k] == Some([]) && answers[0].Some?;
    } else {
      k :| k < |tries| && NoHit(answers, k) && prices != [] && answers[k] == Some(prices) && level == tries[k].level;
    }
  }

  lemma ChoiceOfOffers(trip: Trip, raw: Raw, i: nat, slot: FareSlot, data: seq<Item>) returns (k: nat)
    requires i < 6 && HoldsChoice(trip, SourceOver(raw), i, slot)
    requires forall j :: 0 <= j < |SlotTries(trip, i)| ==>
               var q := QueryOf(SlotTries(trip, i)[j].search); raw(q.0, q.1, q.2) == Some(data)
    ensures k < |SlotTries(trip, i)| && HoldsOffers(trip, i, data, slot, k)
  {
    var tries := SlotTries(trip, i);
    var answers :| |answers| == |tries| && (forall k :: 0 <= k < |tries| ==> answers[k] == SourceOver(raw)(i, k, tries[k].search)) &&
                   IsChoice(slot.level, slot.prices, tries, answers);
    AllAnswered(raw, tries, answers, i, data);
    k := ChosenTry(tries, answers, slot.level, slot.prices);
    forall j, x | 0 <= j < k ensures !Offered(data, tries[j].search, x) {
      assert answers[j] == Some([]);
      assert Extracted(data, tries[j].search) == [];
    }
  }

  // From upstream data to the answer: a slot whose query fails is empty and strict; any other
  // slot holds exactly the offers that its first try with offers admits.
  lemma ServedSlotHoldsOffers(p: Policy, raw: Raw, reader: int -> Result<Snapshot, Error>, matchId: int, origin: string, i: nat)
    requires i < 6
    ensures var r := Compute(p, Upstream(reader, Some(SourceOver(raw))), matchId, origin);
            r.Ok? ==>
              var m := reader(matchId).value;
              var trip := Trip(p, Normalize(origin), Normalize(m.destinationIata), m.kickoff);
              var q := QueryOf(SlotTries(trip, i)[0].search);
              && |r.value.slots| == 6
              && match raw(q.0, q.1, q.2)
                 case None => r.value.slots[i].prices == [] && r.value.slots[i].level == Strict
                 case Some(data) => exists k: nat :: k < |SlotTries(trip, i)| && HoldsOffers(trip, i, data, r.value.slots[i], k)
  {
    var up := Upstream(reader, Some(SourceOver(raw)));
    var r := Compute(p, up, matchId, origin);
    if r.Ok? {
      AnswersAreServed(p, up, matchId, origin);
      var m := reader(matchId).value;
      var trip := Trip(p, Normalize(origin), Normalize(m.destinationIata), m.kickoff);
      var tries := SlotTries(trip, i);
      var q := QueryOf(tries[0].search);
      forall j: nat | j < |tries| ensures QueryOf(tries[j].search) == q {
        TriesShareTheirQuery(trip, i, j);
        TriesShareTheirQuery(trip, i, 0);
      }
      assert HoldsChoice(trip, SourceOver(raw), i, r.value.slots[i]);
      match raw(q.0, q.1, q.2) {
        case None =>
          var answers :| |answers| == |tries| && (forall k :: 0 <= k < |tries| ==> answers[k] == SourceOver(raw)(i, k, tries[k].search)) &&
                         IsChoice(r.value.slots[i].level, r.value.slots[i].prices, tries, answers);
          AllUnanswered(raw, tries, answers, i, q);
        case Some(data) => var k := ChoiceOfOffers(trip, raw, i, r.value.slots[i], data);
      }
    }
  }

  lemma AllUnanswered(raw: Raw, tries: seq<Try>, answers: seq<Answer>, i: nat, q: (string, string, int))
    requires |answers| == |tries| && raw(q.0, q.1, q.2).None?
    requires forall k :: 0 <= k < |tries| ==> answers[k] == SourceOver(raw)(i, k, tries[k].search)
    requires forall k :: 0 <= k < |tries| ==> QueryOf(tries[k].search) == q
    ensures forall k :: 0 <= k < |answers| ==> answers[k].None?
    ensures NoHit(answers, |answers|)
  {
    forall k | 0 <= k < |answers| ensures answers[k].None? {
      assert QueryOf(tries[k].search) == q;
    }
  }

  // With nested windows the two match-day slots that are served take the tightest window that
  // has offers, and are empty exactly when even the softest one offers nothing.
  lemma ServedMatchDaySlot(p: Policy, raw: Raw, reader: int -> Result<Snapshot, Error>, matchId: int, origin: string, i: nat)
    requires Nested(p) && (i == 2 || i == 3)
    ensures var r := Compute(p, Upstream(reader, Some(SourceOver(raw))), matchId, origin);
            r.Ok? ==>
              var m := reader(matchId).value;
              var trip := Trip(p, Normalize(origin), Normalize(m.destinationIata), m.kickoff);
              var tries := SlotTries(trip, i);
              var q := QueryOf(tries[0].search);
              && |r.value.slots| == 6
              && (raw(q.0, q.1, q.2).Some? ==>
                    var data, slot := raw(q.0, q.1, q.2).value, r.value.slots[i];
                    && (slot.level == Strict <==> Extracted(data, tries[0].search) != [])
                    && (slot.level == Soft1 <==> Extracted(data, tries[0].search) == [] && Extracted(data, tries[1].search) != [])
                    && slot.prices == Extracted(data, tries[if slot.level == Strict then 0 else if slot.level == Soft1 then 1 else 2].search)
                    && (slot.prices == [] <==> Extracted(data, tries[2].search) == []))
  {
    var r := Compute(p, Upstream(reader, Some(SourceOver(raw))), matchId, origin);
    if r.Ok? {
      var m := reader(matchId).value;
      var trip := Trip(p, Normalize(origin), Normalize(m.destinationIata), m.kickoff);
      assert r.value.slots == FillSlots(trip, SourceOver(raw), 6).slots;
      var q := QueryOf(SlotTries(trip, i)[0].search);
      if raw(q.0, q.1, q.2).Some? {
        MatchDaySlotTakesTightestWindow(trip, raw, i);
      }
    }
  }
}
