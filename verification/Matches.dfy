// The match entity, the answers of the systems around the match service, and the helpers of
// match_service.go: the destination rule, the limit clamp and the context-error test.
module Matches {
  import opened Common
  import opened Text

  // A match id as the canonical decimal numeral it is always written as.
  type MatchId = int

  datatype Match = Match(
    id: MatchId,
    homeTeam: string,
    awayTeam: string,
    city: string,
    stadium: string,
    destinationIata: string,
    ticketsLink: string,
    kickoff: int)

  datatype Error =
    | NotFound            // ErrMatchNotFound
    | CityIataNotFound    // ErrCityIATANotFound
    | Cancelled           // context.Canceled or context.DeadlineExceeded
    | Other

  // isContextErr
  predicate IsContextErr(e: Error) {
    e.Cancelled?
  }

  // Whether the service was given a cache, and how long its entries live.
  datatype Config = Config(hasCache: bool, ttl: int)

  // Set is a no-op for ttl <= 0.
  predicate Caches(c: Config) {
    c.hasCache && c.ttl > 0
  }

  // What the city table answers for one city.
  type Resolution = Result<string, Error>

  datatype ClubFallback = ClubFallback(city: string, iata: string)

  const FALLBACK_BY_HOME_CLUB_ID: map<string, ClubFallback> := map[
    "1" := ClubFallback("Москва", "MOW"),
    "2" := ClubFallback("Москва", "MOW"),
    "3" := ClubFallback("Санкт-Петербург", "LED"),
    "4" := ClubFallback("Казань", "KZN"),
    "5" := ClubFallback("Москва", "MOW"),
    "7" := ClubFallback("Москва", "MOW"),
    "10" := ClubFallback("Самара", "KUF"),
    "11" := ClubFallback("Ростов-на-Дону", "ROV"),
    "125" := ClubFallback("Каспийск", "MCX"),
    "444" := ClubFallback("Калининград", "KGD"),
    "504" := ClubFallback("Оренбург", "REN"),
    "525" := ClubFallback("Сочи", "AER"),
    "584" := ClubFallback("Краснодар", "KRR"),
    "702" := ClubFallback("Грозный", "GRV"),
    "704" := ClubFallback("Нижний Новгород", "GOJ"),
    "807" := ClubFallback("Самара", "KUF")
  ]

  // enrichDestinationFromCityOrClub: the resolver is asked only for a non-blank city.
  function Enrich(m: Match, resolved: Resolution): (r: Result<Match, Error>)
    ensures r.Ok? ==> r.value == m.(destinationIata := r.value.destinationIata, city := r.value.city)
    ensures r.Ok? && r.value.city != m.city ==> Trim(m.city) == ""
  {
    var city := Trim(m.city);
    if city != "" && resolved.Ok? then
      Ok(m.(destinationIata := resolved.value))
    else if city != "" && resolved.error != CityIataNotFound then
      Err(resolved.error)
    else if m.homeTeam !in FALLBACK_BY_HOME_CLUB_ID then
      Err(CityIataNotFound)
    else
      var fallback := FALLBACK_BY_HOME_CLUB_ID[m.homeTeam];
      Ok(m.(destinationIata := fallback.iata, city := if city == "" then fallback.city else m.city))
  }

  // The city table decides where it can; the home club decides for a blank or unknown city,
  // if it has an entry; every other failure is passed on.
  lemma EnrichMeaning(m: Match, resolved: Resolution)
    ensures var r := Enrich(m, resolved);
            var byCity := Trim(m.city) != "" && resolved.Ok?;
            var byClub := (Trim(m.city) == "" || resolved == Err(CityIataNotFound)) && m.homeTeam in FALLBACK_BY_HOME_CLUB_ID;
            && (r.Ok? <==> byCity || byClub)
            && (byCity ==> r.value.destinationIata == resolved.value)
            && (byClub ==> r.value.destinationIata == FALLBACK_BY_HOME_CLUB_ID[m.homeTeam].iata && Trim(r.value.city) != "")
            && (r.Ok? ==> r.value.city == if Trim(m.city) == "" then FALLBACK_BY_HOME_CLUB_ID[m.homeTeam].city else m.city)
            && (r.Err? ==> r.error == CityIataNotFound || (Trim(m.city) != "" && r.error == resolved.error))
  {
    FallbackEntries();
  }

  lemma FallbackEntries()
    ensures forall club :: club in FALLBACK_BY_HOME_CLUB_ID ==>
              FALLBACK_BY_HOME_CLUB_ID[club].iata != "" && Trim(FALLBACK_BY_HOME_CLUB_ID[club].city) != ""
  {
    forall club | club in FALLBACK_BY_HOME_CLUB_ID
      ensures FALLBACK_BY_HOME_CLUB_ID[club].iata != "" && Trim(FALLBACK_BY_HOME_CLUB_ID[club].city) != ""
    {
      var city := FALLBACK_BY_HOME_CLUB_ID[club].city;
      assert !IsSpace(city[0]) && !IsSpace(city[|city| - 1]);
    }
  }

  // The destination a match is stored with.
  function WithDestination(m: Match, resolved: Resolution): Result<Match, Error> {
    if m.destinationIata == "" then Enrich(m, resolved) else Ok(m)
  }

  ghost predicate NeverBlank(resolved: Resolution) {
    resolved.Ok? ==> resolved.value != ""
  }

  // A destination is never left empty, unless the city table itself holds an empty code.
  lemma DestinationIsKnown(m: Match, resolved: Resolution)
    ensures var r := WithDestination(m, resolved);
            r.Ok? ==> (r.value.destinationIata == ""
                       <==> m.destinationIata == "" && Trim(m.city) != "" && resolved.Ok? && resolved.value == "")
    ensures m.destinationIata != "" ==> WithDestination(m, resolved) == Ok(m)
    ensures WithDestination(m, resolved).Ok? ==>
              var r := WithDestination(m, resolved).value; r == m.(destinationIata := r.destinationIata, city := r.city)
  {
  }

  const DEFAULT_SERVICE_LIMIT: int := 10
  const MAX_SERVICE_LIMIT: int := 500

  // normalizeUpcomingLimit
  function NormalizeUpcomingLimit(limit: int): (n: int)
    ensures 1 <= n <= MAX_SERVICE_LIMIT
    ensures n == limit <==> 1 <= limit <= MAX_SERVICE_LIMIT
    ensures limit < 1 ==> n == 10
    ensures limit > 500 ==> n == 500
  {
    if limit <= 0 then DEFAULT_SERVICE_LIMIT
    else if limit > MAX_SERVICE_LIMIT then MAX_SERVICE_LIMIT
    else limit
  }
}
