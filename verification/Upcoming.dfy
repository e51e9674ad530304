// The club-filtered list of upcoming matches on its way from the table to the gateway's
// caller: match_repo.go, match_service.go, the gRPC server, match_handler.go and
// club_filter.go each filter or limit it once more.
module Upcoming {
  import opened Common
  import opened Sorting
  import opened Text
  import opened Matches

  const DEFAULT_GATEWAY_LIMIT: nat := 12
  const DEFAULT_CLUB_LIMIT: nat := 100
  const MAX_GATEWAY_LIMIT: nat := 100

  // What the SQL query keeps: kickoffs from now on, and the given club if one is given.
  predicate Selected(m: Match, now: int, clubId: string) {
    m.kickoff >= now && (clubId == "" || m.homeTeam == clubId || m.awayTeam == clubId)
  }

  function Rows(table: seq<Match>, now: int, clubId: string): seq<Match> {
    Filter(table, m => Selected(m, now, clubId))
  }

  function ByKickoff(): Match -> int {
    (m: Match) => m.kickoff
  }

  // The first limit rows of the selected rows in kickoff order; ties in any order.
  ghost predicate FirstRows(result: seq<Match>, table: seq<Match>, now: int, clubId: string, limit: nat) {
    exists sorted ::
      && IsSortOf(sorted, Rows(table, now, clubId), ByKickoff())
      && result == sorted[..Min(limit, |sorted|)]
  }

  // Repository.GetUpcoming
  method QueryUpcoming(table: seq<Match>, now: int, limit: int, clubId: string) returns (matches: seq<Match>)
    ensures FirstRows(matches, table, now, Trim(clubId), if limit <= 0 then 10 else limit)
    ensures forall m :: m in matches ==> Selected(m, now, Trim(clubId))
  {
    var bound: nat := if limit <= 0 then 10 else limit;
    var club := Trim(clubId);
    var rows: seq<Match> := [];
    for k := 0 to |table|
      invariant rows == Rows(table[..k], now, club)
    {
      assert table[..k + 1][..k] == table[..k];
      if Selected(table[k], now, club) {
        rows := rows + [table[k]];
      }
    }
    assert table[..|table|] == table;
    var sorted := SortSlice(rows, ByKickoff());
    matches := sorted[..Min(bound, |sorted|)];
    forall m | m in matches ensures Selected(m, now, club) {
      assert m in multiset(sorted);
      assert m in rows;
      RowsAreSelected(table, now, club, m);
    }
  }

  // The selected rows are those that kick off from now on and, if a club is given, have it at
  // home or away; each as often as the table has it.
  lemma RowsAreSelected(table: seq<Match>, now: int, clubId: string, m: Match)
    ensures m in Rows(table, now, clubId) <==> m in table && Selected(m, now, clubId)
    ensures multiset(Rows(table, now, clubId))[m] ==
            if m.kickoff < now || (clubId != "" && clubId != m.homeTeam && clubId != m.awayTeam) then 0
            else multiset(table)[m]
  {
    FilterMeaning(table, (r: Match) => Selected(r, now, clubId), m);
    FilterCounts(table, (r: Match) => Selected(r, now, clubId), m);
  }

  // A club id in the form in which the gateway and the adapter pass it on: empty, or the
  // canonical numeral of a positive int64.
  ghost predicate CanonicalClub(clubId: string) {
    clubId == "" || exists n: nat :: 0 < n < TWO_TO_63 && clubId == Decimal(n)
  }

  // The club id as the gRPC server reads it from the request.
  function ServerClub(clubId: string): (club: Option<string>)
    ensures club.Some? ==> CanonicalClub(club.value)
  {
    var trimmed := Trim(clubId);
    if trimmed == "" then Some("")
    else
      var parsed := ParsePositive(trimmed, TWO_TO_63);
      if parsed.Some? then Some(Decimal(parsed.value)) else None
  }

  lemma ServerClubMeaning(clubId: string)
    ensures forall club :: ServerClub(clubId) == Some(club) <==>
              (Trim(clubId) == "" && club == "") || NamesClub(Trim(clubId), club)
  {
    NumeralsAreRead(Trim(clubId));
  }

  // The text is a positive int64, and club is its canonical numeral.
  ghost predicate NamesClub(text: string, club: string) {
    exists n: nat :: 0 < n < TWO_TO_63 && Writes(text, n) && club == Decimal(n)
  }

  lemma NumeralsAreRead(text: string)
    ensures forall club :: NamesClub(text, club) <==>
              ParsePositive(text, TWO_TO_63).Some? && club == Decimal(ParsePositive(text, TWO_TO_63).value)
  {
    forall n: nat ensures ParsePositive(text, TWO_TO_63) == Some(n) <==> 0 < n < TWO_TO_63 && Writes(text, n) {
      ParseMeaning(text, n, TWO_TO_63);
    }
  }

  // A canonical club id passes through every later stage unchanged.
  lemma CanonicalIsKept(clubId: string)
    requires CanonicalClub(clubId)
    ensures Trim(clubId) == clubId
    ensures ServerClub(clubId) == Some(clubId)
  {
    if clubId != "" {
      var n: nat :| 0 < n < TWO_TO_63 && clubId == Decimal(n);
      assert clubId[0] in clubId && clubId[|clubId| - 1] in clubId;
      assert Trim(clubId) == clubId;
      DecimalRoundTrip(n, TWO_TO_63);
    }
  }

  // The match-adapter's side of the call: gRPC server and service. None is a table that
  // cannot be queried.
  method ServeUpcoming(table: Option<seq<Match>>, now: int, requested: int, clubId: string)
    returns (r: Result<seq<Match>, string>)
    ensures r.Ok? <==> ServerClub(clubId).Some? && table.Some?
    ensures r.Ok? ==> FirstRows(r.value, table.value, now, ServerClub(clubId).value,
                                NormalizeUpcomingLimit(if requested <= 0 then 10 else requested))
    ensures r.Ok? ==> forall m :: m in r.value ==> Selected(m, now, ServerClub(clubId).value)
  {
    var limit := requested;
    if limit <= 0 {
      limit := 10;
    }
    var club := Trim(clubId);
    if club != "" {
      var parsed := ParsePositive(club, TWO_TO_63);
      if parsed.None? {
        return Err("club_id must be a positive integer");
      }
      club := Decimal(parsed.value);
    }
    CanonicalIsKept(club);
    limit := NormalizeUpcomingLimit(limit);
    if table.None? {
      return Err("internal error");
    }
    var matches := QueryUpcoming(table.value, now, limit, club);
    return Ok(matches);
  }

  // filterMatchesByClubID, cutMatchesByLimit
  predicate Plays(m: Match, clubId: string) {
    Trim(m.homeTeam) == clubId || Trim(m.awayTeam) == clubId
  }

  function Playing(matches: seq<Match>, clubId: string): seq<Match> {
    Filter(matches, m => Plays(m, clubId))
  }

  method FilterMatchesByClubId(matches: seq<Match>, clubId: string) returns (filtered: seq<Match>)
    ensures filtered == if Trim(clubId) == "" then matches else Playing(matches, Trim(clubId))
  {
    var normalized := Trim(clubId);
    if normalized == "" || |matches| == 0 {
      return matches;
    }
    filtered := [];
    for k := 0 to |matches|
      invariant filtered == Playing(matches[..k], normalized)
    {
      assert matches[..k + 1][..k] == matches[..k];
      var home := Trim(matches[k].homeTeam);
      var away := Trim(matches[k].awayTeam);
      if home == normalized || away == normalized {
        filtered := filtered + [matches[k]];
      }
    }
    assert matches[..|matches|] == matches;
  }

  // The filter keeps exactly the matches whose home or away club, trimmed, is the given one.
  lemma PlayingMeaning(matches: seq<Match>, clubId: string, m: Match)
    ensures multiset(Playing(matches, clubId))[m] ==
            if Trim(m.homeTeam) != clubId && Trim(m.awayTeam) != clubId then 0 else multiset(matches)[m]
  {
    FilterCounts(matches, (r: Match) => Plays(r, clubId), m);
  }

  // Filtering drops nothing exactly when every match is one of the club's.
  lemma {:induction false} PlayingKeepsAll(matches: seq<Match>, clubId: string)
    ensures |Playing(matches, clubId)| <= |matches|
    ensures Playing(matches, clubId) == matches <==> forall m :: m in matches ==> Plays(m, clubId)
  {
    if matches != [] {
      var front, last := matches[..|matches| - 1], matches[|matches| - 1];
      PlayingKeepsAll(front, clubId);
      assert matches == front + [last];
      assert forall m :: m in matches <==> m in front || m == last;
      if Playing(matches, clubId) == matches {
        assert |Playing(front, clubId)| == |front|;
        assert Playing(matches, clubId)[..|front|] == front;
      }
    }
  }

  function CutMatchesByLimit(matches: seq<Match>, limit: int): (cut: seq<Match>)
    ensures cut <= matches
    ensures |cut| == if limit > 0 then Min(limit, |matches|) else |matches|
  {
    if limit <= 0 || |matches| <= limit then matches else matches[..limit]
  }

  // parsePositiveIntQuery for the club_id parameter: None is an absent parameter.
  function GatewayClub(parameter: Option<string>): (r: Result<string, string>)
    ensures r.Ok? ==> CanonicalClub(r.value)
    ensures r.Ok? ==> (r.value == "" <==> parameter.None?)
  {
    if parameter.None? then Ok("")
    else
      var parsed := ParsePositive(Trim(parameter.value), TWO_TO_63);
      if parsed.Some? then Ok(Decimal(parsed.value)) else Err("club_id must be a positive integer")
  }

  // The limit that the handler works with, from the text of the limit parameter.
  function GatewayLimit(text: string, clubId: string): (r: Result<nat, string>)
    ensures r.Ok? ==> 1 <= r.value <= MAX_GATEWAY_LIMIT
    ensures Trim(text) != "" ==> (r.Ok? <==> ParsePositive(Trim(text), TWO_TO_31).Some?)
    ensures Trim(text) != "" && r.Ok? ==> r.value == Min(ParsePositive(Trim(text), TWO_TO_31).value, MAX_GATEWAY_LIMIT)
  {
    var raw := Trim(text);
    if raw == "" then Ok(if clubId != "" then DEFAULT_CLUB_LIMIT else DEFAULT_GATEWAY_LIMIT)
    else
      var parsed := ParsePositive(raw, TWO_TO_31);
      if parsed.None? then Err("limit must be a positive integer")
      else Ok(Min(parsed.value, MAX_GATEWAY_LIMIT))
  }

  // --- The parameters, without the parsing code ---

  ghost predicate AskedClub(parameter: Option<string>, club: string) {
    match parameter
    case None => club == ""
    case Some(text) => NamesClub(Trim(text), club)
  }

  ghost predicate AskedLimit(text: string, club: string, limit: nat) {
    if Trim(text) == "" then limit == if club == "" then 12 else 100
    else exists n: nat :: 0 < n < TWO_TO_31 && Writes(Trim(text), n) && limit == Min(n, 100)
  }

  lemma GatewayClubMeaning(parameter: Option<string>)
    ensures forall club :: GatewayClub(parameter) == Ok(club) <==> AskedClub(parameter, club)
  {
    if parameter.Some? {
      NumeralsAreRead(Trim(parameter.value));
    }
  }

  lemma GatewayLimitMeaning(text: string, club: string)
    ensures forall limit: nat :: GatewayLimit(text, club) == Ok(limit) <==> AskedLimit(text, club, limit)
  {
    forall n: nat ensures ParsePositive(Trim(text), TWO_TO_31) == Some(n) <==> 0 < n < TWO_TO_31 && Writes(Trim(text), n) {
      ParseMeaning(Trim(text), n, TWO_TO_31);
    }
  }

  // What the handler must answer: available says that the adapter could be reached and could
  // query its table.
  ghost predicate Answers(r: Result<seq<Match>, string>, table: seq<Match>, now: int, limitText: string,
                          clubText: Option<string>, available: bool) {
    && ((forall club :: !AskedClub(clubText, club)) ==> r == Err("club_id must be a positive integer"))
    && (forall club :: AskedClub(clubText, club) && (forall limit: nat :: !AskedLimit(limitText, club, limit)) ==>
          r == Err("limit must be a positive integer"))
    && (forall club, limit: nat :: AskedClub(clubText, club) && AskedLimit(limitText, club, limit) ==>
          if available then r.Ok? && Listing(r.value, table, now, club, limit) else r == Err("match adapter error"))
  }

  // Cutting a longer prefix of the sorted rows gives the shorter prefix of the same order.
  lemma CutOfFirstRows(fetched: seq<Match>, table: seq<Match>, now: int, clubId: string, fetchLimit: nat, limit: nat)
    requires FirstRows(fetched, table, now, clubId, fetchLimit)
    requires 0 < limit <= fetchLimit
    ensures FirstRows(CutMatchesByLimit(fetched, limit), table, now, clubId, limit)
  {
    var sorted :| IsSortOf(sorted, Rows(table, now, clubId), ByKickoff()) &&
                  fetched == sorted[..Min(fetchLimit, |sorted|)];
    assert CutMatchesByLimit(fetched, limit) == sorted[..Min(limit, |sorted|)];
  }

  // What the query selected for a canonical club survives the gateway's own filter.
  lemma SecondFilterDropsNothing(fetched: seq<Match>, now: int, clubId: string)
    requires CanonicalClub(clubId) && clubId != ""
    requires forall m :: m in fetched ==> Selected(m, now, clubId)
    ensures Playing(fetched, clubId) == fetched
  {
    CanonicalIsKept(clubId);
    PlayingKeepsAll(fetched, clubId);
  }

  lemma FilterAndCut(fetched: seq<Match>, table: seq<Match>, now: int, clubId: string, fetchLimit: nat, limit: nat)
    requires CanonicalClub(clubId) && 0 < limit <= fetchLimit
    requires FirstRows(fetched, table, now, clubId, fetchLimit)
    requires forall m :: m in fetched ==> Selected(m, now, clubId)
    ensures var filtered := if Trim(clubId) == "" then fetched else Playing(fetched, Trim(clubId));
            FirstRows(CutMatchesByLimit(filtered, limit), table, now, clubId, limit)
  {
    CanonicalIsKept(clubId);
    if clubId != "" {
      SecondFilterDropsNothing(fetched, now, clubId);
    }
    CutOfFirstRows(fetched, table, now, clubId, fetchLimit, limit);
  }

  // The first rows are the earliest ones: nothing that was left out kicks off before
  // something that was listed.
  lemma FirstRowsAreEarliest(result: seq<Match>, table: seq<Match>, now: int, clubId: string, limit: nat)
    requires FirstRows(result, table, now, clubId, limit)
    ensures |result| == Min(limit, |Rows(table, now, clubId)|)
    ensures forall m :: m in result ==> m in table && Selected(m, now, clubId)
    ensures forall i, j :: 0 <= i < j < |result| ==> result[i].kickoff <= result[j].kickoff
    ensures forall kept, left :: kept in result && left in multiset(Rows(table, now, clubId)) - multiset(result) ==>
              kept.kickoff <= left.kickoff
  {
    var rows := Rows(table, now, clubId);
    var sorted :| IsSortOf(sorted, rows, ByKickoff()) && result == sorted[..Min(limit, |sorted|)];
    PermutationKeepsLength(sorted, rows);
    forall m | m in result ensures m in table && Selected(m, now, clubId) {
      assert m in multiset(sorted);
      assert m in rows;
      RowsAreSelected(table, now, clubId, m);
    }
    forall i, j | 0 <= i < j < |result| ensures result[i].kickoff <= result[j].kickoff {
      assert ByKickoff()(sorted[i]) <= ByKickoff()(sorted[j]);
    }
    forall kept, left | kept in result && left in multiset(rows) - multiset(result) ensures kept.kickoff <= left.kickoff {
      CutKeepsLeast(sorted, rows, ByKickoff(), |result|, left, kept);
    }
  }

  // --- GetUpcomingMatches of the gateway ---

  // The list that a canonical club and a limit ask for.
  ghost predicate Listing(matches: seq<Match>, table: seq<Match>, now: int, club: string, limit: nat) {
    FirstRows(matches, table, now, club, limit) && |matches| == Min(limit, |Rows(table, now, club)|)
  }

  // The limit parameter as the handler reads it.
  method ReadLimit(limitText: string, clubId: string) returns (r: Result<nat, string>)
    ensures r == GatewayLimit(limitText, clubId)
  {
    var limit := DEFAULT_GATEWAY_LIMIT;
    if clubId != "" {
      limit := DEFAULT_CLUB_LIMIT;
    }
    var raw := Trim(limitText);
    if raw != "" {
      var number := ParsePositive(raw, TWO_TO_31);
      if number.None? {
        return Err("limit must be a positive integer");
      }
      var parsed := number.value;
      if parsed > MAX_GATEWAY_LIMIT {
        parsed := MAX_GATEWAY_LIMIT;
      }
      limit := parsed;
    }
    return Ok(limit);
  }

  // The rest of the handler: over-fetch, filter again, cut.
  method FetchAndCut(table: Option<seq<Match>>, now: int, limit: nat, clubId: string,
                     matchesReachable: bool, clubsReachable: bool)
    returns (r: Result<seq<Match>, string>)
    requires CanonicalClub(clubId) && 1 <= limit <= MAX_GATEWAY_LIMIT
    ensures r.Ok? <==> table.Some? && matchesReachable && clubsReachable
    ensures r.Ok? ==> Listing(r.value, table.value, now, clubId, limit)
    ensures r.Err? ==> r == Err("match adapter error")
  {
    var fetchLimit := limit;
    if clubId != "" && fetchLimit < 100 {
      fetchLimit := 100;
    }
    if !matchesReachable {
      return Err("match adapter error");
    }
    CanonicalIsKept(clubId);
    var fetched := ServeUpcoming(table, now, fetchLimit, clubId);
    if fetched.Err? || !clubsReachable {
      return Err("match adapter error");
    }
    assert NormalizeUpcomingLimit(fetchLimit) == fetchLimit;
    FilterAndCut(fetched.value, table.value, now, clubId, fetchLimit, limit);
    var filtered := FilterMatchesByClubId(fetched.value, clubId);
    r := Ok(CutMatchesByLimit(filtered, limit));
    FirstRowsAreEarliest(r.value, table.value, now, clubId, limit);
  }

  // From query parameters to the list that is rendered. Over-fetching, filtering again and
  // cutting amount to the first rows that club and limit ask for. The adapter may be unable
  // to query its table or out of reach, for the matches as for the clubs.
  method GetUpcomingMatches(table: Option<seq<Match>>, now: int, limitText: string, clubText: Option<string>,
                            matchesReachable: bool, clubsReachable: bool)
    returns (r: Result<seq<Match>, string>)
    ensures Answers(r, if table.Some? then table.value else [], now, limitText, clubText,
                    table.Some? && matchesReachable && clubsReachable)
  {
    GatewayClubMeaning(clubText);
    var club := GatewayClub(clubText);
    if club.Err? {
      return Err(club.error);
    }
    GatewayLimitMeaning(limitText, club.value);
    var limit := ReadLimit(limitText, club.value);
    assert forall other :: AskedClub(clubText, other) <==> other == club.value;
    if limit.Err? {
      return Err(limit.error);
    }
    assert forall other: nat :: AskedLimit(limitText, club.value, other) <==> other == limit.value;
    r := FetchAndCut(table, now, limit.value, club.value, matchesReachable, clubsReachable);
  }
}
