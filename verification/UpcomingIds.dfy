// Choosing the ids of upcoming matches (premierliga/source.go): tournament selection, range
// filter, first-seen deduplication, sort and cut. Days and kickoffs are given as parsed
// instants in nanoseconds; None is a value that does not parse.
module UpcomingIds {
  import opened Common
  import opened Sorting

  // --- Tournament selection ---

  datatype Tournament = Tournament(id: int, dateFrom: Option<int>, dateTo: Option<int>)

  // tournamentOverlapsRange
  predicate Overlaps(t: Tournament, from: int, to: int) {
    && t.dateFrom.Some? && t.dateTo.Some?
    && !(t.dateTo.value + (DAY - 1) < from)
    && !(t.dateFrom.value > to)
  }

  // The test says whether both days are readable and some instant lies in both ranges, if
  // the ranges are well ordered.
  lemma OverlapMeansCommonInstant(t: Tournament, from: int, to: int)
    requires from <= to
    requires t.dateFrom.Some? && t.dateTo.Some? ==> t.dateFrom.value <= t.dateTo.value
    ensures Overlaps(t, from, to) <==> exists instant: int :: InBoth(t, from, to, instant)
  {
    if Overlaps(t, from, to) {
      assert InBoth(t, from, to, if t.dateFrom.value <= from then from else t.dateFrom.value);
    }
  }

  // An instant of the requested range on one of the tournament's days.
  ghost predicate InBoth(t: Tournament, from: int, to: int, instant: int) {
    t.dateFrom.Some? && t.dateTo.Some? &&
    t.dateFrom.value <= instant < t.dateTo.value + DAY && from <= instant <= to
  }

  function NewestFirst(): Tournament -> int {
    (t: Tournament) => -t.id
  }

  function Positive(): Tournament -> bool {
    (t: Tournament) => t.id > 0
  }

  function Eligible(from: int, to: int): Tournament -> bool {
    (t: Tournament) => t.id > 0 && Overlaps(t, from, to)
  }

  // The n greatest by id, newest first, whatever the order of ties.
  ghost predicate IsTop(top: seq<Tournament>, all: seq<Tournament>, n: nat) {
    && |top| == Min(n, |all|)
    && multiset(top) <= multiset(all)
    && Ordered(top, NewestFirst())
    && forall kept, left :: kept in top && left in multiset(all) - multiset(top) ==> kept.id >= left.id
  }

  // The up-to-3 newest tournaments that meet the range, or else the up-to-2 newest.
  ghost predicate IsSelection(selected: seq<Tournament>, tournaments: seq<Tournament>, from: int, to: int) {
    if Filter(tournaments, Eligible(from, to)) != [] then
      IsTop(selected, Filter(tournaments, Eligible(from, to)), 3)
    else
      IsTop(selected, Filter(tournaments, Positive()), 2)
  }

  lemma PrefixOfSortIsTop(sorted: seq<Tournament>, tournaments: seq<Tournament>, keep: Tournament -> bool, n: nat)
    requires IsSortOf(sorted, tournaments, NewestFirst())
    ensures var kept := Filter(sorted, keep);
            IsTop(kept[..Min(n, |kept|)], Filter(tournaments, keep), n)
  {
    var all, s := Filter(tournaments, keep), Filter(sorted, keep);
    FilterOfSorted(sorted, tournaments, keep, NewestFirst());
    PermutationKeepsLength(s, all);
    CutIsTop(s, all, n, s[..Min(n, |s|)]);
  }

  lemma CutIsTop(s: seq<Tournament>, all: seq<Tournament>, n: nat, top: seq<Tournament>)
    requires IsSortOf(s, all, NewestFirst()) && |s| == |all|
    requires top == s[..Min(n, |s|)]
    ensures IsTop(top, all, n)
  {
    assert s == top + s[|top|..];
    assert multiset(all) == multiset(top) + multiset(s[|top|..]);
    forall kept, left | kept in top && left in multiset(all) - multiset(top) ensures kept.id >= left.id {
      CutKeepsLeast(s, all, NewestFirst(), |top|, left, kept);
    }
  }

  // selectTournamentsForRange
  method SelectTournamentsForRange(tournaments: seq<Tournament>, from: int, to: int) returns (selected: seq<Tournament>)
    ensures IsSelection(selected, tournaments, from, to)
  {
    if |tournaments| == 0 {
      return [];
    }
    var sorted := SortSlice(tournaments, NewestFirst());
    PrefixOfSortIsTop(sorted, tournaments, Eligible(from, to), 3);
    PrefixOfSortIsTop(sorted, tournaments, Positive(), 2);

    selected := TakeWhere(sorted, Eligible(from, to), 3);
    if |selected| > 0 {
      return;
    }
    selected := TakeWhere(sorted, Positive(), 2);
  }

  // The loops of selectTournamentsForRange: collect until enough.
  method TakeWhere(sorted: seq<Tournament>, keep: Tournament -> bool, n: nat) returns (selected: seq<Tournament>)
    requires n > 0
    ensures selected == Filter(sorted, keep)[..Min(n, |Filter(sorted, keep)|)]
  {
    selected := [];
    for k := 0 to |sorted|
      invariant selected == Filter(sorted[..k], keep)
      invariant |selected| < n
    {
      assert sorted[..k + 1][..k] == sorted[..k];
      if !keep(sorted[k]) {
        continue;
      }
      selected := selected + [sorted[k]];
      if |selected| >= n {
        FilterPrefix(sorted, k + 1, keep);
        return;
      }
    }
    assert sorted[..|sorted|] == sorted;
  }

  // --- Candidates ---

  datatype ListItem = ListItem(id: int, kickoff: Option<int>)

  // The answer of the match list of one tournament.
  datatype Listing = Unavailable | Failed | Loaded(stages: seq<seq<ListItem>>)

  datatype Candidate = Candidate(id: int, kickoff: int)

  predicate InRange(item: ListItem, from: int, to: int) {
    item.id > 0 && item.kickoff.Some? && from <= item.kickoff.value <= to
  }

  // The in-range matches in the order in which the nested loops meet them.
  function StageOccurrences(items: seq<ListItem>, from: int, to: int): seq<Candidate> {
    if items == [] then []
    else
      var item := items[|items| - 1];
      StageOccurrences(items[..|items| - 1], from, to) +
      if InRange(item, from, to) then [Candidate(item.id, item.kickoff.value)] else []
  }

  function ListingOccurrences(stages: seq<seq<ListItem>>, from: int, to: int): seq<Candidate> {
    if stages == [] then []
    else ListingOccurrences(stages[..|stages| - 1], from, to) + StageOccurrences(stages[|stages| - 1], from, to)
  }

  function Occurrences(listings: seq<Listing>, from: int, to: int): seq<Candidate> {
    if listings == [] then []
    else
      var last := listings[|listings| - 1];
      Occurrences(listings[..|listings| - 1], from, to) +
      if last.Loaded? then ListingOccurrences(last.stages, from, to) else []
  }

  lemma {:induction false} StageMeaning(items: seq<ListItem>, from: int, to: int, c: Candidate)
    ensures c in StageOccurrences(items, from, to) <==>
            c.id > 0 && from <= c.kickoff <= to && ListItem(c.id, Some(c.kickoff)) in items
  {
    if items != [] {
      StageMeaning(items[..|items| - 1], from, to, c);
      assert items == items[..|items| - 1] + [items[|items| - 1]];
    }
  }

  lemma {:induction false} ListingMeaning(stages: seq<seq<ListItem>>, from: int, to: int, c: Candidate)
    ensures c in ListingOccurrences(stages, from, to) <==>
            c.id > 0 && from <= c.kickoff <= to && exists st :: st in stages && ListItem(c.id, Some(c.kickoff)) in st
  {
    if stages != [] {
      var n := |stages| - 1;
      ListingMeaning(stages[..n], from, to, c);
      StageMeaning(stages[n], from, to, c);
      assert stages == stages[..n] + [stages[n]];
    }
  }

  // The stream of occurrences holds exactly the positive ids listed with a kickoff in range.
  lemma {:induction false} OccurrencesMeaning(listings: seq<Listing>, from: int, to: int, c: Candidate)
    ensures c in Occurrences(listings, from, to) <==>
            c.id > 0 && from <= c.kickoff <= to &&
            exists l :: l in listings && l.Loaded? &&
                        exists st :: st in l.stages && ListItem(c.id, Some(c.kickoff)) in st
  {
    if listings != [] {
      var n := |listings| - 1;
      OccurrencesMeaning(listings[..n], from, to, c);
      if listings[n].Loaded? {
        ListingMeaning(listings[n].stages, from, to, c);
      }
      assert listings == listings[..n] + [listings[n]];
    }
  }

  function IdsOf(s: seq<Candidate>): (ids: seq<int>)
    ensures |ids| == |s|
    ensures forall k :: 0 <= k < |s| ==> ids[k] == s[k].id
  {
    seq(|s|, k requires 0 <= k < |s| => s[k].id)
  }

  // Each id at its first occurrence.
  function FirstSeen(occ: seq<Candidate>): seq<Candidate> {
    if occ == [] then []
    else
      var before, last := FirstSeen(occ[..|occ| - 1]), occ[|occ| - 1];
      if last.id in IdsOf(before) then before else before + [last]
  }

  function FirstKickoff(occ: seq<Candidate>, id: int): int
    requires id in IdsOf(occ)
  {
    if occ[0].id == id then occ[0].kickoff
    else
      assert IdsOf(occ)[1..] == IdsOf(occ[1..]);
      FirstKickoff(occ[1..], id)
  }

  lemma {:induction false} FirstKickoffAppend(occ: seq<Candidate>, c: Candidate, id: int)
    requires id in IdsOf(occ + [c])
    ensures id in IdsOf(occ) ==> FirstKickoff(occ + [c], id) == FirstKickoff(occ, id)
    ensures id !in IdsOf(occ) ==> id == c.id && FirstKickoff(occ + [c], id) == c.kickoff
  {
    assert IdsOf(occ + [c]) == IdsOf(occ) + [c.id];
    if occ != [] {
      assert (occ + [c])[1..] == occ[1..] + [c];
      assert IdsOf(occ) == [occ[0].id] + IdsOf(occ[1..]);
      assert IdsOf(occ + [c]) == [occ[0].id] + IdsOf(occ[1..] + [c]);
      if occ[0].id != id {
        FirstKickoffAppend(occ[1..], c, id);
      }
    }
  }

  lemma {:induction false} FirstSeenMeaning(occ: seq<Candidate>)
    ensures Distinct(IdsOf(FirstSeen(occ)))
    ensures forall id :: id in IdsOf(FirstSeen(occ)) <==> id in IdsOf(occ)
    ensures forall k :: 0 <= k < |FirstSeen(occ)| ==>
              FirstSeen(occ)[k].id in IdsOf(occ) && FirstSeen(occ)[k].kickoff == FirstKickoff(occ, FirstSeen(occ)[k].id)
  {
    if occ != [] {
      var front, last := occ[..|occ| - 1], occ[|occ| - 1];
      FirstSeenMeaning(front);
      assert occ == front + [last];
      assert IdsOf(occ) == IdsOf(front) + [last.id];
      var before, after := FirstSeen(front), FirstSeen(occ);
      if last.id !in IdsOf(before) {
        assert IdsOf(after) == IdsOf(before) + [last.id];
      }
      forall k | 0 <= k < |after|
        ensures after[k].id in IdsOf(occ) && after[k].kickoff == FirstKickoff(occ, after[k].id)
      {
        if k < |before| {
          assert after[k] == before[k];
          assert before[k].id in IdsOf(front);
          assert before[k].kickoff == FirstKickoff(front, before[k].id);
        }
        assert after[k].id in IdsOf(occ);
        FirstKickoffAppend(front, last, after[k].id);
      }
    }
  }

  lemma {:induction false} FirstKickoffOccurs(occ: seq<Candidate>, id: int)
    requires id in IdsOf(occ)
    ensures Candidate(id, FirstKickoff(occ, id)) in occ
  {
    if occ[0].id != id {
      assert IdsOf(occ)[1..] == IdsOf(occ[1..]);
      FirstKickoffOccurs(occ[1..], id);
    }
  }

  // Every candidate id is positive and was first listed with a kickoff inside the range.
  lemma CandidatesAreInRange(listings: seq<Listing>, from: int, to: int, id: int)
    requires id in IdsOf(Occurrences(listings, from, to))
    ensures id > 0 && from <= FirstKickoff(Occurrences(listings, from, to), id) <= to
  {
    var occ := Occurrences(listings, from, to);
    FirstKickoffOccurs(occ, id);
    OccurrencesMeaning(listings, from, to, Candidate(id, FirstKickoff(occ, id)));
  }

  // What FetchUpcomingIDs promises about the ids it returns.
  ghost predicate IsEarliest(ids: seq<int>, occ: seq<Candidate>, limit: nat) {
    && Distinct(ids)
    && (forall id :: id in ids ==> id in IdsOf(occ))
    && |ids| == Min(limit, |FirstSeen(occ)|)
    && (forall i, j :: 0 <= i < j < |ids| ==> FirstKickoff(occ, ids[i]) <= FirstKickoff(occ, ids[j]))
    && (forall left, i :: left in IdsOf(occ) && left !in ids && 0 <= i < |ids| ==>
          FirstKickoff(occ, ids[i]) <= FirstKickoff(occ, left))
  }

  function ByKickoff(): Candidate -> int {
    (c: Candidate) => c.kickoff
  }

  // Sorting the candidates by kickoff, in any order of ties, and cutting at the limit
  // yields the earliest ids.
  lemma CutOfSortIsEarliest(sorted: seq<Candidate>, occ: seq<Candidate>, limit: nat, n: nat)
    requires IsSortOf(sorted, FirstSeen(occ), ByKickoff())
    requires n == Min(limit, |sorted|)
    ensures IsEarliest(IdsOf(sorted[..n]), occ, limit)
  {
    var ids := IdsOf(sorted[..n]);
    SortedCandidates(sorted, occ);
    assert |sorted| == |multiset(sorted)| == |multiset(FirstSeen(occ))|;
    assert forall i :: 0 <= i < n ==> ids[i] == IdsOf(sorted)[i] == sorted[i].id;
    forall left, i | left in IdsOf(occ) && left !in ids && 0 <= i < n
      ensures FirstKickoff(occ, ids[i]) <= FirstKickoff(occ, left)
    {
      var j :| 0 <= j < |sorted| && sorted[j].id == left;
      assert i < j;
    }
  }

  lemma SortedCandidates(sorted: seq<Candidate>, occ: seq<Candidate>)
    requires IsSortOf(sorted, FirstSeen(occ), ByKickoff())
    ensures Distinct(IdsOf(sorted))
    ensures forall i :: 0 <= i < |sorted| ==>
              sorted[i].id in IdsOf(occ) && sorted[i].kickoff == FirstKickoff(occ, sorted[i].id)
    ensures forall i, j :: 0 <= i < j < |sorted| ==> sorted[i].kickoff <= sorted[j].kickoff
    ensures forall id :: id in IdsOf(occ) ==> exists j :: 0 <= j < |sorted| && sorted[j].id == id
  {
    var all := FirstSeen(occ);
    FirstSeenMeaning(occ);
    PermutedIdsDistinct(sorted, all);
    forall i | 0 <= i < |sorted|
      ensures sorted[i].id in IdsOf(occ) && sorted[i].kickoff == FirstKickoff(occ, sorted[i].id)
    {
      assert sorted[i] in multiset(sorted);
      assert sorted[i] in all;
    }
    forall id | id in IdsOf(occ) ensures exists j :: 0 <= j < |sorted| && sorted[j].id == id {
      assert id in IdsOf(all);
      var k :| 0 <= k < |all| && all[k].id == id;
      assert all[k] in multiset(all);
      assert all[k] in multiset(sorted);
    }
    forall i, j | 0 <= i < j < |sorted| ensures sorted[i].kickoff <= sorted[j].kickoff {
      assert ByKickoff()(sorted[i]) <= ByKickoff()(sorted[j]);
    }
  }

  lemma PermutedIdsDistinct(a: seq<Candidate>, b: seq<Candidate>)
    requires multiset(a) == multiset(b) && Distinct(IdsOf(b))
    ensures Distinct(IdsOf(a))
  {
    forall i, j | 0 <= i < j < |a| ensures a[i].id != a[j].id {
      TwoOccurrences(a, i, j);
      if a[i].id == a[j].id {
        IdsDistinctCount(b, a[i], a[j]);
      }
    }
  }

  lemma TwoOccurrences(a: seq<Candidate>, i: nat, j: nat)
    requires i < j < |a|
    ensures a[i] == a[j] ==> multiset(a)[a[i]] >= 2
    ensures a[i] != a[j] ==> multiset(a)[a[i]] + multiset(a)[a[j]] >= 2
  {
    assert a == a[..j] + a[j..];
    assert a[..j][i] == a[i] && a[j..][0] == a[j];
  }

  // A list with distinct ids holds no id twice, whichever two entries carry it.
  lemma {:induction false} IdsDistinctCount(b: seq<Candidate>, x: Candidate, y: Candidate)
    requires Distinct(IdsOf(b)) && x.id == y.id
    ensures x == y ==> multiset(b)[x] <= 1
    ensures x != y ==> multiset(b)[x] + multiset(b)[y] <= 1
  {
    if b != [] {
      var front, last := b[..|b| - 1], b[|b| - 1];
      assert b == front + [last];
      assert IdsOf(b) == IdsOf(front) + [last.id];
      IdsDistinctCount(front, x, y);
      if last.id == x.id {
        assert forall k :: 0 <= k < |front| ==> front[k].id == IdsOf(front)[k] != x.id;
        assert x !in front && y !in front;
      }
    }
  }

  // --- FetchUpcomingIDs ---

  datatype FetchError = TournamentsFailed | SourceUnavailable(tournament: int) | MatchesFailed

  // The answers for the selected tournaments, up to the first that says unavailable.
  function Answers(selected: seq<Tournament>, ask: (nat, Tournament) -> Listing): (listings: seq<Listing>)
    ensures |listings| == |selected|
    ensures forall k :: 0 <= k < |selected| ==> listings[k] == ask(k, selected[k])
  {
    seq(|selected|, k requires 0 <= k < |selected| => ask(k, selected[k]))
  }

  // What FetchUpcomingIDs may return once these tournaments were selected.
  ghost predicate Fetches(r: Result<seq<int>, FetchError>, selected: seq<Tournament>, listings: seq<Listing>,
                          from: int, to: int, limit: nat)
    requires |listings| == |selected|
  {
    if exists k :: 0 <= k < |listings| && listings[k].Unavailable? then
      exists k :: 0 <= k < |listings| && listings[k].Unavailable? && r == Err(SourceUnavailable(selected[k].id)) &&
                  forall j :: 0 <= j < k ==> !listings[j].Unavailable?
    else if (exists k :: 0 <= k < |listings| && listings[k].Failed?) && forall k :: 0 <= k < |listings| ==> !listings[k].Loaded? then
      r == Err(MatchesFailed)
    else
      r.Ok? && IsEarliest(r.value, Occurrences(listings, from, to), limit)
  }

  // The set that mirrors the candidates' ids while they are collected.
  ghost predicate Tracks(seen: set<int>, candidates: seq<Candidate>, occ: seq<Candidate>) {
    candidates == FirstSeen(occ) && forall id :: id in seen <==> id in IdsOf(candidates)
  }

  lemma TrackOne(seen: set<int>, candidates: seq<Candidate>, occ: seq<Candidate>, c: Candidate)
    requires Tracks(seen, candidates, occ)
    ensures c.id in seen ==> Tracks(seen, candidates, occ + [c])
    ensures c.id !in seen ==> Tracks(seen + {c.id}, candidates + [c], occ + [c])
  {
    assert (occ + [c])[..|occ|] == occ;
    assert IdsOf(candidates + [c]) == IdsOf(candidates) + [c.id];
  }

  // The inner loop: one stage of one tournament.
  method ScanStage(items: seq<ListItem>, from: int, to: int, seen: set<int>, candidates: seq<Candidate>,
                   ghost occ: seq<Candidate>)
    returns (seen': set<int>, candidates': seq<Candidate>)
    requires Tracks(seen, candidates, occ)
    ensures Tracks(seen', candidates', occ + StageOccurrences(items, from, to))
  {
    seen', candidates' := seen, candidates;
    assert occ + [] == occ;
    for k := 0 to |items|
      invariant Tracks(seen', candidates', occ + StageOccurrences(items[..k], from, to))
    {
      var item := items[k];
      assert items[..k + 1][..k] == items[..k];
      ghost var so := occ + StageOccurrences(items[..k], from, to);
      if item.id <= 0 {
        assert StageOccurrences(items[..k + 1], from, to) == StageOccurrences(items[..k], from, to);
        continue;
      }
      if item.kickoff.None? || item.kickoff.value < from || item.kickoff.value > to {
        assert StageOccurrences(items[..k + 1], from, to) == StageOccurrences(items[..k], from, to);
        continue;
      }
      var c := Candidate(item.id, item.kickoff.value);
      assert occ + StageOccurrences(items[..k + 1], from, to) == so + [c];
      TrackOne(seen', candidates', so, c);
      if item.id in seen' {
        continue;
      }
      seen' := seen' + {item.id};
      candidates' := candidates' + [c];
    }
    assert items[..|items|] == items;
  }

  // The middle loop: the stages of one tournament.
  method ScanListing(stages: seq<seq<ListItem>>, from: int, to: int, seen: set<int>, candidates: seq<Candidate>,
                     ghost occ: seq<Candidate>)
    returns (seen': set<int>, candidates': seq<Candidate>)
    requires Tracks(seen, candidates, occ)
    ensures Tracks(seen', candidates', occ + ListingOccurrences(stages, from, to))
  {
    seen', candidates' := seen, candidates;
    assert occ + [] == occ;
    for k := 0 to |stages|
      invariant Tracks(seen', candidates', occ + ListingOccurrences(stages[..k], from, to))
    {
      assert stages[..k + 1][..k] == stages[..k];
      ghost var so := occ + ListingOccurrences(stages[..k], from, to);
      seen', candidates' := ScanStage(stages[k], from, to, seen', candidates', so);
      assert so + StageOccurrences(stages[k], from, to) == occ + ListingOccurrences(stages[..k + 1], from, to);
    }
    assert stages[..|stages|] == stages;
  }

  // FetchUpcomingIDs: ask answers the match-list request for the k-th selected tournament.
  method FetchUpcomingIDs(tournaments: Option<seq<Tournament>>, ask: (nat, Tournament) -> Listing,
                          from: int, to: int, limit: int)
    returns (r: Result<seq<int>, FetchError>)
    ensures tournaments.None? ==> r == Err(TournamentsFailed)
    ensures tournaments.Some? ==>
              exists selected ::
                && IsSelection(selected, tournaments.value, from, to)
                && Fetches(r, selected, Answers(selected, ask), from, to, if limit > 0 then limit else 100)
  {
    if tournaments.None? {
      return Err(TournamentsFailed);
    }
    var bound: nat := if limit <= 0 then 100 else limit;
    var selected := SelectTournamentsForRange(tournaments.value, from, to);
    r := CollectIds(selected, ask, from, to, bound);
  }

  ghost predicate AnyLoaded(listings: seq<Listing>) {
    exists k :: 0 <= k < |listings| && listings[k].Loaded?
  }

  ghost predicate AnyFailed(listings: seq<Listing>) {
    exists k :: 0 <= k < |listings| && listings[k].Failed?
  }

  ghost predicate AnyUnavailable(listings: seq<Listing>) {
    exists k :: 0 <= k < |listings| && listings[k].Unavailable?
  }

  lemma NothingUnavailable(r: Result<seq<int>, FetchError>, selected: seq<Tournament>, listings: seq<Listing>,
                           from: int, to: int, limit: nat)
    requires |listings| == |selected| && !AnyUnavailable(listings)
    requires if !AnyLoaded(listings) && AnyFailed(listings) then r == Err(MatchesFailed)
             else r.Ok? && IsEarliest(r.value, Occurrences(listings, from, to), limit)
    ensures Fetches(r, selected, listings, from, to, limit)
  {
  }

  lemma FirstUnavailable(selected: seq<Tournament>, listings: seq<Listing>, k: nat, from: int, to: int, limit: nat)
    requires |listings| == |selected| && k < |listings| && listings[k].Unavailable? && !AnyUnavailable(listings[..k])
    ensures Fetches(Err(SourceUnavailable(selected[k].id)), selected, listings, from, to, limit)
  {
    assert forall j :: 0 <= j < k ==> listings[..k][j] == listings[j];
  }

  lemma OneMoreListing(listings: seq<Listing>, k: nat, from: int, to: int)
    requires k < |listings|
    ensures Occurrences(listings[..k + 1], from, to) ==
            Occurrences(listings[..k], from, to) +
            if listings[k].Loaded? then ListingOccurrences(listings[k].stages, from, to) else []
    ensures AnyLoaded(listings[..k + 1]) <==> AnyLoaded(listings[..k]) || listings[k].Loaded?
    ensures AnyFailed(listings[..k + 1]) <==> AnyFailed(listings[..k]) || listings[k].Failed?
    ensures AnyUnavailable(listings[..k + 1]) <==> AnyUnavailable(listings[..k]) || listings[k].Unavailable?
  {
    var front, more := listings[..k], listings[..k + 1];
    assert more[..k] == front;
    assert more[k] == listings[k] && forall j :: 0 <= j < k ==> front[j] == more[j];
  }

  method CollectIds(selected: seq<Tournament>, ask: (nat, Tournament) -> Listing, from: int, to: int, bound: nat)
    returns (r: Result<seq<int>, FetchError>)
    ensures Fetches(r, selected, Answers(selected, ask), from, to, bound)
  {
    var candidates: seq<Candidate> := [];
    var seen: set<int> := {};
    var failed, loaded := false, false;
    ghost var listings := Answers(selected, ask);
    ghost var occ: seq<Candidate> := [];

    for k := 0 to |selected|
      invariant !AnyUnavailable(listings[..k])
      invariant loaded <==> AnyLoaded(listings[..k])
      invariant failed <==> AnyFailed(listings[..k])
      invariant occ == Occurrences(listings[..k], from, to)
      invariant Tracks(seen, candidates, occ)
    {
      var listing := ask(k, selected[k]);
      assert listing == listings[k];
      OneMoreListing(listings, k, from, to);
      assert occ + [] == occ;
      match listing {
        case Unavailable =>
          FirstUnavailable(selected, listings, k, from, to, bound);
          return Err(SourceUnavailable(selected[k].id));
        case Failed =>
          failed := true;
        case Loaded(stages) =>
          loaded := true;
          seen, candidates := ScanListing(stages, from, to, seen, candidates, occ);
          occ := occ + ListingOccurrences(stages, from, to);
      }
    }
    assert listings[..|selected|] == listings;

    if !loaded && failed {
      r := Err(MatchesFailed);
    } else {
      var ids := EarliestIds(candidates, bound, occ);
      r := Ok(ids);
    }
    NothingUnavailable(r, selected, listings, from, to, bound);
  }

  // The tail of FetchUpcomingIDs: sort by kickoff, cut, keep the ids.
  method EarliestIds(candidates: seq<Candidate>, bound: nat, ghost occ: seq<Candidate>) returns (ids: seq<int>)
    requires candidates == FirstSeen(occ)
    ensures IsEarliest(ids, occ, bound)
  {
    var sorted := SortSlice(candidates, ByKickoff());
    CutOfSortIsEarliest(sorted, occ, bound, Min(bound, |sorted|));
    if |sorted| > bound {
      sorted := sorted[..bound];
    }
    assert sorted[..|sorted|] == sorted;
    ids := IdsOf(sorted);
  }
}
