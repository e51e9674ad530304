# Fan Avia: verified models of the backend's stateful cores

Fan Avia looks up flights for football matches. Three Go services work together: the
`api-gateway` answers HTTP requests, the `match-adapter` keeps matches (Premierliga as
source, Postgres, a Redis cache), and the `airfare-provider` prices six slots around a match
(Travelpayouts as source, a Redis cache). This project models the parts of these services
that keep state or combine results, one module per component:

| module | component |
|---|---|
| `Fanout` | the concurrent airfare calls of the gateway's catalogue: semaphore, results channel, WaitGroup, closer, collector |
| `BestFare`, `Catalog` | the one-pass fare summary, and what it shows of the provider's slots |
| `Matches`, `MatchService` | match lookup and sync over cache, table and source, one call at a time |
| `MatchStore` | the same calls interleaved at every access, with expiry and failures |
| `SerialRuns` | the agreement of these two models on calls that run alone |
| `FareSource`, `Windows`, `Airfare` | price extraction, match-day windows, window fallback and the cached slot service |
| `UpcomingIds` | the choice of upcoming match ids from the tournaments' lists |
| `TokenIndex`, `TokenExpiry` | the refresh-token repository: forward keys, rebuilt reverse keys, failing commands; how old an answer can be and what a delete achieves |
| `Retry` | the retry loop with exponential backoff |
| `Upcoming` | the club-filtered upcoming list through table, adapter and gateway |
| `Common`, `Text`, `Sorting` | shared values, strings and numerals, sorting and filtering |

Operations that change things step by step are methods, with their loops and, where there is
an object, its fields; each is proved equal to a function of its inputs or of the old state,
and the lemmas are about that function. The two concurrent parts are transition systems whose
steps are the single accesses or channel operations of the code; their theorems range over
every schedule.

Everything outside the code is a parameter: `World`, `Answer`, `Upstream`, `Reply` and the
like give what the remote party, the cache or the table says, including failures. Instants
and durations are integers in nanoseconds, with 0 as the zero time where the code asks for
it. Prices and backoffs are integers, with int64 wrap-around written out where an addition or
a multiplication could overflow.

Some properties that one might expect do not hold of the code. For each, the exact condition
under which it does hold is proved:

- Cache and table may come to disagree under interleaving without any failure
  (`MatchStore.StaleEntryIsReachable`). They agree, wherever no call is about to write the
  cache, and stay so whichever of those writes are made, exactly as long as every step is
  orderly (`MatchStore.RunStaysPending`, `MatchStore.PendingMeansStaysCoherent`).
- A call that runs alone may leave the old row cached and not count the new one, if an upsert
  takes effect while reporting an error (`MatchService.UnreportedUpsertLeavesStaleEntry`);
  `MatchService.WriteKeepsCoherence` and `MatchService.SyncConserves` say exactly when not.
- Normalizing a window policy does not nest its windows (`Windows.NormalizedMayNotNest`).
  Widening loses no fare exactly for containing windows, and an empty slot means an empty
  soft-2 window exactly when both stricter windows lie within it
  (`Airfare.OutboundEmptinessFollowsSoft2`).
- A refresh token may be answered after it was deleted (`TokenExpiry.DeleteCanComeTooLate`);
  `TokenExpiry.DeletedForGood` says exactly when not. An answer may be almost two lifetimes
  old (`TokenExpiry.RecencyBoundIsAttained`), never older. A delete whose second command is
  lost leaves a token that still names the match (`TokenIndex.IndexAgrees`).
- An item of the catalogue may have neither fare nor error, exactly when a call fails with an
  empty message (`Fanout.EveryItemIsAccountedFor`).
- Backoff products and round-trip sums are exact exactly below their int64 bounds.

`dafny verify dfyconfig.toml` checks the whole project.

## Model

| member | source | states |
|---|---|---|
| Fanout.StepKeepsInv | cmd/api-gateway/internal/api/http/handlers/catalog_handler.go:154-230 | every step of the spawner, a worker, the closer or the collector keeps the joint invariant of semaphore, WaitGroup, channel and response |
| Fanout.FanoutIsSafe | cmd/api-gateway/internal/api/http/handlers/catalog_handler.go:154-207 | in every state of every run, for any number of matches: at most 4 calls in flight, no match sent twice, no send blocks although receiving starts only after spawning, no operation panics, and a closed channel holds all n results |
| Fanout.ClosedOnce | cmd/api-gateway/internal/api/http/handlers/catalog_handler.go:204-207 | once closed, the channel stays closed, is never closed again and receives nothing more |
| Fanout.NoDeadlock | cmd/api-gateway/internal/api/http/handlers/catalog_handler.go:158-232 | in every reachable state, no step is enabled if and only if the response has been written |
| Fanout.StepDecreasesMeasure | cmd/api-gateway/internal/api/http/handlers/catalog_handler.go:158-230 | every step strictly decreases a measure over unspawned matches, worker program counters, buffered results and the closer |
| Fanout.RunsAreFinite | cmd/api-gateway/internal/api/http/handlers/catalog_handler.go:158-230 | every run, under any schedule, has at most 9n + 3 steps |
| Fanout.FanoutRefinesSequentialLoop | cmd/api-gateway/internal/api/http/handlers/catalog_handler.go:158-230 | at the end each item holds the outcome of its own call, each index was sent exactly once, the error list is a permutation of the failing items, and all slots and WaitGroup units are back |
| Fanout.ItemsRenderTheirMatches | cmd/api-gateway/internal/api/http/handlers/catalog_handler.go:158-230 | in the response of any run a loaded match with a price shows the fare of its first least offers and no error, a loaded match without one says that there are no offers, a failed call shows its own message, and a same-route match its own text |
| Fanout.EveryItemIsAccountedFor | cmd/api-gateway/internal/api/http/handlers/catalog_handler.go:173-229 | every item of the response has a fare or is listed as an error if and only if no call fails with an empty message |
| Fanout.EveryScheduleResponds | cmd/api-gateway/internal/api/http/handlers/catalog_handler.go:158-232 | a run that cannot be continued has written the sequential response |
| BestFare.FindBestFare | cmd/api-gateway/internal/api/http/handlers/catalog_handler.go:235-295 | the one-pass loop with its running minima returns the summary of the slots |
| BestFare.SummaryShows | cmd/api-gateway/internal/api/http/handlers/catalog_handler.go:250-294 | in terms of the slots alone: no summary if and only if no slot lists a price; otherwise the least price with kind and date of the first slot that lists it, the least price of each direction, the date of the first return slot that lists its least price, and their sum as far as it is an int64 |
| BestFare.BestIsGlobalMinimum | cmd/api-gateway/internal/api/http/handlers/catalog_handler.go:250-277 | no summary if and only if there is no price; otherwise the least price over all slots, with slot and date of its first occurrence |
| BestFare.DirectionPricesAreMinima | cmd/api-gateway/internal/api/http/handlers/catalog_handler.go:279-294 | each direction reports its own minimum, also when the other has no price; the return date belongs to a slot with the reported return price and is blank without one |
| BestFare.RoundTripIsCheapestPair | cmd/api-gateway/internal/api/http/handlers/catalog_handler.go:289-292 | the round trip is present if and only if both directions have a price, no pair is cheaper, and the int64 sum is the exact one if and only if it fits |
| BestFare.RoundTripDoesNotOverflow | cmd/api-gateway/internal/api/http/handlers/catalog_handler.go:289-292 | positive prices below 2^62 never overflow the round trip |
| BestFare.FirstPricesDecide | cmd/api-gateway/internal/api/http/handlers/catalog_handler.go:250-277 | on strictly increasing price lists each reported price is the first price of some slot, in the reported direction |
| Catalog.SummaryReports | cmd/api-gateway/internal/api/http/handlers/catalog_handler.go:182-200 | on six well-priced slots the summary shows the least first price, and the exact sum of the cheapest outbound and return slots if both exist |
| Catalog.CatalogueShowsCheapestSlots | cmd/api-gateway/internal/api/http/handlers/catalog_handler.go:173-200 | the same for whatever the provider computes from any upstream answers with prices below 2^62 |
| Catalog.ItemReportsServedSlots | cmd/api-gateway/internal/api/http/handlers/catalog_handler.go:173-229 | in the response of any run, an item whose call is answered with what the provider computed reports the cheapest slots that the provider served |
| Matches.EnrichMeaning | cmd/match-adapter/internal/application/service/match_service.go:242-289 | resolved if and only if the city table answers, or the city is blank or unknown and the home club has an entry; which code and which city that gives; every other failure is passed on |
| MatchService.MatchService.GetMatch | cmd/match-adapter/internal/application/service/match_service.go:41-97 | the answer and the whole new state of cache and table, for every outcome of every outside call, also of an upsert that takes effect and still reports an error |
| MatchService.LookupMeaning | cmd/match-adapter/internal/application/service/match_service.go:49-96 | a live entry answers, else the row, else the fetched match with its destination and city completed; which error is reported otherwise, and what is cached |
| MatchService.MatchService.SyncUpcomingMatches | cmd/match-adapter/internal/application/service/match_service.go:123-226 | period and limit asked for, count, error and new state, as the per-id fold has them; an error on completion if and only if there were ids and none was saved |
| MatchService.SyncConserves | cmd/match-adapter/internal/application/service/match_service.go:154-225 | every id reached is saved, failed or ended the sync, and all ids are reached without a context error; the count is at most the number of rows written, and equal to it if and only if no upsert took effect while reporting an error |
| MatchService.SyncWritesTheRows | cmd/match-adapter/internal/application/service/match_service.go:157-212 | the rows written are exactly the fetched and resolved matches whose upsert took effect, in id order, up to the first context error |
| MatchService.SyncLeavesLastWritten | cmd/match-adapter/internal/application/service/match_service.go:196-203 | a sync leaves the last written row of each id, and every other row as it was |
| MatchService.SyncCachesWhatItSaves | cmd/match-adapter/internal/application/service/match_service.go:205-211 | a sync with a working cache leaves an entry for every match that it saved |
| MatchService.WriteKeepsCoherence | cmd/match-adapter/internal/application/service/match_service.go:196-209 | storing a match keeps the cache equal to the table if and only if the row is not written, or no entry was live, or the row did not change, or the upsert reports success and the entry is really written |
| MatchService.UnreportedUpsertLeavesStaleEntry | cmd/match-adapter/internal/application/service/match_service.go:196-203 | a sync alone, with no lost cache write, whose upsert takes effect while reporting an error counts nothing, writes the row and leaves the old one cached |
| MatchService.SerialCallsStayCoherent | cmd/match-adapter/internal/application/service/match_service.go:60-96 | over any sequence of non-interleaved calls and expiries from any coherent start, if cache writes take effect and failed upserts do not, every live entry is the current row; with ttl <= 0 an empty cache stays empty |
| MatchService.CoherentCacheIsInvisible | cmd/match-adapter/internal/application/service/match_service.go:49-69 | with a coherent cache and a readable table the answers and the table are those of the service without a cache |
| MatchService.LookupRemembers | cmd/match-adapter/internal/application/service/match_service.go:41-97 | an error leaves no trace unless its upsert took effect; an answer is the stored row, no other row changes, and a written cache goes on giving it whatever becomes of table and source |
| MatchService.WrittenRowsHaveDestinations | cmd/match-adapter/internal/application/service/match_service.go:79-87 | if the resolver never yields an empty code, every row ever written has a destination |
| MatchStore.NothingIsInvented | cmd/match-adapter/internal/application/service/match_service.go:41-212 | over all interleavings, expiries and failing accesses every cached or returned value was at some time the stored row of its id, if that was so of the entries found at the start |
| MatchStore.StepKeepsPending | cmd/match-adapter/internal/application/service/match_service.go:60-96 | a state is pending if live entries that no call is about to replace, and all values on their way to the cache, are current rows; a step from such a state leads to such a state if and only if it is orderly: no row is written while another call is about to cache another value of it, and no failed upsert takes effect and no cache write is lost where that leaves the entry outdated |
| MatchStore.RunStaysPending | cmd/match-adapter/internal/application/service/match_service.go:41-212 | over all interleavings from a coherent start every state is pending, and so cache and table agree wherever no call is about to write the cache, if and only if every step is orderly |
| MatchStore.PendingMeansStaysCoherent | cmd/match-adapter/internal/application/service/match_service.go:63-68 | a state is pending if and only if cache and table agree whichever of the outstanding cache writes are made, in whatever order |
| MatchStore.StaleEntryIsReachable | cmd/match-adapter/internal/application/service/match_service.go:60-68 | for every change of a row there is a run of reliable steps that leaves the old row cached; its one disorderly step is the upsert |
| SerialRuns.GetAlone | cmd/match-adapter/internal/application/service/match_service.go:41-97 | a lookup whose steps are not interleaved with others does to cache, table and caller what the method does as a whole |
| SerialRuns.SyncAloneIsSync | cmd/match-adapter/internal/application/service/match_service.go:157-212 | the same for a sync over any list of ids |
| SerialRuns.SyncAloneFromItsList | cmd/match-adapter/internal/application/service/match_service.go:145-212 | the same from the listing of the ids on: all listed ids are handled |
| FareSource.CheckTimeConstraints | cmd/airfare-provider/internal/infrastructures/travelpayouts/mappers/results_mappers.go:47-98 | the early-return statements decide exactly the stated time predicate |
| FareSource.Extracted | cmd/airfare-provider/internal/infrastructures/travelpayouts/mappers/results_mappers.go:12-30 | the result is strictly increasing and holds exactly the positive prices of the items that pass |
| FareSource.UniqueSorted | cmd/airfare-provider/internal/infrastructures/travelpayouts/mappers/results_mappers.go:32-45 | a sorted list loses exactly its repetitions |
| FareSource.ExtractPrices | cmd/airfare-provider/internal/infrastructures/travelpayouts/mappers/results_mappers.go:12-30 | filter, sort and deduplicate give the one list that is an extraction |
| Windows.NormalizedMayNotNest | cmd/airfare-provider/internal/application/service/airfare_service.go:80-114 | normalizing does not nest windows: a normalized policy whose softer window does not contain the stricter one |
| Windows.OutboundDayMatchAttempts | cmd/airfare-provider/internal/application/service/airfare_service.go:298-335 | three tries, strict first, bounded around the kickoff by the policy |
| Windows.ReturnDayMatchAttempts | cmd/airfare-provider/internal/application/service/airfare_service.go:337-368 | three tries, strict first, bounded after the kickoff by the policy |
| Windows.OutboundTryAdmits | cmd/airfare-provider/internal/infrastructures/travelpayouts/mappers/results_mappers.go:52-82 | an outbound try admits a flight if and only if it has a departure and a positive flight time and departure plus flight time lies between the two bounds before kickoff |
| Windows.ReturnTryAdmits | cmd/airfare-provider/internal/infrastructures/travelpayouts/mappers/results_mappers.go:84-95 | a return try admits a flight if and only if its departure, or its return time where the departure is missing or zero, is at least so long after kickoff |
| Windows.OutboundWideningIsContainment | cmd/airfare-provider/internal/application/service/airfare_service.go:321-332 | replacing an outbound window loses no fare on any data if and only if the new window contains the old one |
| Windows.ReturnWideningIsContainment | cmd/airfare-provider/internal/application/service/airfare_service.go:356-365 | replacing a return bound loses no fare on any data if and only if the new bound is no later |
| Airfare.OutboundEmptinessFollowsSoft2 | cmd/airfare-provider/internal/application/service/airfare_service.go:197-236 | for every normalized policy, nested or not: on all data the outbound match-day slot is empty exactly when soft-2 offers nothing, if and only if strict and soft-1 lie within soft-2 |
| Airfare.ReturnEmptinessFollowsSoft2 | cmd/airfare-provider/internal/application/service/airfare_service.go:197-236 | the same for the return match-day slot and its bounds |
| Airfare.AirfareService.BuildFareSearchAttempts | cmd/airfare-provider/internal/application/service/airfare_service.go:270-296 | which searches a slot is tried with |
| Airfare.SearchSlot | cmd/airfare-provider/internal/application/service/airfare_service.go:199-233 | the inner loop selects by the first non-empty answer |
| Airfare.FallbackMeetsItsSpecification | cmd/airfare-provider/internal/application/service/airfare_service.go:199-236 | for every pattern of errors: the first successful non-empty try, else the last successful try's level with no prices, else strict with no prices; all calls fail if and only if every try would |
| Airfare.AirfareService.PriceSlots | cmd/airfare-provider/internal/application/service/airfare_service.go:194-237 | all six slots are filled by their own selection, and calls and failures are counted over all of them |
| Airfare.AirfareService.GetAirfareByMatch | cmd/airfare-provider/internal/application/service/airfare_service.go:116-255 | the answer and the new cache, for every outcome of cache, reader and source |
| Airfare.ComputeErrors | cmd/airfare-provider/internal/application/service/airfare_service.go:132-241 | which request gets which error; with a valid route and a source there is a result if and only if some try of some slot is answered, and otherwise the temporary failure |
| Airfare.AnswersAreServed | cmd/airfare-provider/internal/application/service/airfare_service.go:188-237 | every result carries the match id and link of the reader and six slots of the fixed kinds, directions and days; a slot has the first non-empty answer to its tries and the level of that try, and is empty if and only if there is none |
| Airfare.ServedSlotHoldsOffers | cmd/airfare-provider/internal/application/service/airfare_service.go:194-237 | a served slot is empty and strict if its upstream query fails, and otherwise lists exactly the offers admitted by its first try with any, or is empty because no try has any |
| Airfare.ServedMatchDaySlot | cmd/airfare-provider/internal/application/service/airfare_service.go:197-236 | with nested windows a served match-day slot has the tightest window with offers, and is empty if and only if soft-2 offers nothing |
| Airfare.TriesUseThePolicy | cmd/airfare-provider/internal/application/service/airfare_service.go:270-368 | which flights the tries of each slot admit: by landing or leaving time within the window of the level for the two match-day slots, all flights for the others |
| Airfare.TemporaryFailureIffAllFail | cmd/airfare-provider/internal/application/service/airfare_service.go:194-242 | 6 to 10 calls in all, and the temporary failure is reported if and only if every try of every slot would fail |
| Airfare.KeyInjective | cmd/airfare-provider/internal/infrastructures/db/redis/airfare_cache.go:60-62 | two requests share a cache key if and only if match and normalized origin agree |
| Airfare.ServeIsTransparent | cmd/airfare-provider/internal/application/service/airfare_service.go:143-254 | a call on a correct cache answers what computing afresh answers and leaves a correct cache; failed computations are never stored |
| Airfare.ServeRemembers | cmd/airfare-provider/internal/application/service/airfare_service.go:143-158 | a failed call stores nothing; after a successful one every spelling of the origin is answered from the cache, whatever reader and source say |
| Airfare.CacheIsTransparent | cmd/airfare-provider/internal/infrastructures/db/redis/airfare_cache.go:24-62 | after any calls and evictions, with any cache failures, every spelling of the origin gets exactly the uncached answer |
| Airfare.MatchDaySlotTakesTightestWindow | cmd/airfare-provider/internal/application/service/airfare_service.go:197-237 | with nested windows and an upstream that answers, strict fares are within soft-1 fares and those within soft-2 fares, the tightest non-empty level is chosen with all its prices, and the slot is empty if and only if soft-2 is |
| Airfare.ServedPricesAreOffered | cmd/airfare-provider/internal/infrastructures/travelpayouts/http/client/client.go:108-111 | every served slot is empty or lists exactly the prices that the upstream offers within the window it names |
| UpcomingIds.OverlapMeansCommonInstant | cmd/match-adapter/internal/infrastructures/premierliga/source.go:179-194 | the test holds if and only if both days are readable and some instant lies in both ranges, for well-ordered ranges |
| UpcomingIds.SelectTournamentsForRange | cmd/match-adapter/internal/infrastructures/premierliga/source.go:139-177 | the up-to-3 greatest positive ids that meet the range, or the up-to-2 greatest positive ids when none does, for any order of ties |
| UpcomingIds.OccurrencesMeaning | cmd/match-adapter/internal/infrastructures/premierliga/source.go:91-115 | the candidates are exactly the positive ids listed with a kickoff in range by a loaded tournament |
| UpcomingIds.FirstSeenMeaning | cmd/match-adapter/internal/infrastructures/premierliga/source.go:106-115 | deduplication keeps each id once, at its first occurrence |
| UpcomingIds.CandidatesAreInRange | cmd/match-adapter/internal/infrastructures/premierliga/source.go:93-104 | every candidate id is positive and first listed with a kickoff in [from, to] |
| UpcomingIds.CutOfSortIsEarliest | cmd/match-adapter/internal/infrastructures/premierliga/source.go:123-134 | sorting by kickoff in any order of ties and cutting gives at most limit distinct ids in kickoff order, and no id left out kicks off before one returned |
| UpcomingIds.CollectIds | cmd/match-adapter/internal/infrastructures/premierliga/source.go:80-136 | unavailable tournaments end the call, other failures are skipped unless nothing loaded, and otherwise the ids are the earliest ones |
| UpcomingIds.FetchUpcomingIDs | cmd/match-adapter/internal/infrastructures/premierliga/source.go:53-137 | the whole call, for every pattern of the two kinds of error and every order of ties |
| TokenIndex.TokenGlob | cmd/match-adapter/internal/infrastructures/db/redis/repository.go:51 | the glob for a token matches exactly the forward keys of that token |
| TokenIndex.MatchGlob | cmd/match-adapter/internal/infrastructures/db/redis/repository.go:71 | the glob for a match matches exactly the forward keys of that match |
| TokenIndex.TokenRepository.SaveRefreshToken | cmd/match-adapter/internal/infrastructures/db/redis/repository.go:25-40 | both keys are written with the time to live of the repository, the second one only if the first write reports success |
| TokenIndex.SaveAnswers | cmd/match-adapter/internal/infrastructures/db/redis/repository.go:25-40 | success is reported if and only if no write fails, and then both entries are there with their expiry; nothing else changes |
| TokenIndex.TokenRepository.GetMatchIDByRefreshToken | cmd/match-adapter/internal/infrastructures/db/redis/repository.go:42-66 | answer and store for some choice among the keys that the scan lists, for every failure of a read or of the rebuilding write |
| TokenIndex.TokenRepository.DeleteRefreshToken | cmd/match-adapter/internal/infrastructures/db/redis/repository.go:68-110 | the delete of one token, or of all tokens of the match when the token is empty, up to the command that reports an error |
| TokenIndex.DeleteAnswers | cmd/match-adapter/internal/infrastructures/db/redis/repository.go:91-110 | a delete reports missing if and only if the match does not hold the token, failed if and only if a command it needs fails, and otherwise both entries are gone; nothing else changes |
| TokenIndex.TokenRepository.DeleteAllTokens | cmd/match-adapter/internal/infrastructures/db/redis/repository.go:70-89 | the loop over the listed keys, in some order, removes each with its reverse key, up to the first key whose delete reports an error |
| TokenIndex.LookupAnswers | cmd/match-adapter/internal/infrastructures/db/redis/repository.go:42-66 | without a live reverse entry a lookup that can read succeeds if and only if a live forward entry exists, names one, and rebuilds the reverse entry; a malformed key is never met |
| TokenIndex.DeleteAllRemoves | cmd/match-adapter/internal/infrastructures/db/redis/repository.go:70-89 | without failures no forward entry of the match stays live, exactly the reverse entries of the tokens whose forward entry was live go with them, and nothing of another match is touched |
| TokenIndex.IndexAgrees | cmd/match-adapter/internal/infrastructures/db/redis/repository.go:25-110 | without expiry, with any failures: all along a run the forward keys are the saved and undeleted pairs and every reverse entry points at one, if and only if no delete removes a forward key and leaves the reverse key that names its match |
| TokenIndex.LookupFindsAHolder | cmd/match-adapter/internal/infrastructures/db/redis/repository.go:42-66 | after any such run a lookup that can read succeeds if and only if some match still holds the token, and names such a match |
| TokenExpiry.IndexIsDated | cmd/match-adapter/internal/infrastructures/db/redis/repository.go:25-66 | with expiry, with any failures, a forward entry ends one ttl after its save and a reverse entry less than two |
| TokenExpiry.AnswersAreRecent | cmd/match-adapter/internal/infrastructures/db/redis/repository.go:42-66 | a match named for a token was saved for it at most 2 ttl - 2 time units before, with any failures |
| TokenExpiry.RecencyBoundIsAttained | cmd/match-adapter/internal/infrastructures/db/redis/repository.go:42-66 | the bound is attained: a run without failures that answers 2 ttl - 2 after the only save, when the forward entry is gone |
| TokenExpiry.NeverNamedIffGone | cmd/match-adapter/internal/infrastructures/db/redis/repository.go:42-66 | in any state of the store, no later lookup of a token names a match before a new save if and only if neither a live forward nor a live reverse entry says so |
| TokenExpiry.DeletedForGood | cmd/match-adapter/internal/infrastructures/db/redis/repository.go:68-110 | after any run, an undisturbed delete of the token or of all tokens of the match keeps every later lookup from naming it before a new save, if and only if at the delete the forward entry is live or no live reverse entry names the match |
| TokenExpiry.DeleteCanComeTooLate | cmd/match-adapter/internal/infrastructures/db/redis/repository.go:68-110 | both deletes change nothing once the forward entry has expired, and the lookup goes on naming the match from the rebuilt reverse entry |
| Retry.PostOnceMeaning | cmd/match-adapter/internal/infrastructures/premierliga/http/client/client.go:162-203 | success and each of the six errors, if and only if the exchange is of the stated kind |
| Retry.NewClient | cmd/match-adapter/internal/infrastructures/premierliga/http/client/client.go:53-67 | a valid client, unchanged if and only if the arguments were valid |
| Retry.PostWithRetry | cmd/match-adapter/internal/infrastructures/premierliga/http/client/client.go:124-160 | at most maxAttempts calls, every one but the last temporarily unavailable; the outcome is what the last exchange explains, each error if and only if the exchange is of its kind, unless the context ended in the wait after it; the time spent waiting, a cut wait included, is at most base (2^(maxAttempts-1) - 1) |
| Retry.BackoffsAreExactIff | cmd/match-adapter/internal/infrastructures/premierliga/http/client/client.go:145 | all backoff products are exact if and only if base 2^(maxAttempts-2) < 2^63 |
| Retry.ExactTotalWaiting | cmd/match-adapter/internal/infrastructures/premierliga/http/client/client.go:131-153 | without overflow the waits add up to exactly base (2^attempts - 1) |
| Upcoming.QueryUpcoming | cmd/match-adapter/internal/infrastructures/db/postgres/repo/match_repo.go:114-172 | the first rows in kickoff order of the current rows of the club, ties in any order |
| Upcoming.RowsAreSelected | cmd/match-adapter/internal/infrastructures/db/postgres/repo/match_repo.go:131-132 | the selected rows are exactly those that kick off from now on and have the given club, if any, at home or away |
| Upcoming.ServeUpcoming | cmd/match-adapter/internal/transport/grpc/server.go:55-92 | server, service clamp and query composed: an error if and only if the club id is no positive int64 or the table cannot be queried, otherwise the first rows for the canonical id |
| Upcoming.ServerClubMeaning | cmd/match-adapter/internal/transport/grpc/server.go:64-71 | the server takes a blank club id for none and a positive int64 for its canonical numeral, and rejects the rest |
| Upcoming.GatewayClubMeaning | cmd/api-gateway/internal/api/http/handlers/query_params.go:9-29 | an absent parameter asks for no club, a text for the club whose number it writes, and any other text is rejected |
| Text.ParseMeaning | cmd/api-gateway/internal/api/http/handlers/query_params.go:18-28 | a text is read as n if and only if it writes the numeral of n, with leading zeros and one plus sign allowed, and n is positive and below the bound |
| Upcoming.GatewayLimitMeaning | cmd/api-gateway/internal/api/http/handlers/match_handler.go:137-151 | a blank limit asks for 12, or for 100 with a club; a positive int32 asks for itself, at most 100; any other text is rejected |
| Upcoming.FilterMatchesByClubId | cmd/api-gateway/internal/api/http/handlers/club_filter.go:9-29 | keeps exactly the matches of the trimmed club id, in order |
| Upcoming.PlayingMeaning | cmd/api-gateway/internal/api/http/handlers/club_filter.go:15-28 | the filter keeps exactly the matches whose trimmed home or away club is the given one |
| Upcoming.PlayingKeepsAll | cmd/api-gateway/internal/api/http/handlers/club_filter.go:15-28 | filtering changes nothing if and only if every match is one of the club's |
| Upcoming.GetUpcomingMatches | cmd/api-gateway/internal/api/http/handlers/match_handler.go:125-186 | in terms of the two parameters alone: over-fetching, filtering again and cutting yield exactly the first rows of the sorted club-filtered list, as many as the limit asks for or as there are; which parameter error or adapter error is answered otherwise |
| Upcoming.FirstRowsAreEarliest | cmd/match-adapter/internal/infrastructures/db/postgres/repo/match_repo.go:131-134 | the listed rows are current rows of the club in kickoff order, and nothing left out kicks off before something listed |

## Supporting members

These follow at once from a definition, state one field update, or are steps of the results above.

- `Fanout.SendsNeverBlock` (catalog_handler.go:155-200): a sender always finds the channel open and with room.
- `Fanout.NoPanic` (catalog_handler.go:167-207): no send on or close of a closed channel, no negative WaitGroup, no write outside the items.
- `Fanout.SentBound` (catalog_handler.go:155-200): at most n sends, and n of them exactly when every match has been answered.
- `BestFare.CheapestIsFirstMinimum` (catalog_handler.go:250-257): ties go to the earliest offer.
- `BestFare.OffersAreThePrices` (catalog_handler.go:250-251): an offer is considered exactly when its slot is given and lists its price.
- `BestFare.DirectionMinimum` (catalog_handler.go:259-272): the outbound (return) price is present if and only if some outbound (return) slot has a price, is attained and is a lower bound.
- `Matches.Enrich` (match_service.go:242-266): a success changes nothing but destination and city, and the city only if it was blank.
- `Matches.DestinationIsKnown` (match_service.go:79-83): a destination ends up empty if and only if the city table itself yields an empty code.
- `MatchService.MatchService.CachePut` (match_cache.go:41-60): a no-op without a cache or for ttl <= 0; otherwise one entry is replaced if the write succeeds.
- `MatchService.MatchService.TablePut` (match_repo.go:209-254): exactly one row is inserted or replaced if the upsert takes effect, whatever it reports.
- `MatchService.SyncRangeIsProper` (match_service.go:126-134): the period asked for is never empty, and the requested one if and only if that was complete and not empty.
- `MatchService.SyncKeeps` (match_service.go:157-212): a sync whose cache writes take effect and whose failed upserts do not keeps every live entry equal to its row.
- `MatchStore.StepJustified` (match_service.go:41-97): one access of any call, whatever it answers, keeps every cached, carried or returned value traceable to a stored row.
- `MatchStore.ReliableIsOrderlyUnlessOpposed` (match_service.go:196-209): with accesses that report what they do and no lost cache write, a step is orderly if and only if it writes no row that another call is about to cache otherwise.
- `FareSource.IncreasingIsUnique` (results_mappers.go:28-29): a strictly increasing list is determined by its elements, so the order of ties in the sort cannot be seen.
- `Windows.NormalizedIsProper` (airfare_service.go:80-114): normalizing yields proper windows, changes a policy if and only if it is improper, and is idempotent.
- `Windows.NormalizedMeaning` (airfare_service.go:80-114): each negative bound becomes the default of its place, and the bounds of an outbound window are put in order.
- `Windows.DefaultPolicyIsNested` (airfare_service.go:44-56): the default windows are proper and each softer one contains the stricter one.
- `Airfare.AirfareService.constructor` (airfare_service.go:58-78): the service holds the normalized policy.
- `Airfare.SlotsSurroundTheMatch` (airfare_service.go:257-268): six slots on whole days: three outbound days ending with the day of the match, three return days beginning with it.
- `Airfare.SlotsAreWhatTheirKindsSay` (airfare_service.go:257-268): the day and the direction of every slot are those that its kind names.
- `Airfare.CallsAreBounded` (airfare_service.go:195-206): between one and three calls per match-day slot and one for each other slot; all of them fail if and only if every try would.
- `Text.NormalizeIdempotent` (airfare_service.go:168-169): normalizing a code twice changes nothing, and only a blank one becomes empty.
- `Text.TrimMeaning` (airfare_service.go:168-169): trimming cuts all white space off both ends and nothing else.
- `Text.UpperMeaning` (airfare_service.go:168-169): upper-casing maps the small latin letters to the capitals and keeps everything else.
- `Airfare.ComputeIgnoresSpelling` (airfare_service.go:168-170): the computation sees the origin only through its trimmed upper-case form.
- `Airfare.TriesShareTheirQuery` (client.go:114-132): all tries of a slot send the same upstream query: the route in the direction of the slot, on its day.
- `UpcomingIds.ScanStage` (source.go:92-115): one stage extends the deduplicated candidates and their set of ids alike.
- `TokenIndex.ForwardInjective` (repository.go:31): clean ids and tokens give distinct forward keys, and no forward key is a reverse key.
- `TokenIndex.LatestSaveAnswers` (repository.go:25-46): a lookup before expiry answers with the latest save of the token.
- `Retry.WaitingIsBounded` (client.go:145-152): the waits add up to at most base (2^attempts - 1), overflow or not.
- `Retry.RequestWaitingIsBounded` (client.go:131-153): completed waits never exceed base (2^(maxAttempts-1) - 1) in all.
- `Matches.NormalizeUpcomingLimit` (match_service.go:228-236): the result lies in 1..500 and is the request if and only if that does.
- `Upcoming.CanonicalIsKept` (server.go:64-71): a canonical club id passes every later stage unchanged.
- `Text.DecimalRoundTrip` (query_params.go:23-28): reading a written positive numeral back gives its number.
- `Upcoming.CutMatchesByLimit` (club_filter.go:31-39): a prefix, of the length of the limit where that is positive and exceeded.
- `Upcoming.CutOfFirstRows` (match_handler.go:156-176): cutting an over-fetched list gives the list that a query for the limit gives.
- `Upcoming.SecondFilterDropsNothing` (match_handler.go:176): the gateway's own filter drops nothing that the query selected.

## Left out

- The gRPC, HTTP and SQL shells: routing, status codes, protobuf types, interceptors, logging, tracing, configuration and start-up.
- JSON encoding and the probing of payload shapes: a cached or stored value is read back as it was written; requests always marshal.
- Parsing of dates and times, and time zones: parsed instants are inputs. The list parser reads zone-less kickoffs as UTC (`premierliga/source.go:203-219`) and the match mapper as Moscow time, so nothing is claimed about the stored kickoffs of the ids that were listed.
- Postgres and Redis internals: the table is a map from id to row, Redis a map with expiry, `KEYS` lists the matching live keys in any order.
- `sort.Slice` in place: `Sorting.SortSlice` returns a new sequence, and its contract leaves the order of ties open. `SelectTournamentsForRange` does not show that the caller's slice is reordered.
- Match ids as text: an id is the integer of its canonical numeral, so ids that do not parse are not modelled.
- Case mapping beyond the latin letters.
- Panics inside workers and cancellation of the request during the fan-out: every remote call returns a value or an error. Whether a match's destination equals the origin is an input of the fan-out, and its error entries carry the index of the item rather than the match id.
- Airfare.AirfareService.GetAirfareByMatch: the answer of the source is given for every slot and try in advance, so the model does not show when a call happens; entries expire between calls only.
- MatchService.MatchService.SyncUpcomingMatches: the read of the existing row, which only feeds the log, is not modelled; the failures that the service logs are returned as a second number.
- MatchStore: one access is atomic, an upsert or a cache write takes effect at one instant or not at all.
- TokenIndex: each repository call takes place at one instant, and a stored value is the match id alone.
- TokenExpiry.AnswersAreRecent: ids and tokens are free of ':' and glob characters, and other repositories use keys with other prefixes.
- TokenExpiry.NeverNamedIffGone: the empty token is left out, because a delete for it means all tokens of the match.
- FareSource.CheckTimeConstraints: the product of a flight's duration in minutes with a minute does not overflow.
- Retry.PostWithRetry: whether and when the context ends during a wait is an input per wait.
- Upcoming.FilterMatchesByClubId: nil list entries, which the server never sends, are not modelled.
- The blacklist, club lists, `GetMatches` with its list of ids, `GetPricesForRules` with its stub data and the enum mappings, which would only add easy members; the catalogue handler's own limit code, which repeats that of `Upcoming`.
