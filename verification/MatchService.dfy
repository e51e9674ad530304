// The match service (match_service.go) as one caller at a time sees it: a cache in front
// of a table of rows in front of an external source.
module MatchService {
  import opened Common
  import opened Matches

  // --- The stores, and how every outside answer is given ---

  // log holds every row the table was given, in order.
  datatype Stores = Stores(rows: map<MatchId, Match>, cache: map<MatchId, Match>, log: seq<Match>)

  // The outside world during the handling of one match: whether the cache and the table can
  // be read, what the source and the city table answer, what the upsert reports and whether
  // it took effect although it reported an error, and whether the cache write takes effect.
  datatype World = World(
    cacheReadable: bool,
    tableReadable: bool,
    fetched: Result<Match, Error>,
    resolved: Resolution,
    upsert: Option<Error>,
    committed: bool,
    cacheWritable: bool)

  predicate Lands(w: World) {
    w.upsert.None? || w.committed
  }

  // The match as it would be stored.
  function Prepared(w: World): Result<Match, Error> {
    if w.fetched.Err? then w.fetched else WithDestination(w.fetched.value, w.resolved)
  }

  // MatchCache.Set: a no-op for ttl <= 0, otherwise a write that may fail.
  function CacheSet(s: Stores, c: Config, m: Match, writable: bool): Stores {
    if Caches(c) && writable then s.(cache := s.cache[m.id := m]) else s
  }

  function Upsert(s: Stores, m: Match): Stores {
    s.(rows := s.rows[m.id := m], log := s.log + [m])
  }

  // Storing a prepared match, and then caching it if the upsert reports success.
  function Keep(s: Stores, c: Config, m: Match, w: World): Stores {
    var stored := if Lands(w) then Upsert(s, m) else s;
    if w.upsert.None? then CacheSet(stored, c, m, w.cacheWritable) else stored
  }

  // GetMatch on values.
  function Lookup(s: Stores, c: Config, id: MatchId, w: World): (Stores, Result<Match, Error>) {
    if c.hasCache && w.cacheReadable && id in s.cache then
      (s, Ok(s.cache[id]))
    else if !w.tableReadable then
      (s, Err(Other))
    else if id in s.rows then
      (CacheSet(s, c, s.rows[id], w.cacheWritable), Ok(s.rows[id]))
    else
      var m := Prepared(w);
      if m.Err? then (s, m)
      else (Keep(s, c, m.value, w), if w.upsert.Some? then Err(w.upsert.value) else m)
  }

  // What happened to one id during a sync.
  datatype Fate = Saved | Skipped | Stopped(error: Error)

  // Why an id was not saved.
  function Problem(w: World): Option<Error> {
    if Prepared(w).Err? then Some(Prepared(w).error) else w.upsert
  }

  predicate Stops(w: World) {
    Problem(w).Some? && IsContextErr(Problem(w).value)
  }

  function SyncOne(s: Stores, c: Config, w: World): (Stores, Fate) {
    (if Prepared(w).Ok? then Keep(s, c, Prepared(w).value, w) else s,
     if Problem(w).None? then Saved else if Stops(w) then Stopped(Problem(w).value) else Skipped)
  }

  datatype Tally = Tally(stores: Stores, saved: nat, failed: nat, stopped: Option<Error>)

  // The sync loop: worlds[k] is the world during the handling of ids[k].
  function SyncAll(t: Tally, c: Config, worlds: seq<World>): Tally
    decreases |worlds|
  {
    if worlds == [] || t.stopped.Some? then t
    else
      var (s, fate) := SyncOne(t.stores, c, worlds[0]);
      match fate
      case Saved => SyncAll(t.(stores := s, saved := t.saved + 1), c, worlds[1..])
      case Skipped => SyncAll(t.(stores := s, failed := t.failed + 1), c, worlds[1..])
      case Stopped(e) => t.(stores := s, stopped := Some(e))
  }

  function Worlds(n: nat, world: nat -> World): (worlds: seq<World>)
    ensures |worlds| == n
    ensures forall k :: 0 <= k < n ==> worlds[k] == world(k)
  {
    seq(n, k requires 0 <= k < n => world(k))
  }

  const NOTHING_SYNCED := Other

  // The period that a sync asks the source for.
  function SyncRange(from: int, to: int, now: int): (int, int) {
    var start := if from == 0 then now else from;
    (start, if to == 0 || to <= start then start + 90 * DAY else to)
  }

  // The period is never empty, and it is the requested one exactly when that was complete
  // and not empty. No instant precedes the zero time.
  lemma SyncRangeIsProper(from: int, to: int, now: int)
    requires now > 0 && from >= 0
    ensures var (start, end) := SyncRange(from, to, now);
            && start < end && ((start, end) == (from, to) <==> 0 < from < to)
            && (start == from || (from == 0 && start == now))
            && (end == to || (to <= start && end - start == 90 * 24 * HOUR))
  {
  }

  // --- The service ---

  class MatchService {
    const config: Config
    var rows: map<MatchId, Match>
    var cache: map<MatchId, Match>
    ghost var log: seq<Match>

    constructor (config: Config, rows: map<MatchId, Match>)
      ensures this.config == config && Contents() == Stores(rows, map[], [])
    {
      this.config := config;
      this.rows, this.cache, this.log := rows, map[], [];
    }

    ghost function Contents(): Stores
      reads this
    {
      Stores(rows, cache, log)
    }

    method CachePut(m: Match, writable: bool)
      modifies this
      ensures Contents() == CacheSet(old(Contents()), config, m, writable)
    {
      if config.hasCache {
        if config.ttl <= 0 {
          return;
        }
        if writable {
          cache := cache[m.id := m];
        }
      }
    }

    method TablePut(m: Match, w: World) returns (err: Option<Error>)
      modifies this
      ensures Contents() == if Lands(w) then Upsert(old(Contents()), m) else old(Contents())
      ensures err == w.upsert
    {
      if Lands(w) {
        rows := rows[m.id := m];
        log := log + [m];
      }
      return w.upsert;
    }

    method GetMatch(id: MatchId, w: World) returns (r: Result<Match, Error>)
      modifies this
      ensures (Contents(), r) == Lookup(old(Contents()), config, id, w)
    {
      if config.hasCache && w.cacheReadable {
        if id in cache {
          return Ok(cache[id]);
        }
      }

      if !w.tableReadable {
        return Err(Other);
      }
      if id in rows {
        var row := rows[id];
        CachePut(row, w.cacheWritable);
        return Ok(row);
      }

      if w.fetched.Err? {
        return Err(w.fetched.error);
      }
      var m := w.fetched.value;

      if m.destinationIata == "" {
        var enriched := Enrich(m, w.resolved);
        if enriched.Err? {
          return Err(enriched.error);
        }
        m := enriched.value;
      }

      var failure := TablePut(m, w);
      if failure.Some? {
        return Err(failure.value);
      }
      CachePut(m, w.cacheWritable);
      return Ok(m);
    }

    // The body of the sync loop: one listed id.
    method SyncMatch(w: World) returns (fate: Fate)
      modifies this
      ensures (Contents(), fate) == SyncOne(old(Contents()), config, w)
    {
      if w.fetched.Err? {
        if IsContextErr(w.fetched.error) {
          return Stopped(w.fetched.error);
        }
        return Skipped;
      }
      var m := w.fetched.value;

      if m.destinationIata == "" {
        var enriched := Enrich(m, w.resolved);
        if enriched.Err? {
          if IsContextErr(enriched.error) {
            return Stopped(enriched.error);
          }
          return Skipped;
        }
        m := enriched.value;
      }

      var failure := TablePut(m, w);
      if failure.Some? {
        if IsContextErr(failure.value) {
          return Stopped(failure.value);
        }
        return Skipped;
      }
      CachePut(m, w.cacheWritable);
      return Saved;
    }

    // list answers for a period and a limit; world(k) is the outside world during the handling
    // of the k-th listed id. Besides the count, the number of failures that the service
    // writes to its log is returned.
    method SyncUpcomingMatches(from: int, to: int, limit: int, now: int,
                               list: (int, int, int) -> Result<seq<MatchId>, Error>, world: nat -> World)
      returns (saved: nat, failed: nat, err: Option<Error>)
      modifies this
      ensures var (from', to') := SyncRange(from, to, now);
              match list(from', to', NormalizeUpcomingLimit(limit))
              case Err(e) => Contents() == old(Contents()) && saved == failed == 0 && err == Some(e)
              case Ok(ids) =>
                var t := SyncAll(Tally(old(Contents()), 0, 0, None), config, Worlds(|ids|, world));
                && Contents() == t.stores && saved == t.saved && failed == t.failed
                && err == if t.stopped.Some? then t.stopped
                          else if saved == 0 && ids != [] then Some(NOTHING_SYNCED)
                          else None
    {
      saved, failed, err := 0, 0, None;
      var start, end := from, to;
      if start == 0 {
        start := now;
      }
      if end == 0 || end <= start {
        end := start + 90 * DAY;
      }
      var listed := list(start, end, NormalizeUpcomingLimit(limit));
      if listed.Err? {
        return 0, 0, Some(listed.error);
      }
      var ids := listed.value;
      if |ids| == 0 {
        return 0, 0, None;
      }

      ghost var worlds := Worlds(|ids|, world);
      for k := 0 to |ids|
        invariant SyncAll(Tally(old(Contents()), 0, 0, None), config, worlds) ==
                  SyncAll(Tally(Contents(), saved, failed, None), config, worlds[k..])
      {
        assert worlds[k..][0] == world(k) && worlds[k..][1..] == worlds[k + 1..];
        var fate := SyncMatch(world(k));
        match fate {
          case Saved => saved := saved + 1;
          case Skipped => failed := failed + 1;
          case Stopped(e) => return saved, failed, Some(e);
        }
      }

      if saved == 0 && |ids| > 0 {
        return 0, failed, Some(NOTHING_SYNCED);
      }
    }
  }

  // --- What a sync conserves ---

  // How many ids are looked at: all of them, or those up to the first context error.
  function Reached(worlds: seq<World>): (n: nat)
    ensures n <= |worlds|
  {
    if worlds == [] then 0 else if Stops(worlds[0]) then 1 else 1 + Reached(worlds[1..])
  }

  // The row was written although the upsert reported an error.
  predicate Unreported(w: World) {
    Prepared(w).Ok? && w.upsert.Some? && w.committed
  }

  // Every id that is reached is accounted for. The count never exceeds the number of rows
  // written, and equals it exactly when no upsert took effect while reporting an error.
  lemma {:induction false} SyncConserves(t: Tally, c: Config, worlds: seq<World>)
    requires t.stopped.None?
    ensures var t' := SyncAll(t, c, worlds);
            var saved, failed, written := t'.saved - t.saved, t'.failed - t.failed, |t'.stores.log| - |t.stores.log|;
            && saved + failed + (if t'.stopped.Some? then 1 else 0) == Reached(worlds)
            && (t'.stopped.None? ==> Reached(worlds) == |worlds|)
            && (t'.stopped.Some? ==> IsContextErr(t'.stopped.value))
            && 0 <= saved <= written
            && (saved == written <==> forall k :: 0 <= k < Reached(worlds) ==> !Unreported(worlds[k]))
    decreases |worlds|
  {
    if worlds != [] {
      var (s, fate) := SyncOne(t.stores, c, worlds[0]);
      var rest := worlds[1..];
      assert forall k :: 1 <= k < |worlds| ==> worlds[k] == rest[k - 1];
      match fate {
        case Saved => SyncConserves(t.(stores := s, saved := t.saved + 1), c, rest);
        case Skipped => SyncConserves(t.(stores := s, failed := t.failed + 1), c, rest);
        case Stopped(_) =>
      }
    }
  }

  // The rows written, in the order of the ids, up to the first context error: the prepared
  // matches whose upsert took effect.
  function RowsToWrite(worlds: seq<World>): seq<Match> {
    if worlds == [] then []
    else
      var w := worlds[0];
      var mine := if Prepared(w).Ok? && Lands(w) then [Prepared(w).value] else [];
      if Stops(w) then mine else mine + RowsToWrite(worlds[1..])
  }

  lemma {:induction false} SyncWritesTheRows(t: Tally, c: Config, worlds: seq<World>)
    requires t.stopped.None?
    ensures SyncAll(t, c, worlds).stores.log == t.stores.log + RowsToWrite(worlds)
    decreases |worlds|
  {
    if worlds != [] {
      var (s, fate) := SyncOne(t.stores, c, worlds[0]);
      match fate {
        case Saved => SyncWritesTheRows(t.(stores := s, saved := t.saved + 1), c, worlds[1..]);
        case Skipped => SyncWritesTheRows(t.(stores := s, failed := t.failed + 1), c, worlds[1..]);
        case Stopped(_) =>
      }
    }
  }

  // The table after a list of rows has been written to it in order.
  function Overlay(rows: map<MatchId, Match>, written: seq<Match>): map<MatchId, Match>
    decreases |written|
  {
    if written == [] then rows else Overlay(rows[written[0].id := written[0]], written[1..])
  }

  // A sync leaves the last written row of each id, and every other row as it was.
  lemma {:induction false} SyncLeavesLastWritten(t: Tally, c: Config, worlds: seq<World>)
    requires t.stopped.None?
    ensures SyncAll(t, c, worlds).stores.rows == Overlay(t.stores.rows, RowsToWrite(worlds))
    decreases |worlds|
  {
    if worlds != [] {
      var (s, fate) := SyncOne(t.stores, c, worlds[0]);
      if Prepared(worlds[0]).Ok? && Lands(worlds[0]) && !Stops(worlds[0]) {
        var m := Prepared(worlds[0]).value;
        assert ([m] + RowsToWrite(worlds[1..]))[1..] == RowsToWrite(worlds[1..]);
      } else {
        assert [] + RowsToWrite(worlds[1..]) == RowsToWrite(worlds[1..]);
      }
      match fate {
        case Saved => SyncLeavesLastWritten(t.(stores := s, saved := t.saved + 1), c, worlds[1..]);
        case Skipped => SyncLeavesLastWritten(t.(stores := s, failed := t.failed + 1), c, worlds[1..]);
        case Stopped(_) =>
      }
    }
  }

  // A sync with a working cache leaves an entry for every match that it saved.
  lemma {:induction false} SyncCachesWhatItSaves(t: Tally, c: Config, worlds: seq<World>)
    requires t.stopped.None? && Caches(c)
    ensures var s' := SyncAll(t, c, worlds).stores;
            && (forall id :: id in t.stores.cache ==> id in s'.cache)
            && (forall k :: 0 <= k < Reached(worlds) && Problem(worlds[k]).None? && worlds[k].cacheWritable ==>
                  Prepared(worlds[k]).Ok? && Prepared(worlds[k]).value.id in s'.cache)
    decreases |worlds|
  {
    if worlds != [] {
      var (s, fate) := SyncOne(t.stores, c, worlds[0]);
      var rest := worlds[1..];
      assert forall k :: 1 <= k < |worlds| ==> worlds[k] == rest[k - 1];
      match fate {
        case Saved => SyncCachesWhatItSaves(t.(stores := s, saved := t.saved + 1), c, rest);
        case Skipped => SyncCachesWhatItSaves(t.(stores := s, failed := t.failed + 1), c, rest);
        case Stopped(_) =>
      }
    }
  }

  // What a lookup answers: a live entry, else the row, else the source's match with its
  // destination, of which nothing but destination and city may differ from what was fetched.
  lemma LookupMeaning(s: Stores, c: Config, id: MatchId, w: World)
    ensures var (s', r) := Lookup(s, c, id, w);
            if c.hasCache && w.cacheReadable && id in s.cache then r == Ok(s.cache[id]) && s' == s
            else if !w.tableReadable then r.Err? && s' == s
            else if id in s.rows then
              && r == Ok(s.rows[id]) && s'.rows == s.rows && s'.log == s.log
              && s'.cache == if c.hasCache && c.ttl > 0 && w.cacheWritable then s.cache[s.rows[id].id := s.rows[id]] else s.cache
            else
              && (r.Ok? ==> w.fetched.Ok? && w.upsert.None?)
              && (w.fetched.Ok? && w.fetched.value.destinationIata != "" && w.upsert.None? ==> r == w.fetched)
              && (r.Ok? ==> r.value == w.fetched.value.(destinationIata := r.value.destinationIata, city := r.value.city))
              && (w.fetched.Err? ==> r == w.fetched)
              && (w.fetched.Ok? && w.fetched.value.destinationIata == "" && Enrich(w.fetched.value, w.resolved).Err? ==>
                    r == Enrich(w.fetched.value, w.resolved))
              && (w.fetched.Ok? && w.fetched.value.destinationIata == "" && Enrich(w.fetched.value, w.resolved).Ok? ==>
                    r == if w.upsert.Some? then Err(w.upsert.value) else Enrich(w.fetched.value, w.resolved))
  {
  }

  // --- Runs of non-interleaved calls ---

  // One call of the service, or the expiry of a cache entry between calls.
  datatype Call =
    | Get(id: MatchId, w: World)
    | Sync(worlds: seq<World>)
    | Expire(id: MatchId)

  function After(s: Stores, c: Config, call: Call): Stores {
    match call
    case Get(id, w) => Lookup(s, c, id, w).0
    case Sync(worlds) => SyncAll(Tally(s, 0, 0, None), c, worlds).stores
    case Expire(id) => s.(cache := s.cache - {id})
  }

  function AfterAll(s: Stores, c: Config, calls: seq<Call>): Stores {
    if calls == [] then s
    else After(AfterAll(s, c, calls[..|calls| - 1]), c, calls[|calls| - 1])
  }

  // Every live cache entry is the current row of its id.
  ghost predicate Coherent(s: Stores) {
    forall id :: id in s.cache ==> id in s.rows && s.cache[id] == s.rows[id]
  }

  ghost predicate Keyed(s: Stores) {
    forall id :: id in s.rows ==> s.rows[id].id == id
  }

  ghost predicate Reliable(call: Call) {
    match call
    case Get(_, w) => Dependable(w)
    case Sync(worlds) => forall k :: 0 <= k < |worlds| ==> Dependable(worlds[k])
    case Expire(_) => true
  }

  // Cache writes take effect, and a failed upsert does not.
  ghost predicate Dependable(w: World) {
    w.cacheWritable && (w.upsert.Some? ==> !w.committed)
  }

  // Storing a match keeps a coherent cache coherent exactly when the row is not written at
  // all, or there was no live entry to go stale, or the row did not change, or the upsert
  // reports success and the entry is really written.
  lemma WriteKeepsCoherence(s: Stores, c: Config, m: Match, w: World)
    requires Coherent(s) && (Caches(c) || s.cache == map[])
    ensures Coherent(Keep(s, c, m, w)) <==>
            !Lands(w) || m.id !in s.cache || s.cache[m.id] == m || (w.upsert.None? && w.cacheWritable)
  {
    if m.id in s.cache && !(w.upsert.None? && w.cacheWritable) {
      assert m.id in Keep(s, c, m, w).cache;
    }
  }

  // An upsert that takes effect while reporting an error is not counted, and leaves the old
  // row cached, although the call runs alone and no cache write fails.
  lemma UnreportedUpsertLeavesStaleEntry(older: Match, newer: Match, c: Config, e: Error)
    requires older.id == newer.id && older != newer && newer.destinationIata != "" && Caches(c)
    ensures var s := Stores(map[older.id := older], map[older.id := older], []);
            var w := World(true, true, Ok(newer), Err(Other), Some(e), true, true);
            var t := SyncAll(Tally(s, 0, 0, None), c, [w]);
            && Coherent(s) && !Coherent(t.stores)
            && t.saved == 0 && t.stores.log == [newer] && t.stores.cache == s.cache
  {
    var s := Stores(map[older.id := older], map[older.id := older], []);
    var w := World(true, true, Ok(newer), Err(Other), Some(e), true, true);
    var after := SyncOne(s, c, w).0;
    assert after.rows[older.id] == newer && older.id in after.cache;
    assert [w][1..] == [];
  }

  lemma SyncOneKeeps(s: Stores, c: Config, w: World)
    requires Coherent(s) && Keyed(s) && Dependable(w) && (Caches(c) || s.cache == map[])
    ensures var s' := SyncOne(s, c, w).0;
            Coherent(s') && Keyed(s') && (Caches(c) || s'.cache == map[])
  {
  }

  lemma {:induction false} SyncKeeps(t: Tally, c: Config, worlds: seq<World>)
    requires t.stopped.None? && Coherent(t.stores) && Keyed(t.stores)
    requires Caches(c) || t.stores.cache == map[]
    requires forall k :: 0 <= k < |worlds| ==> Dependable(worlds[k])
    ensures var s' := SyncAll(t, c, worlds).stores;
            Coherent(s') && Keyed(s') && (Caches(c) || s'.cache == map[])
    decreases |worlds|
  {
    if worlds != [] {
      var (s, fate) := SyncOne(t.stores, c, worlds[0]);
      SyncOneKeeps(t.stores, c, worlds[0]);
      match fate {
        case Saved => SyncKeeps(t.(stores := s, saved := t.saved + 1), c, worlds[1..]);
        case Skipped => SyncKeeps(t.(stores := s, failed := t.failed + 1), c, worlds[1..]);
        case Stopped(_) =>
      }
    }
  }

  // Over any sequence of non-interleaved calls and expiries, from any coherent start, in which
  // cache writes take effect and failed upserts do not, every live entry equals the current
  // row; with ttl <= 0 an empty cache stays empty.
  lemma {:induction false} SerialCallsStayCoherent(s: Stores, c: Config, calls: seq<Call>)
    requires Coherent(s) && Keyed(s) && (Caches(c) || s.cache == map[])
    requires forall k :: 0 <= k < |calls| ==> Reliable(calls[k])
    ensures var s' := AfterAll(s, c, calls);
            Coherent(s') && Keyed(s') && (Caches(c) || s'.cache == map[])
  {
    if calls != [] {
      var n := |calls| - 1;
      SerialCallsStayCoherent(s, c, calls[..n]);
      var before := AfterAll(s, c, calls[..n]);
      assert Reliable(calls[n]);
      match calls[n] {
        case Get(id, w) =>
        case Sync(worlds) => SyncKeeps(Tally(before, 0, 0, None), c, worlds);
        case Expire(id) =>
      }
    }
  }

  // On a coherent cache a reader cannot tell that there is one, as long as the table can be read.
  lemma CoherentCacheIsInvisible(s: Stores, c: Config, id: MatchId, w: World)
    requires Coherent(s) && w.tableReadable
    ensures Lookup(s, c, id, w).1 == Lookup(s, c.(hasCache := false), id, w).1
    ensures Lookup(s, c, id, w).0.rows == Lookup(s, c.(hasCache := false), id, w).0.rows
  {
  }

  // A failed lookup leaves no trace, unless its upsert took effect. A successful one leaves its answer as the stored row and
  // touches no other row; if the cache could be written it goes on answering the same,
  // whatever becomes of table and source.
  lemma LookupRemembers(s: Stores, c: Config, id: MatchId, w: World, later: World)
    requires Coherent(s) && Keyed(s)
    ensures var (s', r) := Lookup(s, c, id, w);
            && (r.Err? ==> s' == if id !in s.rows && Unreported(w) && w.tableReadable && !(c.hasCache && w.cacheReadable && id in s.cache)
                                 then Upsert(s, Prepared(w).value) else s)
            && (r.Ok? ==> r.value.id in s'.rows && s'.rows[r.value.id] == r.value)
            && (r.Ok? ==> forall k :: k != r.value.id ==> (k in s'.rows <==> k in s.rows) &&
                                                           (k in s.rows ==> s'.rows[k] == s.rows[k]))
            && (r.Ok? && r.value.id == id && Caches(c) && w.cacheWritable && later.cacheReadable ==>
                  Lookup(s', c, id, later) == (s', r))
  {
  }

  // --- Destinations of stored rows ---

  ghost predicate ResolverNeverBlank(call: Call) {
    match call
    case Get(_, w) => NeverBlank(w.resolved)
    case Sync(worlds) => forall k :: 0 <= k < |worlds| ==> NeverBlank(worlds[k].resolved)
    case Expire(_) => true
  }

  ghost predicate AllDestinations(rows: seq<Match>) {
    forall k :: 0 <= k < |rows| ==> rows[k].destinationIata != ""
  }

  lemma {:induction false} RowsHaveDestinations(worlds: seq<World>)
    requires forall k :: 0 <= k < |worlds| ==> NeverBlank(worlds[k].resolved)
    ensures AllDestinations(RowsToWrite(worlds))
  {
    if worlds != [] {
      RowsHaveDestinations(worlds[1..]);
      assert NeverBlank(worlds[0].resolved);
      if worlds[0].fetched.Ok? {
        DestinationIsKnown(worlds[0].fetched.value, worlds[0].resolved);
      }
    }
  }

  // If the resolver never yields an empty code, every row ever written has a destination.
  lemma {:induction false} WrittenRowsHaveDestinations(s: Stores, c: Config, calls: seq<Call>)
    requires s.log == []
    requires forall k :: 0 <= k < |calls| ==> ResolverNeverBlank(calls[k])
    ensures AllDestinations(AfterAll(s, c, calls).log)
  {
    if calls != [] {
      var n := |calls| - 1;
      WrittenRowsHaveDestinations(s, c, calls[..n]);
      var before := AfterAll(s, c, calls[..n]);
      assert ResolverNeverBlank(calls[n]);
      match calls[n] {
        case Get(id, w) =>
          if w.fetched.Ok? {
            DestinationIsKnown(w.fetched.value, w.resolved);
          }
        case Sync(worlds) =>
          SyncWritesTheRows(Tally(before, 0, 0, None), c, worlds);
          RowsHaveDestinations(worlds);
        case Expire(id) =>
      }
    }
  }
}
