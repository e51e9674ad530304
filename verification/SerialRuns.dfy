// The two models of the match service agree: a call that runs alone through the steps of
// MatchStore does what MatchService says it does as a whole.
module SerialRuns {
  import opened Common
  import opened Matches
  import opened MatchStore
  import Service = MatchService

  // How a fixed outside world answers the next access.
  function AnswerOf(at: At, w: Service.World): Answer {
    match at
    case ReadCache => Read(w.cacheReadable)
    case ReadRow => Read(w.tableReadable)
    case Fetch => Fetched(w.fetched)
    case Resolve(_) => Resolved(w.resolved)
    case Store(_) => Wrote(Service.Lands(w), w.upsert)
    case PutCache(_) => Wrote(w.cacheWritable, None)
    case _ => Read(false)
  }

  // How many more accesses a match can take.
  function Left(at: At): nat {
    match at
    case ReadCache => 6
    case ReadRow => 5
    case Fetch => 4
    case Resolve(_) => 3
    case Store(_) => 2
    case PutCache(_) => 1
    case _ => 0
  }

  // Process p takes enabled steps, and nobody else does, until its current match is done with.
  function Alone(c: Config, s: State, p: nat, w: Service.World): State
    requires p < |s.procs|
    decreases Left(s.procs[p].at)
  {
    var act := Act(p, AnswerOf(s.procs[p].at, w));
    if Left(s.procs[p].at) == 0 || !Enabled(s, act) then s
    else
      var s' := Apply(c, s, act);
      if s'.procs[p].job != s.procs[p].job then s' else Alone(c, s', p, w)
  }

  predicate Handling(s: State, p: nat, at: At) {
    p < |s.procs| && s.procs[p].at == at && (s.procs[p].job.Sync? ==> s.procs[p].job.ids != [])
  }

  // What is left when a match has been stored, or could not be.
  function Handled(c: Config, s: State, p: nat, m: Result<Match, Error>, w: Service.World): State
    requires p < |s.procs| && (s.procs[p].job.Sync? ==> s.procs[p].job.ids != [])
  {
    var job := s.procs[p].job;
    if m.Err? then s.(procs := s.procs[p := GiveUp(job, m.error)])
    else
      var kept := Service.Keep(Service.Stores(s.rows, s.cache, []), c, m.value, w);
      State(kept.rows, kept.cache,
            s.procs[p := if w.upsert.Some? then GiveUp(job, w.upsert.value) else Settled(job, m.value)])
  }

  function Settled(job: Job, m: Match): Process
    requires job.Sync? ==> job.ids != []
  {
    if job.Get? then Process(job, Returned(m)) else SkipTo(job.ids)
  }

  lemma PutAlone(c: Config, s: State, p: nat, m: Match, w: Service.World)
    requires Handling(s, p, PutCache(m))
    ensures Alone(c, s, p, w) ==
            State(s.rows,
                  Service.CacheSet(Service.Stores(s.rows, s.cache, []), c, m, w.cacheWritable).cache,
                  s.procs[p := Settled(s.procs[p].job, m)])
  {
  }

  lemma StoreAlone(c: Config, s: State, p: nat, m: Match, w: Service.World)
    requires Handling(s, p, Store(m))
    ensures Alone(c, s, p, w) == Handled(c, s, p, Ok(m), w)
  {
    var s' := Apply(c, s, Act(p, AnswerOf(Store(m), w)));
    if w.upsert.None? {
      PutAlone(c, s', p, m, w);
    }
  }

  lemma ResolveAlone(c: Config, s: State, p: nat, m: Match, w: Service.World)
    requires Handling(s, p, Resolve(m))
    ensures Alone(c, s, p, w) == Handled(c, s, p, Enrich(m, w.resolved), w)
  {
    var s' := Apply(c, s, Act(p, AnswerOf(Resolve(m), w)));
    var enriched := Enrich(m, w.resolved);
    if enriched.Ok? {
      StoreAlone(c, s', p, enriched.value, w);
    }
  }

  lemma FetchAlone(c: Config, s: State, p: nat, w: Service.World)
    requires Handling(s, p, Fetch)
    ensures Alone(c, s, p, w) ==
            Handled(c, s, p, Service.Prepared(w), w)
  {
    var s' := Apply(c, s, Act(p, AnswerOf(Fetch, w)));
    if w.fetched.Ok? {
      var m := w.fetched.value;
      if m.destinationIata == "" {
        ResolveAlone(c, s', p, m, w);
      } else {
        StoreAlone(c, s', p, m, w);
      }
    }
  }

  lemma RowAlone(c: Config, s: State, p: nat, id: MatchId, w: Service.World)
    requires p < |s.procs| && s.procs[p] == Process(Get(id), ReadRow)
    ensures var s' := Alone(c, s, p, w);
            var (stores, r) := Service.Lookup(Service.Stores(s.rows, map[], []), c, id, w);
            && s'.rows == stores.rows
            && s'.cache == (if r.Ok? then Service.CacheSet(Service.Stores(s.rows, s.cache, []), c, r.value, w.cacheWritable).cache
                            else s.cache)
            && s'.procs == s.procs[p := Process(Get(id), if r.Ok? then Returned(r.value) else Failed)]
  {
    var s' := Apply(c, s, Act(p, AnswerOf(ReadRow, w)));
    if !w.tableReadable {
      assert Alone(c, s', p, w) == s';
    } else if id in s.rows {
      PutAlone(c, s', p, s.rows[id], w);
    } else {
      FetchAlone(c, s', p, w);
    }
  }

  // A lookup that runs alone is the lookup of the service.
  lemma GetAlone(c: Config, s: State, p: nat, id: MatchId, w: Service.World)
    requires p < |s.procs| && s.procs[p] == Process(Get(id), ReadCache)
    ensures var s' := Alone(c, s, p, w);
            var (stores, r) := Service.Lookup(Service.Stores(s.rows, s.cache, []), c, id, w);
            && s'.rows == stores.rows && s'.cache == stores.cache
            && s'.procs == s.procs[p := Process(Get(id), if r.Ok? then Returned(r.value) else Failed)]
  {
    var s' := Apply(c, s, Act(p, AnswerOf(ReadCache, w)));
    if c.hasCache && w.cacheReadable && id in s.cache {
      assert Alone(c, s', p, w) == s';
    } else {
      RowAlone(c, s', p, id, w);
    }
  }

  // The k-th listed id of a sync is handled in the k-th world.
  function SyncAlone(c: Config, s: State, p: nat, worlds: seq<Service.World>): State
    requires p < |s.procs|
    decreases |worlds|
  {
    if worlds == [] || s.procs[p].at != Fetch then s
    else
      var s' := Alone(c, s, p, worlds[0]);
      if p < |s'.procs| then SyncAlone(c, s', p, worlds[1..]) else s'
  }

  lemma OneAlone(c: Config, s: State, p: nat, stores: Service.Stores, w: Service.World)
    requires Handling(s, p, Fetch) && s.procs[p].job.Sync?
    requires stores.rows == s.rows && stores.cache == s.cache
    ensures var s' := Alone(c, s, p, w);
            var (stores', fate) := Service.SyncOne(stores, c, w);
            var job := s.procs[p].job;
            && s'.rows == stores'.rows && s'.cache == stores'.cache
            && s'.procs == s.procs[p := if fate.Stopped? then Process(job, Failed) else SkipTo(job.ids)]
  {
    FetchAlone(c, s, p, w);
  }

  // A sync that runs alone from its list of ids on is the sync of the service.
  lemma {:induction false} SyncAloneIsSync(c: Config, s: State, p: nat, t: Service.Tally, worlds: seq<Service.World>)
    requires p < |s.procs| && s.procs[p].job.Sync? && |s.procs[p].job.ids| == |worlds|
    requires s.procs[p].at == if worlds == [] then Finished else Fetch
    requires t.stopped.None? && t.stores.rows == s.rows && t.stores.cache == s.cache
    ensures var s', t' := SyncAlone(c, s, p, worlds), Service.SyncAll(t, c, worlds);
            && s'.rows == t'.stores.rows && s'.cache == t'.stores.cache
            && |s'.procs| == |s.procs| && s'.procs == s.procs[p := s'.procs[p]]
            && s'.procs[p].at == if t'.stopped.Some? then Failed else Finished
    decreases |worlds|
  {
    if worlds != [] {
      OneAlone(c, s, p, t.stores, worlds[0]);
      var s' := Alone(c, s, p, worlds[0]);
      var (stores, fate) := Service.SyncOne(t.stores, c, worlds[0]);
      match fate {
        case Saved => SyncAloneIsSync(c, s', p, t.(stores := stores, saved := t.saved + 1), worlds[1..]);
        case Skipped => SyncAloneIsSync(c, s', p, t.(stores := stores, failed := t.failed + 1), worlds[1..]);
        case Stopped(_) =>
          assert SyncAlone(c, s', p, worlds[1..]) == s';
      }
    }
  }

  // A whole sync: the source lists the ids, and they are all handled.
  lemma SyncAloneFromItsList(c: Config, s: State, p: nat, ids: seq<MatchId>, log: seq<Match>, worlds: seq<Service.World>)
    requires p < |s.procs| && s.procs[p] == Process(Sync([]), List) && |worlds| == |ids|
    ensures var act := Act(p, Listed(Ok(ids)));
            && Enabled(s, act)
            && var s', t' := SyncAlone(c, Apply(c, s, act), p, worlds),
                             Service.SyncAll(Service.Tally(Service.Stores(s.rows, s.cache, log), 0, 0, None), c, worlds);
               && s'.rows == t'.stores.rows && s'.cache == t'.stores.cache
               && |s'.procs| == |s.procs| && s'.procs == s.procs[p := s'.procs[p]]
               && s'.procs[p].at == if t'.stopped.Some? then Failed else Finished
  {
    var s' := Apply(c, s, Act(p, Listed(Ok(ids))));
    SyncAloneIsSync(c, s', p, Service.Tally(Service.Stores(s.rows, s.cache, log), 0, 0, None), worlds);
  }
}
