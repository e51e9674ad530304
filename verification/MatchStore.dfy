// The match service under concurrency: any number of GetMatch and SyncUpcomingMatches calls
// interleave over the shared cache, table and source (match_service.go). Each access to
// the cache, the table, the source or the city table is one atomic step; entries expire at
// any time, and any access may fail.
module MatchStore {
  import opened Common
  import opened Matches

  // What a call still has to do: the id asked for, or the ids of a sync from the current one on.
  datatype Job = Get(id: MatchId) | Sync(ids: seq<MatchId>)

  // The access a call makes next, with the match it is carrying.
  datatype At =
    | List                  // sync only: ask the source for the ids
    | ReadCache             // get only
    | ReadRow               // get only
    | Fetch
    | Resolve(m: Match)
    | Store(m: Match)
    | PutCache(m: Match)
    | Returned(m: Match)    // get only: the value handed to the caller
    | Failed
    | Finished              // sync only

  datatype Process = Process(job: Job, at: At)

  datatype State = State(rows: map<MatchId, Match>, cache: map<MatchId, Match>, procs: seq<Process>)

  // What the access answers. A write may be applied although it is reported as failed.
  datatype Answer =
    | Listed(ids: Result<seq<MatchId>, Error>)
    | Read(ok: bool)
    | Fetched(match_: Result<Match, Error>)
    | Resolved(code: Resolution)
    | Wrote(applied: bool, err: Option<Error>)

  datatype Action = Act(p: nat, answer: Answer) | Expire(id: MatchId)

  function SkipTo(ids: seq<MatchId>): Process
    requires ids != []
  {
    Process(Sync(ids[1..]), if |ids| == 1 then Finished else Fetch)
  }

  // A failed access ends a lookup; a sync goes on with the next id unless its context is done.
  function GiveUp(job: Job, e: Error): Process {
    if job.Sync? && job.ids != [] && !IsContextErr(e) then SkipTo(job.ids) else Process(job, Failed)
  }

  predicate Fits(p: Process, a: Answer) {
    match p.at
    case List => p.job.Sync? && a.Listed?
    case ReadCache => p.job.Get? && a.Read?
    case ReadRow => p.job.Get? && a.Read?
    case Fetch => (p.job.Sync? ==> p.job.ids != []) && a.Fetched?
    case Resolve(_) => (p.job.Sync? ==> p.job.ids != []) && a.Resolved?
    case Store(_) => (p.job.Sync? ==> p.job.ids != []) && a.Wrote? && (a.err.None? ==> a.applied)
    case PutCache(_) => (p.job.Sync? ==> p.job.ids != []) && a.Wrote?
    case _ => false
  }

  // The process after its access, given the stores it read.
  function Advance(c: Config, s: State, p: Process, a: Answer): Process
    requires Fits(p, a)
  {
    match p.at
    case List =>
      if a.ids.Err? then p.(at := Failed)
      else Process(Sync(a.ids.value), if a.ids.value == [] then Finished else Fetch)
    case ReadCache =>
      if c.hasCache && a.ok && p.job.id in s.cache then p.(at := Returned(s.cache[p.job.id])) else p.(at := ReadRow)
    case ReadRow =>
      if !a.ok then p.(at := Failed)
      else if p.job.id in s.rows then p.(at := PutCache(s.rows[p.job.id]))
      else p.(at := Fetch)
    case Fetch =>
      if a.match_.Err? then GiveUp(p.job, a.match_.error)
      else if a.match_.value.destinationIata == "" then p.(at := Resolve(a.match_.value))
      else p.(at := Store(a.match_.value))
    case Resolve(m) =>
      var enriched := Enrich(m, a.code);
      if enriched.Err? then GiveUp(p.job, enriched.error) else p.(at := Store(enriched.value))
    case Store(m) =>
      if a.err.Some? then GiveUp(p.job, a.err.value) else p.(at := PutCache(m))
    case PutCache(m) =>
      if p.job.Get? then p.(at := Returned(m)) else SkipTo(p.job.ids)
  }

  predicate Enabled(s: State, act: Action) {
    act.Act? ==> act.p < |s.procs| && Fits(s.procs[act.p], act.answer)
  }

  predicate WritesRow(s: State, act: Action) {
    Enabled(s, act) && act.Act? && s.procs[act.p].at.Store? && act.answer.applied
  }

  predicate WritesCache(c: Config, s: State, act: Action) {
    Enabled(s, act) && act.Act? && s.procs[act.p].at.PutCache? && act.answer.applied && Caches(c)
  }

  function Apply(c: Config, s: State, act: Action): State
    requires Enabled(s, act)
  {
    match act
    case Expire(id) => s.(cache := s.cache - {id})
    case Act(p, a) =>
      var proc := s.procs[p];
      State(
        if WritesRow(s, act) then s.rows[proc.at.m.id := proc.at.m] else s.rows,
        if WritesCache(c, s, act) then s.cache[proc.at.m.id := proc.at.m] else s.cache,
        s.procs[p := Advance(c, s, proc, a)])
  }

  // A start in which no call has begun. The cache may hold anything filed under its own id,
  // such as entries that an earlier run has left behind.
  ghost predicate Start(s: State) {
    && (forall id :: id in s.rows ==> s.rows[id].id == id)
    && (forall id :: id in s.cache ==> s.cache[id].id == id)
    && (forall p :: 0 <= p < |s.procs| ==> s.procs[p].at == if s.procs[p].job.Get? then ReadCache else List)
  }

  ghost predicate IsRun(c: Config, run: seq<State>) {
    && |run| > 0
    && Start(run[0])
    && forall k :: 0 <= k < |run| - 1 ==> StepAt(c, run, k)
  }

  ghost predicate StepAt(c: Config, run: seq<State>, k: int)
    requires 0 <= k < |run| - 1
  {
    exists act :: Enabled(run[k], act) && run[k + 1] == Apply(c, run[k], act)
  }

  // --- Safety under every interleaving ---

  // By time k, m has been the stored row of its id, in this run or before it.
  ghost predicate WasRow(past: set<Match>, run: seq<State>, k: nat, m: Match)
    requires k < |run|
  {
    m in past || exists u :: 0 <= u <= k && m.id in run[u].rows && run[u].rows[m.id] == m
  }

  // The values that the cache holds, the calls carry and the callers got.
  ghost predicate Justified(past: set<Match>, run: seq<State>, k: nat)
    requires k < |run|
  {
    && (forall id :: id in run[k].rows ==> run[k].rows[id].id == id)
    && (forall id :: id in run[k].cache ==> run[k].cache[id].id == id && WasRow(past, run, k, run[k].cache[id]))
    && (forall p :: 0 <= p < |run[k].procs| && (run[k].procs[p].at.PutCache? || run[k].procs[p].at.Returned?) ==>
          WasRow(past, run, k, run[k].procs[p].at.m))
  }

  lemma WasRowLater(past: set<Match>, run: seq<State>, k: nat, m: Match)
    requires k + 1 < |run|
    ensures WasRow(past, run, k, m) ==> WasRow(past, run, k + 1, m)
  {
  }

  lemma CurrentRowWasRow(past: set<Match>, run: seq<State>, k: nat, id: MatchId)
    requires k < |run| && id in run[k].rows && run[k].rows[id].id == id
    ensures WasRow(past, run, k, run[k].rows[id])
  {
  }

  lemma StepJustified(c: Config, past: set<Match>, run: seq<State>, k: nat, act: Action)
    requires k + 1 < |run| && Justified(past, run, k)
    requires Enabled(run[k], act) && run[k + 1] == Apply(c, run[k], act)
    ensures Justified(past, run, k + 1)
  {
    var s, s' := run[k], run[k + 1];
    forall id | id in s'.cache ensures s'.cache[id].id == id && WasRow(past, run, k + 1, s'.cache[id]) {
      WasRowLater(past, run, k, s'.cache[id]);
    }
    forall p | 0 <= p < |s'.procs| && (s'.procs[p].at.PutCache? || s'.procs[p].at.Returned?)
      ensures WasRow(past, run, k + 1, s'.procs[p].at.m)
    {
      var m := s'.procs[p].at.m;
      WasRowLater(past, run, k, m);
      if act.Act? && act.p == p {
        if s.procs[p].at.Store? {
          assert s'.rows[m.id] == m;
        } else if s.procs[p].at.ReadRow? {
          CurrentRowWasRow(past, run, k, s.procs[p].job.id);
        }
      }
    }
  }

  lemma {:induction false} RunIsJustified(c: Config, past: set<Match>, run: seq<State>, k: nat)
    requires IsRun(c, run) && k < |run|
    requires forall id :: id in run[0].cache ==> WasRow(past, run, 0, run[0].cache[id])
    ensures Justified(past, run, k)
  {
    if k > 0 {
      RunIsJustified(c, past, run, k - 1);
      assert StepAt(c, run, k - 1);
      var act :| Enabled(run[k - 1], act) && run[k] == Apply(c, run[k - 1], act);
      StepJustified(c, past, run, k - 1, act);
    }
  }

  // Over all interleavings of any number of lookups and syncs, with arbitrary expiry and
  // failing accesses, every cached value and every returned value was at some time the
  // stored row of its id, if that was so of the entries found at the start.
  lemma NothingIsInvented(c: Config, past: set<Match>, run: seq<State>, k: nat)
    requires IsRun(c, run) && k < |run|
    requires forall id :: id in run[0].cache ==> WasRow(past, run, 0, run[0].cache[id])
    ensures forall id :: id in run[k].cache ==> run[k].cache[id].id == id && WasRow(past, run, k, run[k].cache[id])
    ensures forall p :: 0 <= p < |run[k].procs| && run[k].procs[p].at.Returned? ==>
              WasRow(past, run, k, run[k].procs[p].at.m)
  {
    RunIsJustified(c, past, run, k);
  }

  // --- Coherence, and how far it goes ---

  // Process p is about to cache a row of id.
  predicate Carries(s: State, p: int, id: MatchId) {
    0 <= p < |s.procs| && s.procs[p].at.PutCache? && s.procs[p].at.m.id == id
  }

  ghost predicate Carried(s: State, id: MatchId) {
    exists p :: Carries(s, p, id)
  }

  ghost predicate IsCurrent(s: State, m: Match) {
    m.id in s.rows && s.rows[m.id] == m
  }

  // Every live entry that no call is about to replace is the current row.
  ghost predicate Coherent(s: State) {
    forall id :: id in s.cache && !Carried(s, id) ==> id in s.rows && s.cache[id] == s.rows[id]
  }

  // Every value on its way to the cache is the current row.
  ghost predicate CarriesCurrent(s: State) {
    forall p :: 0 <= p < |s.procs| && s.procs[p].at.PutCache? ==> IsCurrent(s, s.procs[p].at.m)
  }

  ghost predicate Pending(s: State) {
    CarriesCurrent(s) && Coherent(s)
  }

  // Rows are filed under their ids, and a sync that is busy has an id left.
  ghost predicate WellFormed(s: State) {
    && (forall id :: id in s.rows ==> s.rows[id].id == id)
    && (forall p :: 0 <= p < |s.procs| && s.procs[p].at.PutCache? && s.procs[p].job.Sync? ==> s.procs[p].job.ids != [])
  }

  ghost predicate CarriedByOther(s: State, p: int, id: MatchId) {
    exists q :: q != p && Carries(s, q, id)
  }

  // Nobody else is about to cache another value of this row.
  ghost predicate Unopposed(s: State, p: int, m: Match) {
    forall q :: q != p && Carries(s, q, m.id) ==> s.procs[q].at.m == m
  }

  // The live entry is another one than m, and nobody else is about to replace it.
  ghost predicate Outdated(s: State, p: int, m: Match) {
    m.id in s.cache && s.cache[m.id] != m && !CarriedByOther(s, p, m.id)
  }

  // A row is written only unopposed; an upsert that reports an error takes no effect, and no
  // cache write is lost, where the live entry would be left outdated.
  ghost predicate Orderly(s: State, act: Action)
    requires Enabled(s, act)
  {
    act.Act? && (s.procs[act.p].at.Store? || s.procs[act.p].at.PutCache?) ==>
      var p, m := act.p, s.procs[act.p].at.m;
      && (WritesRow(s, act) ==> Unopposed(s, p, m))
      && (WritesRow(s, act) && act.answer.err.Some? ==> !Outdated(s, p, m))
      && (s.procs[p].at.PutCache? && !act.answer.applied ==> !Outdated(s, p, m))
  }

  lemma CarriersAfter(c: Config, s: State, act: Action, q: int, id: MatchId)
    requires Enabled(s, act)
    ensures var s' := Apply(c, s, act);
            Carries(s', q, id) <==>
            if act.Act? && q == act.p then s'.procs[q].at.PutCache? && s'.procs[q].at.m.id == id else Carries(s, q, id)
  {
  }

  lemma StoreKeepsPending(c: Config, s: State, act: Action)
    requires Pending(s) && WritesRow(s, act)
    ensures Pending(Apply(c, s, act)) <==> Orderly(s, act)
  {
    var s' := Apply(c, s, act);
    var p, m := act.p, s.procs[act.p].at.m;
    forall q, id ensures Carries(s', q, id) <==> if q == p then act.answer.err.None? && id == m.id else Carries(s, q, id) {
      CarriersAfter(c, s, act, q, id);
    }
    assert Carried(s', m.id) <==> act.answer.err.None? || CarriedByOther(s, p, m.id) by {
      assert act.answer.err.None? ==> Carries(s', p, m.id);
    }
    forall id | id != m.id ensures Carried(s', id) <==> Carried(s, id) {
    }
    if CarriesCurrent(s') {
      forall q | q != p && Carries(s, q, m.id) ensures s.procs[q].at.m == m {
        assert Carries(s', q, m.id);
      }
    }
    if Unopposed(s, p, m) {
      forall q | 0 <= q < |s'.procs| && s'.procs[q].at.PutCache? ensures IsCurrent(s', s'.procs[q].at.m) {
        assert Carries(s', q, s'.procs[q].at.m.id);
      }
    }
  }

  lemma PutKeepsPending(c: Config, s: State, act: Action)
    requires Pending(s) && (Caches(c) || s.cache == map[])
    requires Enabled(s, act) && act.Act? && s.procs[act.p].at.PutCache?
    ensures Pending(Apply(c, s, act)) <==> Orderly(s, act)
  {
    var s' := Apply(c, s, act);
    var p, m := act.p, s.procs[act.p].at.m;
    forall q, id ensures Carries(s', q, id) <==> q != p && Carries(s, q, id) {
      CarriersAfter(c, s, act, q, id);
    }
    assert Carries(s, p, m.id);
    assert Carried(s', m.id) <==> CarriedByOther(s, p, m.id);
    forall id | id != m.id ensures Carried(s', id) <==> Carried(s, id) {
    }
  }

  lemma OtherStepsKeepPending(c: Config, s: State, act: Action)
    requires WellFormed(s) && Pending(s) && Enabled(s, act) && !WritesRow(s, act)
    requires act.Act? ==> !s.procs[act.p].at.PutCache?
    ensures Pending(Apply(c, s, act))
  {
    var s' := Apply(c, s, act);
    forall q, id ensures Carries(s, q, id) ==> Carries(s', q, id) {
      CarriersAfter(c, s, act, q, id);
    }
    forall id | Carried(s, id) ensures Carried(s', id) {
    }
  }

  // From a pending state a step leads to a pending state exactly when it is orderly.
  lemma StepKeepsPending(c: Config, s: State, act: Action)
    requires WellFormed(s) && Pending(s) && (Caches(c) || s.cache == map[]) && Enabled(s, act)
    ensures Pending(Apply(c, s, act)) <==> Orderly(s, act)
  {
    if WritesRow(s, act) {
      StoreKeepsPending(c, s, act);
    } else if act.Act? && s.procs[act.p].at.PutCache? {
      PutKeepsPending(c, s, act);
    } else {
      OtherStepsKeepPending(c, s, act);
    }
  }

  ghost predicate OrderlyAt(c: Config, run: seq<State>, k: int)
    requires 0 <= k < |run| - 1
  {
    exists act :: Enabled(run[k], act) && run[k + 1] == Apply(c, run[k], act) && Orderly(run[k], act)
  }

  lemma StepIsWellFormed(c: Config, s: State, act: Action)
    requires WellFormed(s) && (Caches(c) || s.cache == map[]) && Enabled(s, act)
    ensures WellFormed(Apply(c, s, act)) && (Caches(c) || Apply(c, s, act).cache == map[])
  {
  }

  lemma {:induction false} RunIsWellFormed(c: Config, run: seq<State>, k: nat)
    requires IsRun(c, run) && (Caches(c) || run[0].cache == map[]) && k < |run|
    ensures WellFormed(run[k]) && (Caches(c) || run[k].cache == map[])
  {
    if k > 0 {
      RunIsWellFormed(c, run, k - 1);
      assert StepAt(c, run, k - 1);
      var act :| Enabled(run[k - 1], act) && run[k] == Apply(c, run[k - 1], act);
      StepIsWellFormed(c, run[k - 1], act);
    }
  }

  lemma StepAlongRun(c: Config, run: seq<State>, k: nat)
    requires IsRun(c, run) && (Caches(c) || run[0].cache == map[]) && k + 1 < |run|
    requires Pending(run[k])
    ensures Pending(run[k + 1]) <==> OrderlyAt(c, run, k)
  {
    RunIsWellFormed(c, run, k);
    assert StepAt(c, run, k);
    forall act | Enabled(run[k], act) && run[k + 1] == Apply(c, run[k], act)
      ensures Pending(run[k + 1]) <==> Orderly(run[k], act)
    {
      StepKeepsPending(c, run[k], act);
    }
  }

  // Over all interleavings from a coherent start: every state up to n is pending, and so
  // every live entry that no call is about to replace is the current row, if and only if
  // every step up to n is orderly.
  lemma {:induction false} RunStaysPending(c: Config, run: seq<State>, n: nat)
    requires IsRun(c, run) && (Caches(c) || run[0].cache == map[]) && n < |run|
    requires Coherent(run[0])
    ensures (forall k :: 0 <= k <= n ==> Pending(run[k])) <==> forall k :: 0 <= k < n ==> OrderlyAt(c, run, k)
  {
    if n == 0 {
      assert Pending(run[0]);
    } else {
      RunStaysPending(c, run, n - 1);
      if forall k :: 0 <= k <= n - 1 ==> Pending(run[k]) {
        assert Pending(run[n - 1]);
        StepAlongRun(c, run, n - 1);
      }
    }
  }

  // Accesses report what they do, and no cache write is lost.
  ghost predicate Reliable(s: State, act: Action)
    requires Enabled(s, act)
  {
    act.Act? ==>
      && (s.procs[act.p].at.Store? ==> (act.answer.applied <==> act.answer.err.None?))
      && (s.procs[act.p].at.PutCache? ==> act.answer.applied)
  }

  // With reliable accesses the one thing that interleaving must not do is to write a row
  // while another call is about to cache another value of it.
  lemma ReliableIsOrderlyUnlessOpposed(s: State, act: Action)
    requires Enabled(s, act) && Reliable(s, act)
    ensures Orderly(s, act) <==> (WritesRow(s, act) ==> Unopposed(s, act.p, s.procs[act.p].at.m))
  {
  }

  // --- Why pending states are the right ones ---

  ghost predicate Puts(c: Config, s: State, s': State, p: nat) {
    && Enabled(s, Act(p, Wrote(true, None))) && s.procs[p].at.PutCache?
    && s' == Apply(c, s, Act(p, Wrote(true, None)))
  }

  ghost predicate PutNext(c: Config, s: State, s': State) {
    exists p: nat :: Puts(c, s, s', p)
  }

  ghost predicate PutAt(c: Config, run: seq<State>, k: int)
    requires 0 <= k < |run| - 1
  {
    PutNext(c, run[k], run[k + 1])
  }

  // Calls that are about to write the cache do so, one after the other, and nothing else happens.
  ghost predicate PutRun(c: Config, run: seq<State>) {
    |run| > 0 && forall k :: 0 <= k < |run| - 1 ==> PutAt(c, run, k)
  }

  lemma {:induction false} PutRunStaysPending(c: Config, run: seq<State>, k: nat)
    requires PutRun(c, run) && Caches(c) && k < |run|
    requires WellFormed(run[0]) && Pending(run[0])
    ensures WellFormed(run[k]) && Pending(run[k])
  {
    if k > 0 {
      PutRunStaysPending(c, run, k - 1);
      assert PutAt(c, run, k - 1);
      var p: nat :| Puts(c, run[k - 1], run[k], p);
      StepIsWellFormed(c, run[k - 1], Act(p, Wrote(true, None)));
      PutKeepsPending(c, run[k - 1], Act(p, Wrote(true, None)));
    }
  }

  function Carriers(s: State, id: MatchId): set<int> {
    set q | 0 <= q < |s.procs| && Carries(s, q, id)
  }

  // A call that carries an outdated row can be the last one to write the cache.
  lemma OutdatedCarrierSpoils(c: Config, s: State, p: nat) returns (run: seq<State>)
    requires WellFormed(s) && Caches(c)
    requires p < |s.procs| && s.procs[p].at.PutCache? && !IsCurrent(s, s.procs[p].at.m)
    ensures PutRun(c, run) && run[0] == s && !Coherent(run[|run| - 1])
    decreases |Carriers(s, s.procs[p].at.m.id)|
  {
    var m := s.procs[p].at.m;
    var q: nat := p;
    if CarriedByOther(s, p, m.id) {
      q :| q != p && Carries(s, q, m.id);
    }
    var act := Act(q, Wrote(true, None));
    var s' := Apply(c, s, act);
    forall o, id ensures Carries(s', o, id) <==> o != q && Carries(s, o, id) {
      CarriersAfter(c, s, act, o, id);
    }
    assert Puts(c, s, s', q);
    assert PutNext(c, s, s');
    if q == p {
      assert !Carried(s', m.id) && s'.cache[m.id] == m;
      run := [s, s'];
    } else {
      StepIsWellFormed(c, s, act);
      assert Carriers(s', m.id) == Carriers(s, m.id) - {q};
      assert q in Carriers(s, m.id);
      var rest := OutdatedCarrierSpoils(c, s', p);
      run := [s] + rest;
      forall k | 0 <= k < |run| - 1 ensures PutAt(c, run, k) {
        if k > 0 {
          assert PutAt(c, rest, k - 1);
        }
      }
    }
  }

  // A state is pending exactly when it stays coherent whichever of the outstanding cache
  // writes are made, in whatever order.
  lemma PendingMeansStaysCoherent(c: Config, s: State)
    requires WellFormed(s) && Caches(c)
    ensures Pending(s) <==> forall run :: PutRun(c, run) && run[0] == s ==> Coherent(run[|run| - 1])
  {
    if Pending(s) {
      forall run | PutRun(c, run) && run[0] == s ensures Coherent(run[|run| - 1]) {
        PutRunStaysPending(c, run, |run| - 1);
      }
    } else if !Coherent(s) {
      var run := [s];
      assert PutRun(c, run) && run[0] == s && !Coherent(run[|run| - 1]);
    } else {
      var p :| 0 <= p < |s.procs| && s.procs[p].at.PutCache? && !IsCurrent(s, s.procs[p].at.m);
      var run := OutdatedCarrierSpoils(c, s, p);
    }
  }

  // One lookup and one sync of the same id.
  function Scene(row: Match, cache: map<MatchId, Match>, reader: At, ids: seq<MatchId>, syncer: At): State {
    State(map[row.id := row], cache, [Process(Get(row.id), reader), Process(Sync(ids), syncer)])
  }

  // A lookup reads the old row, a sync replaces row and entry, and the lookup then caches
  // the old row again.
  function StaleRun(older: Match, newer: Match): (run: seq<State>)
    ensures |run| == 8
  {
    var id := older.id;
    [ Scene(older, map[], ReadCache, [], List),
      Scene(older, map[], ReadRow, [], List),
      Scene(older, map[], PutCache(older), [], List),
      Scene(older, map[], PutCache(older), [id], Fetch),
      Scene(older, map[], PutCache(older), [id], Store(newer)),
      Scene(newer, map[], PutCache(older), [id], PutCache(newer)),
      Scene(newer, map[id := newer], PutCache(older), [], Finished),
      Scene(newer, map[id := older], Returned(older), [], Finished) ]
  }

  function StaleAction(newer: Match, k: int): Action {
    match k
    case 0 => Act(0, Read(true))
    case 1 => Act(0, Read(true))
    case 2 => Act(1, Listed(Ok([newer.id])))
    case 3 => Act(1, Fetched(Ok(newer)))
    case 4 => Act(1, Wrote(true, None))
    case 5 => Act(1, Wrote(true, None))
    case _ => Act(0, Wrote(true, None))
  }

  lemma StaleRunStep(c: Config, older: Match, newer: Match, k: int)
    requires older.id == newer.id && newer.destinationIata != ""
    requires Caches(c)
    requires 0 <= k < 7
    ensures StepAt(c, StaleRun(older, newer), k) && (older != newer ==> OrderedAt(c, StaleRun(older, newer), newer, k))
  {
    var run := StaleRun(older, newer);
    var act := StaleAction(newer, k);
    assert Enabled(run[k], act);
    if k == 5 {
      assert [older.id][1..] == [];
    }
    assert run[k + 1].rows == Apply(c, run[k], act).rows;
    assert run[k + 1].procs == Apply(c, run[k], act).procs;
    assert run[k + 1] == Apply(c, run[k], act);
    ReliableIsOrderlyUnlessOpposed(run[k], act);
    if k == 4 {
      assert Carries(run[4], 0, newer.id) && run[4].procs[0].at.m == older;
    }
  }

  // Interleaving breaks coherence even when no access fails: for every change of a row
  // there is a run that ends with both calls done and the old row in the cache. Its one
  // disorderly step is the upsert, made while the lookup is about to cache the old row.
  lemma StaleEntryIsReachable(c: Config, older: Match, newer: Match)
    requires older.id == newer.id && older != newer && newer.destinationIata != ""
    requires Caches(c)
    ensures var run := StaleRun(older, newer);
            && IsRun(c, run) && Coherent(run[0])
            && run[7] == Scene(newer, map[older.id := older], Returned(older), [], Finished)
            && !Coherent(run[7])
            && (forall k :: 0 <= k < 7 ==> OrderedAt(c, run, newer, k))
  {
    var run := StaleRun(older, newer);
    forall k | 0 <= k < 7 ensures StepAt(c, run, k) && OrderedAt(c, run, newer, k) {
      StaleRunStep(c, older, newer, k);
    }
    assert !Carried(run[7], older.id);
    assert run[7].cache[older.id] == older && run[7].rows[older.id] == newer;
  }

  // The k-th step of a stale run is reliable, and orderly unless it is the upsert.
  ghost predicate OrderedAt(c: Config, run: seq<State>, newer: Match, k: int)
    requires 0 <= k < |run| - 1
  {
    var act := StaleAction(newer, k);
    && Enabled(run[k], act) && run[k + 1] == Apply(c, run[k], act)
    && Reliable(run[k], act) && (Orderly(run[k], act) <==> k != 4)
  }
}
