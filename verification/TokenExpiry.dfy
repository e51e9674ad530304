// The refresh-token repository with expiry (db/redis/repository.go): how old an answer can
// be, and what a delete achieves. Reads, writes and deletes may fail throughout.
module TokenExpiry {
  import opened Common
  import opened Text
  import opened TokenIndex

  // --- With expiry: how old an answer can be ---

  ghost predicate SavedAt(run: seq<Event>, id: string, token: string, j: nat) {
    j < |run| && run[j].op.Save? && run[j].op.id == id && run[j].op.token == token
  }

  // A forward entry lives for one ttl after its save, a reverse entry for less than two.
  ghost predicate ForwardDated(entry: Entry, ttl: int, run: seq<Event>, id: string, token: string) {
    entry.expires.Some? && exists j: nat :: SavedAt(run, id, token, j) && entry.expires.value == run[j].now + ttl
  }

  ghost predicate ReverseDated(entry: Entry, ttl: int, run: seq<Event>, token: string) {
    entry.expires.Some? && exists j: nat :: SavedAt(run, entry.value, token, j) && entry.expires.value < run[j].now + 2 * ttl
  }

  ghost predicate Dated(st: Store, ttl: int, run: seq<Event>) {
    && WellKeyed(st)
    && (forall id, token :: Clean(id) && Clean(token) && Forward(id, token) in st ==>
          ForwardDated(st[Forward(id, token)], ttl, run, id, token))
    && (forall token :: Clean(token) && Reverse(token) in st ==> ReverseDated(st[Reverse(token)], ttl, run, token))
  }

  lemma DatedLater(st: Store, ttl: int, run: seq<Event>, e: Event)
    requires Dated(st, ttl, run)
    ensures Dated(st, ttl, run + [e])
  {
    assert forall id, token, j: nat :: SavedAt(run, id, token, j) ==> SavedAt(run + [e], id, token, j) && (run + [e])[j] == run[j];
    forall id, token | Clean(id) && Clean(token) && Forward(id, token) in st
      ensures ForwardDated(st[Forward(id, token)], ttl, run + [e], id, token)
    {
      assert ForwardDated(st[Forward(id, token)], ttl, run, id, token);
    }
    forall token | Clean(token) && Reverse(token) in st ensures ReverseDated(st[Reverse(token)], ttl, run + [e], token) {
      assert ReverseDated(st[Reverse(token)], ttl, run, token);
    }
  }

  lemma PutForwardDated(st: Store, ttl: int, run: seq<Event>, id: string, token: string, j: nat)
    requires Dated(st, ttl, run) && ttl > 0 && Clean(id) && Clean(token) && SavedAt(run, id, token, j)
    ensures Dated(Put(st, Forward(id, token), id, ttl, run[j].now), ttl, run)
  {
    KeysAreDistinct();
    assert IsForward(Forward(id, token), id, token);
  }

  // Writing a reverse entry less than one ttl after the save.
  lemma PutReverseDated(st: Store, ttl: int, run: seq<Event>, id: string, token: string, now: int, j: nat)
    requires Dated(st, ttl, run) && ttl > 0 && Clean(token) && SavedAt(run, id, token, j)
    requires now < run[j].now + ttl
    ensures Dated(Put(st, Reverse(token), id, ttl, now), ttl, run)
  {
    KeysAreDistinct();
  }

  lemma SaveDated(st: Store, ttl: int, run: seq<Event>, id: string, token: string, f: Faults, j: nat)
    requires Dated(st, ttl, run) && ttl > 0 && Clean(id) && Clean(token) && SavedAt(run, id, token, j)
    ensures Dated(SaveSpec(st, ttl, id, token, run[j].now, f).0, ttl, run)
  {
    PutForwardDated(st, ttl, run, id, token, j);
    var st' := Write(st, Forward(id, token), id, ttl, run[j].now, f);
    assert Dated(st', ttl, run);
    PutReverseDated(st', ttl, run, id, token, run[j].now, j);
  }

  // A lookup answers with a match that was saved for the token at most 2 ttl - 2 ago.
  ghost predicate SavedRecently(run: seq<Event>, ttl: int, id: string, token: string, now: int) {
    exists j: nat :: SavedAt(run, id, token, j) && now - run[j].now <= 2 * ttl - 2
  }

  lemma LookupDated(st: Store, ttl: int, run: seq<Event>, token: string, now: int, chosen: string, f: Faults)
    requires Dated(st, ttl, run) && ttl > 0 && Possible(st, Event(Lookup(token, chosen, f), now))
    ensures var (st', r) := LookupSpec(st, ttl, token, now, chosen, f);
            Dated(st', ttl, run) && (r.Found? ==> SavedRecently(run, ttl, r.id, token, now))
  {
    LookupAnswers(st, ttl, token, now, chosen, f);
    var r := LookupSpec(st, ttl, token, now, chosen, f).1;
    if r.Found? {
      if Live(st, Reverse(token), now) {
        assert ReverseDated(st[Reverse(token)], ttl, run, token);
      } else {
        assert ForwardDated(st[Forward(r.id, token)], ttl, run, r.id, token);
        var j: nat :| SavedAt(run, r.id, token, j) && st[Forward(r.id, token)].expires.value == run[j].now + ttl;
        PutReverseDated(st, ttl, run, r.id, token, now, j);
      }
    }
  }

  lemma RemovalDated(st: Store, ttl: int, run: seq<Event>, keys: set<string>)
    requires Dated(st, ttl, run)
    ensures Dated(st - keys, ttl, run)
  {
  }

  lemma DeleteDated(st: Store, ttl: int, run: seq<Event>, id: string, token: string, now: int, f: Faults)
    requires Dated(st, ttl, run)
    ensures Dated(DeleteSpec(st, id, token, now, f).0, ttl, run)
  {
    RemovalDated(st, ttl, run, {Forward(id, token)});
    RemovalDated(st - {Forward(id, token)}, ttl, run, {Reverse(token)});
    RemovalDated(st, ttl, run, {Reverse(token)});
  }

  lemma OtherDated(st: Store, ttl: int, run: seq<Event>, key: string, entry: Option<Entry>)
    requires Dated(st, ttl, run) && Foreign(key)
    ensures Dated(if entry.Some? then st[key := entry.value] else st - {key}, ttl, run)
  {
    KeysAreDistinct();
  }

  lemma StepDated(st: Store, ttl: int, run: seq<Event>, n: nat)
    requires n < |run| && ttl > 0 && Dated(st, ttl, run) && Possible(st, run[n])
    ensures Dated(Apply(st, ttl, run[n]), ttl, run)
  {
    var e := run[n];
    match e.op {
      case Save(id, token, f) =>
        assert SavedAt(run, id, token, n);
        SaveDated(st, ttl, run, id, token, f, n);
      case Lookup(token, chosen, f) => LookupDated(st, ttl, run, token, e.now, chosen, f);
      case Delete(id, token, f) => DeleteDated(st, ttl, run, id, token, e.now, f);
      case DeleteAll(id, keys, f) => RemovalDated(st, ttl, run, Removed(keys, f));
      case Other(key, entry) => OtherDated(st, ttl, run, key, entry);
    }
  }

  lemma {:induction false} IndexIsDated(start: Store, ttl: int, run: seq<Event>)
    requires IsRun(start, ttl, run) && ttl > 0
    ensures Dated(After(start, ttl, run), ttl, run)
  {
    if run == [] {
      KeysAreDistinct();
    } else {
      var front, e := run[..|run| - 1], run[|run| - 1];
      PossiblePrefix(start, ttl, run);
      IndexIsDated(start, ttl, front);
      DatedLater(After(start, ttl, front), ttl, front, e);
      assert front + [e] == run;
      StepDated(After(start, ttl, front), ttl, run, |run| - 1);
    }
  }

  // Although the reverse entry is rebuilt with a fresh time to live, a match named for a
  // token was saved for that token at most 2 ttl - 2 time units before.
  lemma AnswersAreRecent(start: Store, ttl: int, run: seq<Event>, token: string, now: int, chosen: string, f: Faults)
    requires IsRun(start, ttl, run) && ttl > 0
    requires Possible(After(start, ttl, run), Event(Lookup(token, chosen, f), now))
    ensures var r := LookupSpec(After(start, ttl, run), ttl, token, now, chosen, f).1;
            r.Found? ==> SavedRecently(run, ttl, r.id, token, now)
  {
    IndexIsDated(start, ttl, run);
    LookupDated(After(start, ttl, run), ttl, run, token, now, chosen, f);
  }

  // A token saved for two matches and deleted for one of them, then looked up just before
  // the first save expires.
  function RebuildRun(a: string, b: string, token: string, ttl: int): (run: seq<Event>)
    ensures |run| == 4
  {
    [ Event(Save(a, token, NO_FAULTS), 0),
      Event(Save(b, token, NO_FAULTS), 0),
      Event(Delete(b, token, NO_FAULTS), 0),
      Event(Lookup(token, Forward(a, token), NO_FAULTS), ttl - 1) ]
  }

  // A save that is undone at once leaves no entry of the token but the older forward ones.
  lemma SaveThenDelete(st: Store, ttl: int, id: string, token: string, now: int)
    requires Clean(id) && Clean(token)
    ensures DeleteSpec(SaveSpec(st, ttl, id, token, now, NO_FAULTS).0, id, token, now, NO_FAULTS).0 ==
            st - {Forward(id, token), Reverse(token)}
  {
    KeysAreDistinct();
    assert Forward(id, token) != Reverse(token);
  }

  // A lookup that finds one forward entry rebuilds the reverse entry.
  lemma LookupRebuilds(st: Store, ttl: int, id: string, token: string, now: int)
    requires Clean(id) && Clean(token) && !Live(st, Reverse(token), now) && Live(st, Forward(id, token), now)
    ensures LookupSpec(st, ttl, token, now, Forward(id, token), NO_FAULTS) ==
            (Put(st, Reverse(token), id, ttl, now), Found(id))
  {
    ForwardSplits(id, token);
    ForwardIsFound(st, id, token, now);
  }

  lemma RebuildRunStates(a: string, b: string, token: string, ttl: int)
    requires Clean(a) && Clean(b) && a != b && Clean(token) && token != "" && ttl > 1
    ensures var run := RebuildRun(a, b, token, ttl);
            && After(map[], ttl, run[..3]) == map[Forward(a, token) := Entry(a, Some(ttl))]
            && After(map[], ttl, run) == map[Forward(a, token) := Entry(a, Some(ttl)),
                                             Reverse(token) := Entry(a, Some(2 * ttl - 1))]
  {
    var run := RebuildRun(a, b, token, ttl);
    assert run[..0] == [] && run[..4] == run;
    AfterOneMore(map[], ttl, run, 0);
    AfterOneMore(map[], ttl, run, 1);
    AfterOneMore(map[], ttl, run, 2);
    AfterOneMore(map[], ttl, run, 3);
    ForwardInjective(a, token, b, token);
    var st := SaveSpec(map[], ttl, a, token, 0, NO_FAULTS).0;
    SaveThenDelete(st, ttl, b, token, 0);
    var left := st - {Forward(b, token), Reverse(token)};
    assert left == map[Forward(a, token) := Entry(a, Some(ttl))];
    LookupRebuilds(left, ttl, a, token, ttl - 1);
  }

  lemma RebuildRunIsPossible(a: string, b: string, token: string, ttl: int)
    requires Clean(a) && Clean(b) && a != b && Clean(token) && token != "" && ttl > 1
    ensures IsRun(map[], ttl, RebuildRun(a, b, token, ttl))
  {
    var run := RebuildRun(a, b, token, ttl);
    RebuildRunStates(a, b, token, ttl);
    forall n: nat | n < |run| ensures PossibleAt(map[], ttl, run, n) {
      if n == 3 {
        ForwardIsFound(After(map[], ttl, run[..3]), a, token, ttl - 1);
      }
    }
  }

  // The bound is attained: a run of successful operations after which a token is answered
  // from the rebuilt entry 2 ttl - 2 after its only save, when its forward entry is gone.
  lemma RecencyBoundIsAttained(a: string, b: string, token: string, ttl: int, chosen: string)
    requires Clean(a) && Clean(b) && a != b && Clean(token) && token != "" && ttl > 1
    ensures var run := RebuildRun(a, b, token, ttl);
            var st := After(map[], ttl, run);
            && IsRun(map[], ttl, run)
            && LookupSpec(st, ttl, token, 2 * ttl - 2, chosen, NO_FAULTS).1 == Found(a)
            && (forall j: nat :: SavedAt(run, a, token, j) ==> run[j].now == 0)
            && !Live(st, Forward(a, token), 2 * ttl - 2)
  {
    RebuildRunStates(a, b, token, ttl);
    RebuildRunIsPossible(a, b, token, ttl);
    ForwardInjective(a, token, b, token);
  }

  // --- What a delete achieves ---

  // Events that happen in a store from a given instant on; time does not go back.
  ghost predicate Follows(st: Store, ttl: int, later: seq<Event>, now: int) {
    && AllPossible(st, ttl, later)
    && (forall n :: 0 <= n < |later| ==> now <= later[n].now)
    && (forall m, n :: 0 <= m < n < |later| ==> later[m].now <= later[n].now)
  }

  predicate Saves(e: Event, id: string, token: string) {
    e.op.Save? && e.op.id == id && e.op.token == token
  }

  ghost predicate NotSaved(later: seq<Event>, id: string, token: string) {
    forall n :: 0 <= n < |later| ==> !Saves(later[n], id, token)
  }

  // The n-th event is a lookup of the token that answers id.
  ghost predicate NamesAt(st: Store, ttl: int, later: seq<Event>, n: nat, id: string, token: string) {
    && n < |later| && later[n].op.Lookup? && later[n].op.token == token
    && Answers(After(st, ttl, later[..n]), ttl, later[n], id)
  }

  predicate Answers(st: Store, ttl: int, e: Event, id: string) {
    e.op.Lookup? && LookupSpec(st, ttl, e.op.token, e.now, e.op.chosen, e.op.f).1 == Found(id)
  }

  // Without a new save no later lookup of the token names id.
  ghost predicate NeverNamed(st: Store, ttl: int, id: string, token: string, now: int) {
    forall later: seq<Event>, n: nat ::
      Follows(st, ttl, later, now) && NotSaved(later, id, token) ==> !NamesAt(st, ttl, later, n, id, token)
  }

  // The live reverse entry says that id holds the token.
  predicate LiveNames(st: Store, id: string, token: string, now: int) {
    Live(st, Reverse(token), now) && st[Reverse(token)].value == id
  }

  // No live entry says so, neither the reverse nor the forward one.
  predicate Gone(st: Store, id: string, token: string, now: int) {
    !Live(st, Forward(id, token), now) && !LiveNames(st, id, token, now)
  }

  lemma StepIsSound(st: Store, ttl: int, e: Event)
    requires Sound(st) && Possible(st, e)
    ensures Sound(Apply(st, ttl, e))
  {
    KeysAreDistinct();
    match e.op {
      case Save(id, token, f) => assert IsForward(Forward(id, token), id, token);
      case Lookup(token, chosen, f) => LookupAnswers(st, ttl, token, e.now, chosen, f);
      case Delete(id, token, f) =>
        RemovalIsSound(st, {Forward(id, token)});
        RemovalIsSound(st - {Forward(id, token)}, {Reverse(token)});
      case DeleteAll(id, keys, f) => RemovalIsSound(st, Removed(keys, f));
      case Other(key, entry) =>
    }
  }

  lemma {:induction false} RunIsSound(start: Store, ttl: int, run: seq<Event>)
    requires Sound(start) && AllPossible(start, ttl, run)
    ensures Sound(After(start, ttl, run))
  {
    if run != [] {
      PossiblePrefix(start, ttl, run);
      RunIsSound(start, ttl, run[..|run| - 1]);
      StepIsSound(After(start, ttl, run[..|run| - 1]), ttl, run[|run| - 1]);
    }
  }

  // What is gone stays gone, and is not answered.
  lemma StepKeepsGone(st: Store, ttl: int, e: Event, id: string, token: string, now: int)
    requires Sound(st) && Possible(st, e) && Clean(id) && Clean(token)
    requires Gone(st, id, token, now) && now <= e.now && !Saves(e, id, token)
    ensures Gone(Apply(st, ttl, e), id, token, e.now)
    ensures e.op.Lookup? && e.op.token == token ==> !Answers(st, ttl, e, id)
  {
    KeysAreDistinct();
    if e.op.Lookup? {
      LookupAnswers(st, ttl, e.op.token, e.now, e.op.chosen, e.op.f);
    }
  }

  lemma {:induction false} StaysGone(st: Store, ttl: int, later: seq<Event>, id: string, token: string, now: int, n: nat)
    requires Sound(st) && Clean(id) && Clean(token) && Gone(st, id, token, now)
    requires Follows(st, ttl, later, now) && NotSaved(later, id, token) && n <= |later|
    ensures Sound(After(st, ttl, later[..n]))
    ensures Gone(After(st, ttl, later[..n]), id, token, if n == 0 then now else later[n - 1].now)
  {
    if n == 0 {
      assert later[..0] == [];
    } else {
      StaysGone(st, ttl, later, id, token, now, n - 1);
      assert PossibleAt(st, ttl, later, n - 1);
      AfterOneMore(st, ttl, later, n - 1);
      StepIsSound(After(st, ttl, later[..n - 1]), ttl, later[n - 1]);
      StepKeepsGone(After(st, ttl, later[..n - 1]), ttl, later[n - 1], id, token, if n == 1 then now else later[n - 2].now);
    }
  }

  lemma GoneIsNeverNamed(st: Store, ttl: int, id: string, token: string, now: int)
    requires Sound(st) && Clean(id) && Clean(token) && Gone(st, id, token, now)
    ensures NeverNamed(st, ttl, id, token, now)
  {
    forall later: seq<Event>, n: nat | Follows(st, ttl, later, now) && NotSaved(later, id, token)
      ensures !NamesAt(st, ttl, later, n, id, token)
    {
      if n < |later| {
        StaysGone(st, ttl, later, id, token, now, n);
        assert PossibleAt(st, ttl, later, n);
        StepKeepsGone(After(st, ttl, later[..n]), ttl, later[n], id, token, if n == 0 then now else later[n - 1].now);
      }
    }
  }

  // A live reverse entry is what the next lookup answers.
  lemma ReverseIsNamed(st: Store, ttl: int, id: string, token: string, now: int)
    requires Clean(token) && LiveNames(st, id, token, now)
    ensures !NeverNamed(st, ttl, id, token, now)
  {
    var keys := TokenKeys(st, token, now);
    var chosen := "";
    if keys != {} {
      chosen :| chosen in keys;
    }
    var later := [Event(Lookup(token, chosen, NO_FAULTS), now)];
    assert later[..0] == [];
    assert PossibleAt(st, ttl, later, 0);
    assert Follows(st, ttl, later, now) && NotSaved(later, id, token);
    assert NamesAt(st, ttl, later, 0, id, token);
  }

  // A live forward entry can still be answered: once another match has taken the reverse
  // entry and given it back.
  lemma ForwardCanBeNamed(st: Store, ttl: int, id: string, token: string, now: int)
    requires Clean(id) && Clean(token) && token != "" && Live(st, Forward(id, token), now)
    ensures !NeverNamed(st, ttl, id, token, now)
  {
    var other := id + "x";
    assert Clean(other) && other != id;
    ForwardInjective(id, token, other, token);
    var left := st - {Forward(other, token), Reverse(token)};
    SaveThenDelete(st, ttl, other, token, now);
    LookupRebuilds(left, ttl, id, token, now);
    ForwardIsFound(left, id, token, now);
    var later := [Event(Save(other, token, NO_FAULTS), now), Event(Delete(other, token, NO_FAULTS), now),
                  Event(Lookup(token, Forward(id, token), NO_FAULTS), now)];
    assert later[..0] == [];
    AfterOneMore(st, ttl, later, 0);
    AfterOneMore(st, ttl, later, 1);
    assert After(st, ttl, later[..2]) == left;
    assert PossibleAt(st, ttl, later, 0) && PossibleAt(st, ttl, later, 1) && PossibleAt(st, ttl, later, 2);
    assert Follows(st, ttl, later, now) && NotSaved(later, id, token);
    assert NamesAt(st, ttl, later, 2, id, token);
  }

  // In any state of the store, however it came about: no lookup will name id for the token
  // again before a new save if and only if neither a live forward entry nor a live reverse
  // entry says so.
  lemma NeverNamedIffGone(st: Store, ttl: int, id: string, token: string, now: int)
    requires Sound(st) && Clean(id) && Clean(token) && token != ""
    ensures NeverNamed(st, ttl, id, token, now) <==> Gone(st, id, token, now)
  {
    if Gone(st, id, token, now) {
      GoneIsNeverNamed(st, ttl, id, token, now);
    } else if Live(st, Forward(id, token), now) {
      ForwardCanBeNamed(st, ttl, id, token, now);
    } else {
      ReverseIsNamed(st, ttl, id, token, now);
    }
  }

  // An undisturbed delete of the token, or of all tokens of the match.
  predicate Deletes(op: Op, id: string, token: string) {
    op == Delete(id, token, NO_FAULTS) || (op.DeleteAll? && op.id == id && op.f == NO_FAULTS)
  }

  lemma AfterDelete(st: Store, ttl: int, del: Event, id: string, token: string)
    requires Sound(st) && Clean(id) && Clean(token) && Possible(st, del) && Deletes(del.op, id, token)
    ensures var st' := Apply(st, ttl, del);
            && !Live(st', Forward(id, token), del.now)
            && (LiveNames(st', id, token, del.now) <==>
                 !Live(st, Forward(id, token), del.now) && LiveNames(st, id, token, del.now))
  {
    KeysAreDistinct();
    if del.op.DeleteAll? {
      DeleteAllRemoves(st, id, del.now, del.op.keys);
    }
  }

  // After any run, a delete keeps every later lookup of the token from naming the match,
  // until it is saved for it again, if and only if at the delete its forward entry is live
  // or no live reverse entry names the match.
  lemma DeletedForGood(start: Store, ttl: int, run: seq<Event>, del: Event, id: string, token: string)
    requires IsRun(start, ttl, run) && Possible(After(start, ttl, run), del)
    requires Clean(id) && Clean(token) && Deletes(del.op, id, token)
    ensures var st := After(start, ttl, run);
            NeverNamed(Apply(st, ttl, del), ttl, id, token, del.now) <==>
            Live(st, Forward(id, token), del.now) || !LiveNames(st, id, token, del.now)
  {
    KeysAreDistinct();
    RunIsSound(start, ttl, run);
    var st := After(start, ttl, run);
    var st' := Apply(st, ttl, del);
    StepIsSound(st, ttl, del);
    AfterDelete(st, ttl, del, id, token);
    if LiveNames(st', id, token, del.now) {
      ReverseIsNamed(st', ttl, id, token, del.now);
    } else {
      GoneIsNeverNamed(st', ttl, id, token, del.now);
    }
  }

  // A delete can come too late: after the rebuild run, once the forward entry has expired,
  // deleting the token or all tokens of the match changes nothing, and the lookup goes on
  // naming it until the rebuilt reverse entry expires as well.
  lemma DeleteCanComeTooLate(a: string, b: string, token: string, ttl: int, now: int, keys: seq<string>, chosen: string)
    requires Clean(a) && Clean(b) && a != b && Clean(token) && token != "" && ttl > 1
    requires ttl <= now <= 2 * ttl - 2
    requires Lists(keys, MatchKeys(After(map[], ttl, RebuildRun(a, b, token, ttl)), a, now))
    ensures var run := RebuildRun(a, b, token, ttl);
            var st := After(map[], ttl, run);
            && IsRun(map[], ttl, run)
            && DeleteSpec(st, a, token, now, NO_FAULTS) == (st, Missing)
            && DeleteAllSpec(st, a, keys, NO_FAULTS) == (st, Done)
            && LookupSpec(st, ttl, token, now, chosen, NO_FAULTS).1 == Found(a)
  {
    RebuildRunStates(a, b, token, ttl);
    RebuildRunIsPossible(a, b, token, ttl);
    var st := After(map[], ttl, RebuildRun(a, b, token, ttl));
    KeysAreDistinct();
    assert !Matches(Reverse(token), "refresh:" + a + ":", "") by {
      assert Reverse(token)[7] == '_' && ("refresh:" + a + ":")[7] == ':';
    }
    assert forall k :: k !in MatchKeys(st, a, now);
    SomeElement(keys);
    assert st - {} == st;
  }
}
