// The refresh-token repository (db/redis/repository.go): forward keys
// refresh:<match>:<token> and a reverse key refresh_token:<token> in a key space that other
// repositories share, with expiry. Every repository call takes place at one instant.
module TokenIndex {
  import opened Common
  import opened Text

  // A stored value and the instant from which it is gone, if any.
  datatype Entry = Entry(value: string, expires: Option<int>)

  type Store = map<string, Entry>

  predicate Live(st: Store, key: string, now: int) {
    key in st && (st[key].expires.Some? ==> now < st[key].expires.value)
  }

  // Redis SET with a time to live; a non-positive one means no expiry.
  function Put(st: Store, key: string, value: string, ttl: int, now: int): Store {
    st[key := Entry(value, if ttl > 0 then Some(now + ttl) else None)]
  }

  // --- Keys ---

  predicate CleanChar(c: char) {
    c !in {':', '*', '?', '[', ']', '\\'}
  }

  // Match ids and tokens contain no separator and no glob character.
  predicate Clean(s: string) {
    forall i :: 0 <= i < |s| ==> CleanChar(s[i])
  }

  function Forward(id: string, token: string): string {
    "refresh:" + id + ":" + token
  }

  function Reverse(token: string): string {
    "refresh_token:" + token
  }

  // A key matches the glob prefix*suffix.
  predicate Matches(key: string, prefix: string, suffix: string) {
    |key| >= |prefix| + |suffix| && key[..|prefix|] == prefix && key[|key| - |suffix|..] == suffix
  }

  function TokenKeys(st: Store, token: string, now: int): (keys: set<string>) {
    set k | k in st && Live(st, k, now) && Matches(k, "refresh:", ":" + token)
  }

  function MatchKeys(st: Store, id: string, now: int): (keys: set<string>) {
    set k | k in st && Live(st, k, now) && Matches(k, "refresh:" + id + ":", "")
  }

  // Every key of this repository is a forward or a reverse key of clean parts; the other
  // keys of the shared key space begin differently.
  ghost predicate IsForward(key: string, id: string, token: string) {
    Clean(id) && Clean(token) && key == Forward(id, token)
  }

  ghost predicate OwnKey(key: string) {
    (exists id, token :: IsForward(key, id, token)) || (exists token :: Clean(token) && key == Reverse(token))
  }

  predicate Foreign(key: string) {
    !("refresh:" <= key) && !("refresh_token:" <= key)
  }

  ghost predicate WellKeyed(st: Store) {
    forall k :: k in st ==> Foreign(k) || OwnKey(k)
  }

  lemma CleanIsColonFree(s: string)
    requires Clean(s)
    ensures ColonFree(s)
  {
  }

  lemma ForwardSplits(id: string, token: string)
    requires Clean(id) && Clean(token)
    ensures Split(Forward(id, token)) == ["refresh", id, token]
  {
    CleanIsColonFree(id);
    CleanIsColonFree(token);
    SplitColonFree(token);
    SplitFirst(id, token);
    assert Forward(id, token) == "refresh" + ":" + (id + ":" + token);
    SplitFirst("refresh", id + ":" + token);
  }

  lemma ForwardInjective(id: string, token: string, id': string, token': string)
    requires Clean(id) && Clean(token) && Clean(id') && Clean(token')
    ensures Forward(id, token) == Forward(id', token') <==> id == id' && token == token'
    ensures forall t :: Forward(id, token) != Reverse(t)
  {
    ForwardSplits(id, token);
    ForwardSplits(id', token');
    assert Forward(id, token)[7] == ':';
    assert forall t :: Reverse(t)[7] == '_';
  }

  lemma ReverseInjective(token: string, token': string)
    ensures Reverse(token) == Reverse(token') <==> token == token'
    ensures Reverse(token)[7] == '_'
  {
    assert Reverse(token)[14..] == token && Reverse(token')[14..] == token';
  }

  // In a pair with clean second parts the last ':' is the separator.
  lemma LastColon(a: string, x: string, b: string, y: string)
    requires Clean(x) && Clean(y)
    requires a + ":" + x == b + ":" + y
    ensures a == b && x == y
  {
    var s, t := a + ":" + x, b + ":" + y;
    assert s[|a|] == ':' && t[|b|] == ':';
    assert forall i :: |a| < i < |s| ==> s[i] == x[i - |a| - 1] && CleanChar(s[i]);
    assert forall i :: |b| < i < |t| ==> t[i] == y[i - |b| - 1] && CleanChar(t[i]);
    assert |a| == |b|;
    assert s[..|a|] == a && t[..|a|] == b;
    assert s[|a| + 1..] == x && t[|a| + 1..] == y;
  }

  // A key of this repository that begins like a forward key is one.
  lemma BeginsForward(key: string)
    requires "refresh:" <= key && OwnKey(key)
    ensures exists id, token :: IsForward(key, id, token)
  {
    assert key[7] == ':';
    assert forall t :: Reverse(t)[7] == '_';
  }

  // The glob for a token finds exactly its forward keys.
  lemma TokenGlob(key: string, token: string)
    requires Clean(token) && (Foreign(key) || OwnKey(key))
    ensures Matches(key, "refresh:", ":" + token) <==> exists id :: IsForward(key, id, token)
  {
    if Matches(key, "refresh:", ":" + token) {
      TokenGlobIsSound(key, token);
    }
    if id :| IsForward(key, id, token) {
      assert key == "refresh:" + id + ":" + token;
      assert key[|key| - |token| - 1..] == ":" + token;
    }
  }

  lemma TokenGlobIsSound(key: string, token: string)
    requires Clean(token) && (Foreign(key) || OwnKey(key))
    requires Matches(key, "refresh:", ":" + token)
    ensures exists id :: IsForward(key, id, token)
  {
    assert "refresh:" <= key;
    BeginsForward(key);
    var id, t :| IsForward(key, id, t);
    var mid := key[8..|key| - |token| - 1];
    assert key == "refresh:" + (mid + ":" + token);
    assert key == "refresh:" + (id + ":" + t);
    assert mid + ":" + token == key[8..] == id + ":" + t;
    LastColon(mid, token, id, t);
  }

  // The glob for a match id finds exactly its forward keys.
  lemma MatchGlob(key: string, id: string)
    requires Clean(id) && (Foreign(key) || OwnKey(key))
    ensures Matches(key, "refresh:" + id + ":", "") <==> exists token :: IsForward(key, id, token)
  {
    if Matches(key, "refresh:" + id + ":", "") {
      MatchGlobIsSound(key, id);
    }
    if token :| IsForward(key, id, token) {
      assert key == "refresh:" + id + ":" + token;
      assert key[..|id| + 9] == "refresh:" + id + ":";
    }
  }

  lemma MatchGlobIsSound(key: string, id: string)
    requires Clean(id) && (Foreign(key) || OwnKey(key))
    requires Matches(key, "refresh:" + id + ":", "")
    ensures exists token :: IsForward(key, id, token)
  {
    var prefix := "refresh:" + id + ":";
    assert key[..8] == prefix[..8] == "refresh:";
    BeginsForward(key);
    var id', t :| IsForward(key, id', t);
    var rest := key[|prefix|..];
    assert key == prefix + rest;
    assert key == "refresh:" + (id + ":" + rest);
    assert key == "refresh:" + (id' + ":" + t);
    assert id + ":" + rest == key[8..] == id' + ":" + t;
    CleanIsColonFree(id);
    CleanIsColonFree(id');
    ColonCutsOnce(id, rest, id', t);
  }

  // --- The operations on values ---

  datatype Answer = Found(id: string) | Missing | Malformed | Mismatch | Done | Failed

  // What goes wrong during one call: keys and patterns that cannot be read, keys whose write
  // or delete reports an error, and keys whose write or delete does not take effect.
  datatype Faults = Faults(unread: set<string>, failing: set<string>, lost: set<string>)

  const NO_FAULTS := Faults({}, {}, {})

  // What reports success has taken effect; what reports an error may have.
  predicate Honest(f: Faults) {
    f.lost <= f.failing
  }

  function Write(st: Store, key: string, value: string, ttl: int, now: int, f: Faults): Store {
    if key in f.lost then st else Put(st, key, value, ttl, now)
  }

  function Remove(st: Store, key: string, f: Faults): Store {
    if key in f.lost then st else st - {key}
  }

  function TokenPattern(token: string): string {
    "refresh:*:" + token
  }

  function MatchPattern(id: string): string {
    "refresh:" + id + ":*"
  }

  function SaveSpec(st: Store, ttl: int, id: string, token: string, now: int, f: Faults): (Store, Answer) {
    var st' := Write(st, Forward(id, token), id, ttl, now, f);
    if Forward(id, token) in f.failing then (st', Failed)
    else (Write(st', Reverse(token), id, ttl, now, f), if Reverse(token) in f.failing then Failed else Done)
  }

  // chosen is the key that KEYS happens to list first. An error of the rebuilding write is ignored.
  function LookupSpec(st: Store, ttl: int, token: string, now: int, chosen: string, f: Faults): (Store, Answer) {
    if Reverse(token) in f.unread then (st, Failed)
    else if Live(st, Reverse(token), now) then (st, Found(st[Reverse(token)].value))
    else if TokenPattern(token) in f.unread then (st, Failed)
    else if TokenKeys(st, token, now) == {} then (st, Missing)
    else
      var parts := Split(chosen);
      if |parts| != 3 then (st, Malformed)
      else (Write(st, Reverse(token), parts[1], ttl, now, f), Found(parts[1]))
  }

  function DeleteSpec(st: Store, id: string, token: string, now: int, f: Faults): (Store, Answer) {
    var key := Forward(id, token);
    if key in f.unread then (st, Failed)
    else if !Live(st, key, now) then (st, Missing)
    else if st[key].value != id then (st, Mismatch)
    else
      var st' := Remove(st, key, f);
      if key in f.failing then (st', Failed)
      else (Remove(st', Reverse(token), f), if Reverse(token) in f.failing then Failed else Done)
  }

  // The reverse key that goes with a listed forward key.
  function ReverseOf(key: string): set<string> {
    var parts := Split(key);
    if |parts| == 3 then {Reverse(parts[2])} else {}
  }

  // What a delete of the listed keys removes: each key after its reverse key, up to the
  // first key whose delete reports an error.
  function Removed(keys: seq<string>, f: Faults): set<string> {
    if keys == [] then {}
    else
      var mine := (ReverseOf(keys[0]) + {keys[0]}) - f.lost;
      if keys[0] in f.failing then mine else mine + Removed(keys[1..], f)
  }

  function DeleteAllSpec(st: Store, id: string, keys: seq<string>, f: Faults): (Store, Answer) {
    if MatchPattern(id) in f.unread then (st, Failed)
    else (st - Removed(keys, f), if exists k :: k in keys && k in f.failing then Failed else Done)
  }

  // KEYS lists a set of keys in some order.
  ghost predicate Lists(keys: seq<string>, all: set<string>) {
    Distinct(keys) && forall k :: k in keys <==> k in all
  }

  // --- The repository ---

  class TokenRepository {
    const ttl: int
    var redis: Store

    constructor (ttl: int, redis: Store)
      ensures this.ttl == ttl && this.redis == redis
    {
      this.ttl, this.redis := ttl, redis;
    }

    method Set(key: string, value: string, now: int, f: Faults) returns (ok: bool)
      modifies this
      ensures redis == Write(old(redis), key, value, ttl, now, f) && ok == (key !in f.failing)
    {
      if key !in f.lost {
        redis := Put(redis, key, value, ttl, now);
      }
      return key !in f.failing;
    }

    method Del(key: string, f: Faults) returns (ok: bool)
      modifies this
      ensures redis == Remove(old(redis), key, f) && ok == (key !in f.failing)
    {
      if key !in f.lost {
        redis := redis - {key};
      }
      return key !in f.failing;
    }

    method Keys(keys: set<string>) returns (list: seq<string>)
      ensures Lists(list, keys)
    {
      list := [];
      var rest := keys;
      while rest != {}
        invariant rest <= keys
        invariant Distinct(list)
        invariant forall k :: k in list <==> k in keys && k !in rest
      {
        var k :| k in rest;
        list := list + [k];
        rest := rest - {k};
      }
    }

    method StoreReverseMapping(id: string, token: string, now: int, f: Faults) returns (ok: bool)
      modifies this
      ensures redis == Write(old(redis), Reverse(token), id, ttl, now, f) && ok == (Reverse(token) !in f.failing)
    {
      ok := Set(Reverse(token), id, now, f);
    }

    method SaveRefreshToken(id: string, token: string, now: int, f: Faults) returns (r: Answer)
      modifies this
      ensures (redis, r) == SaveSpec(old(redis), ttl, id, token, now, f)
    {
      var ok := Set(Forward(id, token), id, now, f);
      if !ok {
        return Failed;
      }
      ok := StoreReverseMapping(id, token, now, f);
      return if ok then Done else Failed;
    }

    method GetMatchIDByRefreshToken(token: string, now: int, f: Faults) returns (r: Answer)
      modifies this
      ensures exists chosen ::
                && (TokenKeys(old(redis), token, now) != {} ==> chosen in TokenKeys(old(redis), token, now))
                && (redis, r) == LookupSpec(old(redis), ttl, token, now, chosen, f)
    {
      var found := TokenKeys(redis, token, now);
      ghost var any: string := "";
      if found != {} {
        any :| any in found;
      }
      if Reverse(token) in f.unread {
        assert (redis, Failed) == LookupSpec(redis, ttl, token, now, any, f);
        return Failed;
      }
      if Live(redis, Reverse(token), now) {
        assert (redis, Found(redis[Reverse(token)].value)) == LookupSpec(redis, ttl, token, now, any, f);
        return Found(redis[Reverse(token)].value);
      }
      if TokenPattern(token) in f.unread {
        assert (redis, Failed) == LookupSpec(redis, ttl, token, now, any, f);
        return Failed;
      }
      var keys := Keys(found);
      if |keys| == 0 {
        assert forall k :: k !in found;
        assert (redis, Missing) == LookupSpec(redis, ttl, token, now, any, f);
        return Missing;
      }
      var parts := Split(keys[0]);
      assert keys[0] in found;
      if |parts| != 3 {
        return Malformed;
      }
      var _ := StoreReverseMapping(parts[1], token, now, f);
      return Found(parts[1]);
    }

    // The body of the loop over listed keys; an error of the first delete is ignored.
    method DelWithReverse(key: string, f: Faults) returns (ok: bool)
      modifies this
      ensures redis == old(redis) - ((ReverseOf(key) + {key}) - f.lost) && ok == (key !in f.failing)
    {
      var parts := Split(key);
      if |parts| == 3 {
        var _ := Del(Reverse(parts[2]), f);
      }
      ok := Del(key, f);
    }

    // The branch of DeleteRefreshToken for an empty token.
    method DeleteAllTokens(id: string, now: int, f: Faults) returns (r: Answer)
      modifies this
      ensures exists keys :: Lists(keys, MatchKeys(old(redis), id, now)) &&
                             (redis, r) == DeleteAllSpec(old(redis), id, keys, f)
    {
      var keys := Keys(MatchKeys(redis, id, now));
      if MatchPattern(id) in f.unread {
        assert (redis, Failed) == DeleteAllSpec(redis, id, keys, f);
        return Failed;
      }
      for i := 0 to |keys|
        invariant redis - Removed(keys[i..], f) == old(redis) - Removed(keys, f)
        invariant forall k :: k in keys[..i] ==> k !in f.failing
      {
        var key := keys[i];
        assert keys[i..][0] == key && keys[i..][1..] == keys[i + 1..];
        var ok := DelWithReverse(key, f);
        assert Removed(keys[i..], f) == if ok then ((ReverseOf(key) + {key}) - f.lost) + Removed(keys[i + 1..], f)
                                        else (ReverseOf(key) + {key}) - f.lost;
        if !ok {
          assert key in keys;
          assert (redis, Failed) == DeleteAllSpec(old(redis), id, keys, f);
          return Failed;
        }
        assert keys[..i + 1] == keys[..i] + [key];
      }
      assert keys[..|keys|] == keys && keys[|keys|..] == [];
      assert redis == redis - Removed(keys[|keys|..], f);
      assert (redis, Done) == DeleteAllSpec(old(redis), id, keys, f);
      return Done;
    }

    method DeleteRefreshToken(id: string, token: string, now: int, f: Faults) returns (r: Answer)
      modifies this
      ensures token == "" ==> exists keys :: Lists(keys, MatchKeys(old(redis), id, now)) &&
                                             (redis, r) == DeleteAllSpec(old(redis), id, keys, f)
      ensures token != "" ==> (redis, r) == DeleteSpec(old(redis), id, token, now, f)
    {
      if token == "" {
        r := DeleteAllTokens(id, now, f);
        return;
      }
      var key := Forward(id, token);
      if key in f.unread {
        return Failed;
      }
      if !Live(redis, key, now) {
        return Missing;
      }
      if redis[key].value == id {
        var ok := Del(key, f);
        if !ok {
          return Failed;
        }
        ok := Del(Reverse(token), f);
        if !ok {
          return Failed;
        }
      } else {
        return Mismatch;
      }
      return Done;
    }
  }

  // --- Runs ---

  datatype Op =
    | Save(id: string, token: string, f: Faults)
    | Lookup(token: string, chosen: string, f: Faults)
    | Delete(id: string, token: string, f: Faults)
    | DeleteAll(id: string, keys: seq<string>, f: Faults)
    | Other(key: string, entry: Option<Entry>)     // some other repository sets or removes a key

  datatype Event = Event(op: Op, now: int)

  function Apply(st: Store, ttl: int, e: Event): Store {
    match e.op
    case Save(id, token, f) => SaveSpec(st, ttl, id, token, e.now, f).0
    case Lookup(token, chosen, f) => LookupSpec(st, ttl, token, e.now, chosen, f).0
    case Delete(id, token, f) => DeleteSpec(st, id, token, e.now, f).0
    case DeleteAll(id, keys, f) => DeleteAllSpec(st, id, keys, f).0
    case Other(key, entry) => if entry.Some? then st[key := entry.value] else st - {key}
  }

  ghost predicate Possible(st: Store, e: Event) {
    match e.op
    case Save(id, token, f) => Clean(id) && Clean(token) && Honest(f)
    case Lookup(token, chosen, f) =>
      Clean(token) && Honest(f) && (TokenKeys(st, token, e.now) != {} ==> chosen in TokenKeys(st, token, e.now))
    case Delete(id, token, f) => Clean(id) && Clean(token) && token != "" && Honest(f)
    case DeleteAll(id, keys, f) => Clean(id) && Lists(keys, MatchKeys(st, id, e.now)) && Honest(f)
    case Other(key, _) => Foreign(key)
  }

  // The store after a run.
  function After(start: Store, ttl: int, run: seq<Event>): Store {
    if run == [] then start else Apply(After(start, ttl, run[..|run| - 1]), ttl, run[|run| - 1])
  }

  lemma AfterOneMore(start: Store, ttl: int, run: seq<Event>, n: nat)
    requires n < |run|
    ensures After(start, ttl, run[..n + 1]) == Apply(After(start, ttl, run[..n]), ttl, run[n])
  {
    assert run[..n + 1][..n] == run[..n];
  }

  ghost predicate PossibleAt(start: Store, ttl: int, run: seq<Event>, n: nat)
    requires n < |run|
  {
    Possible(After(start, ttl, run[..n]), run[n])
  }

  ghost predicate AllPossible(start: Store, ttl: int, run: seq<Event>) {
    forall n :: 0 <= n < |run| ==> PossibleAt(start, ttl, run, n)
  }

  // A run that starts without tokens.
  ghost predicate IsRun(start: Store, ttl: int, run: seq<Event>) {
    (forall k :: k in start ==> Foreign(k)) && AllPossible(start, ttl, run)
  }

  lemma PossiblePrefix(start: Store, ttl: int, run: seq<Event>)
    requires AllPossible(start, ttl, run) && run != []
    ensures AllPossible(start, ttl, run[..|run| - 1])
    ensures Possible(After(start, ttl, run[..|run| - 1]), run[|run| - 1])
  {
    var front := run[..|run| - 1];
    forall n: nat | n < |front| ensures PossibleAt(start, ttl, front, n) {
      assert PossibleAt(start, ttl, run, n);
      assert front[..n] == run[..n];
    }
    assert PossibleAt(start, ttl, run, |run| - 1);
  }

  // --- What a well-formed store looks like ---

  lemma KeysAreDistinct()
    ensures forall id, token, id', token' :: Clean(id) && Clean(token) && Clean(id') && Clean(token') ==>
              (Forward(id, token) == Forward(id', token') <==> id == id' && token == token')
    ensures forall id, token, t :: Forward(id, token) != Reverse(t)
    ensures forall t, t' :: Reverse(t) == Reverse(t') <==> t == t'
    ensures forall id, token :: !Foreign(Forward(id, token))
    ensures forall t :: !Foreign(Reverse(t))
  {
    forall id, token, id', token' | Clean(id) && Clean(token) && Clean(id') && Clean(token')
      ensures Forward(id, token) == Forward(id', token') <==> id == id' && token == token'
    {
      ForwardInjective(id, token, id', token');
    }
    forall id, token, t ensures Forward(id, token) != Reverse(t) {
      assert Forward(id, token)[7] == ':';
      ReverseInjective(t, t);
    }
    forall t, t' ensures Reverse(t) == Reverse(t') <==> t == t' {
      ReverseInjective(t, t');
    }
  }

  // Keys are well formed, and a forward key holds its own match id.
  ghost predicate Sound(st: Store) {
    && WellKeyed(st)
    && (forall id, token :: Clean(id) && Clean(token) && Forward(id, token) in st ==> st[Forward(id, token)].value == id)
  }

  // What a lookup answers in a store whose keys are well formed.
  lemma LookupAnswers(st: Store, ttl: int, token: string, now: int, chosen: string, f: Faults)
    requires WellKeyed(st) && Possible(st, Event(Lookup(token, chosen, f), now))
    ensures var (st', r) := LookupSpec(st, ttl, token, now, chosen, f);
            && (r == Failed <==> Reverse(token) in f.unread || (!Live(st, Reverse(token), now) && TokenPattern(token) in f.unread))
            && (!r.Found? ==> st' == st && (r == Failed || r == Missing))
            && (r.Found? && Live(st, Reverse(token), now) ==> r.id == st[Reverse(token)].value && st' == st)
            && (r != Failed && !Live(st, Reverse(token), now) ==>
                  (r.Found? <==> exists id :: Clean(id) && Live(st, Forward(id, token), now)))
            && (r.Found? && !Live(st, Reverse(token), now) ==>
                  && Clean(r.id) && Live(st, Forward(r.id, token), now)
                  && st' == Write(st, Reverse(token), r.id, ttl, now, f))
  {
    var keys := TokenKeys(st, token, now);
    if keys == {} {
      forall id | Clean(id) ensures !Live(st, Forward(id, token), now) {
        if Live(st, Forward(id, token), now) {
          ForwardIsFound(st, id, token, now);
        }
      }
    } else {
      TokenGlob(chosen, token);
      var id :| IsForward(chosen, id, token);
      ForwardSplits(id, token);
    }
  }

  lemma ForwardIsFound(st: Store, id: string, token: string, now: int)
    requires Clean(id) && Clean(token) && Live(st, Forward(id, token), now)
    ensures Forward(id, token) in TokenKeys(st, token, now)
    ensures Forward(id, token) in MatchKeys(st, id, now)
  {
    assert IsForward(Forward(id, token), id, token);
    TokenGlob(Forward(id, token), token);
    MatchGlob(Forward(id, token), id);
  }

  // What a save reports and leaves behind: success means that both entries are written.
  lemma SaveAnswers(st: Store, ttl: int, id: string, token: string, now: int, f: Faults)
    requires Clean(id) && Clean(token) && Honest(f)
    ensures var (st', r) := SaveSpec(st, ttl, id, token, now, f);
            var entry := Entry(id, if ttl > 0 then Some(now + ttl) else None);
            && (r == Done <==> Forward(id, token) !in f.failing && Reverse(token) !in f.failing)
            && (r != Done ==> r == Failed)
            && (r == Done ==> st' == st[Forward(id, token) := entry][Reverse(token) := entry])
            && (forall k :: k != Forward(id, token) && k != Reverse(token) ==>
                  (k in st' <==> k in st) && (k in st ==> st'[k] == st[k]))
  {
  }

  // What a delete of one token reports and leaves behind: it is missing exactly when the
  // match does not hold the token, and success means that both entries are gone.
  lemma DeleteAnswers(st: Store, id: string, token: string, now: int, f: Faults)
    requires Sound(st) && Clean(id) && Clean(token) && Honest(f)
    ensures var (st', r) := DeleteSpec(st, id, token, now, f);
            var key := Forward(id, token);
            && (r == Missing <==> key !in f.unread && !Live(st, key, now))
            && (r == Failed <==> key in f.unread || (Live(st, key, now) && (key in f.failing || Reverse(token) in f.failing)))
            && (r != Missing && r != Failed ==> r == Done && st' == st - {key, Reverse(token)})
            && (r == Missing ==> st' == st)
            && (forall k :: k != key && k != Reverse(token) ==> (k in st' <==> k in st) && (k in st ==> st'[k] == st[k]))
  {
    KeysAreDistinct();
  }

  // Whatever the token stood for before, its latest save answers until it expires.
  lemma LatestSaveAnswers(st: Store, ttl: int, id: string, token: string, saved: int, now: int, chosen: string)
    requires ttl > 0 ==> now < saved + ttl
    ensures var (st', r) := SaveSpec(st, ttl, id, token, saved, NO_FAULTS);
            r == Done && LookupSpec(st', ttl, token, now, chosen, NO_FAULTS) == (st', Found(id))
  {
  }

  // --- What a delete of all tokens of a match removes ---

  lemma ListedKeys(st: Store, id: string, now: int, keys: seq<string>)
    requires WellKeyed(st) && Clean(id) && Lists(keys, MatchKeys(st, id, now))
    ensures forall k :: k in keys ==> exists token :: IsForward(k, id, token)
    ensures forall token :: Clean(token) ==> (Forward(id, token) in keys <==> Live(st, Forward(id, token), now))
  {
    forall k | k in keys ensures exists token :: IsForward(k, id, token) {
      assert k in MatchKeys(st, id, now);
      MatchGlob(k, id);
    }
    forall token | Clean(token) ensures Forward(id, token) in keys <==> Live(st, Forward(id, token), now) {
      if Live(st, Forward(id, token), now) {
        ForwardIsFound(st, id, token, now);
      }
      assert Forward(id, token) in keys <==> Forward(id, token) in MatchKeys(st, id, now);
    }
  }

  ghost predicate AreForward(keys: seq<string>, id: string) {
    Clean(id) && forall k :: k in keys ==> exists token :: IsForward(k, id, token)
  }

  lemma FirstKey(keys: seq<string>, id: string) returns (token: string)
    requires AreForward(keys, id) && keys != []
    ensures IsForward(keys[0], id, token) && ReverseOf(keys[0]) == {Reverse(token)}
    ensures AreForward(keys[1..], id) && keys == [keys[0]] + keys[1..]
  {
    assert forall k :: k in keys[1..] ==> k in keys;
    assert keys[0] in keys;
    token :| IsForward(keys[0], id, token);
    ForwardSplits(id, token);
  }

  lemma {:induction false} RemovedIsListed(keys: seq<string>, f: Faults, id: string, k: string)
    requires AreForward(keys, id) && k in Removed(keys, f)
    ensures k in keys || exists token :: Clean(token) && Forward(id, token) in keys && k == Reverse(token)
  {
    var t := FirstKey(keys, id);
    if k != keys[0] && k != Reverse(t) {
      RemovedIsListed(keys[1..], f, id, k);
    }
  }

  lemma {:induction false} RemovedTakesReverse(keys: seq<string>, f: Faults, id: string, token: string)
    requires AreForward(keys, id) && Clean(token) && Forward(id, token) in Removed(keys, f)
    ensures Reverse(token) in f.lost || Reverse(token) in Removed(keys, f)
  {
    var t := FirstKey(keys, id);
    ForwardInjective(id, token, id, t);
    if t != token {
      RemovedTakesReverse(keys[1..], f, id, token);
    }
  }

  lemma {:induction false} UndisturbedRemovesAll(keys: seq<string>)
    ensures forall k :: k in keys ==> k in Removed(keys, NO_FAULTS)
  {
    if keys != [] {
      UndisturbedRemovesAll(keys[1..]);
      assert keys == [keys[0]] + keys[1..];
    }
  }

  // Only listed keys and their reverse keys are removed, and a listed key that is removed
  // takes its reverse key with it, if that delete is not lost.
  lemma RemovedMeaning(keys: seq<string>, f: Faults, id: string)
    requires AreForward(keys, id)
    ensures forall other, token :: Clean(other) && Clean(token) && Forward(other, token) in Removed(keys, f) ==>
              other == id && Forward(id, token) in keys && (Reverse(token) in f.lost || Reverse(token) in Removed(keys, f))
    ensures forall token :: Clean(token) && Reverse(token) in Removed(keys, f) ==> Forward(id, token) in keys
    ensures forall k :: Foreign(k) ==> k !in Removed(keys, f)
  {
    KeysAreDistinct();
    forall other, token | Clean(other) && Clean(token) && Forward(other, token) in Removed(keys, f)
      ensures other == id && Forward(id, token) in keys && (Reverse(token) in f.lost || Reverse(token) in Removed(keys, f))
    {
      RemovedIsListed(keys, f, id, Forward(other, token));
      var t :| IsForward(Forward(other, token), id, t);
      RemovedTakesReverse(keys, f, id, token);
    }
    forall token | Clean(token) && Reverse(token) in Removed(keys, f) ensures Forward(id, token) in keys {
      RemovedIsListed(keys, f, id, Reverse(token));
      assert forall t :: !IsForward(Reverse(token), id, t);
    }
    forall k | Foreign(k) ensures k !in Removed(keys, f) {
      if k in Removed(keys, f) {
        RemovedIsListed(keys, f, id, k);
      }
    }
  }

  // An undisturbed delete of all tokens leaves no forward entry of the match alive, takes
  // the reverse entries of these tokens along, and touches nothing else.
  lemma DeleteAllRemoves(st: Store, id: string, now: int, keys: seq<string>)
    requires WellKeyed(st) && Clean(id) && Lists(keys, MatchKeys(st, id, now))
    ensures var st' := DeleteAllSpec(st, id, keys, NO_FAULTS).0;
            && (forall k :: k in st' ==> k in st && st'[k] == st[k])
            && (forall token :: Clean(token) ==> !Live(st', Forward(id, token), now))
            && (forall token :: Clean(token) ==>
                  (Reverse(token) in st' <==> Reverse(token) in st && !Live(st, Forward(id, token), now)))
            && (forall other, token :: other != id && Clean(other) && Clean(token) ==>
                  (Forward(other, token) in st' <==> Forward(other, token) in st))
            && (forall k :: Foreign(k) ==> (k in st' <==> k in st))
  {
    ListedKeys(st, id, now, keys);
    RemovedMeaning(keys, NO_FAULTS, id);
    UndisturbedRemovesAll(keys);
  }

  // --- Without expiry: the repository is a set of (match, token) pairs ---

  type Pairs = set<(string, string)>

  function ApplyToPairs(pairs: Pairs, op: Op): Pairs {
    match op
    case Save(id, token, f) => if Forward(id, token) in f.lost then pairs else pairs + {(id, token)}
    case Delete(id, token, f) =>
      if Forward(id, token) in f.unread || Forward(id, token) in f.lost then pairs else pairs - {(id, token)}
    case DeleteAll(id, keys, f) =>
      if MatchPattern(id) in f.unread then pairs
      else set p | p in pairs && !(p.0 == id && Forward(id, p.1) in Removed(keys, f))
    case _ => pairs
  }

  function PairsAfter(run: seq<Event>): Pairs {
    if run == [] then {} else ApplyToPairs(PairsAfter(run[..|run| - 1]), run[|run| - 1].op)
  }

  ghost predicate Names(st: Store, token: string, id: string) {
    Reverse(token) in st && st[Reverse(token)].value == id
  }

  // The forward keys are exactly the pairs, and every reverse key points at one of them.
  ghost predicate Agrees(st: Store, pairs: Pairs) {
    && Sound(st)
    && (forall k :: k in st && !Foreign(k) ==> st[k].expires.None?)
    && (forall id, token :: Clean(id) && Clean(token) ==> (Forward(id, token) in st <==> (id, token) in pairs))
    && (forall token :: Clean(token) && Reverse(token) in st ==>
          Clean(st[Reverse(token)].value) && (st[Reverse(token)].value, token) in pairs)
  }

  // A delete that removes a forward key leaves no reverse key that names its match: the
  // forward delete does not report an error although it took effect, and the reverse delete
  // is not lost. Everything but deletes is tidy.
  ghost predicate Tidy(st: Store, op: Op) {
    match op
    case Delete(id, token, f) =>
      var key := Forward(id, token);
      key in st && key !in f.unread && key !in f.lost && Names(st, token, id) ==> key !in f.failing && Reverse(token) !in f.lost
    case DeleteAll(id, keys, f) =>
      MatchPattern(id) in f.unread ||
      forall token :: Clean(token) && Forward(id, token) in Removed(keys, f) && Names(st, token, id) ==> Reverse(token) !in f.lost
    case _ => true
  }

  lemma PutForwardAgrees(st: Store, pairs: Pairs, ttl: int, id: string, token: string, now: int)
    requires Agrees(st, pairs) && ttl <= 0 && Clean(id) && Clean(token)
    ensures Agrees(Put(st, Forward(id, token), id, ttl, now), pairs + {(id, token)})
  {
    KeysAreDistinct();
    assert IsForward(Forward(id, token), id, token);
  }

  lemma PutReverseAgrees(st: Store, pairs: Pairs, ttl: int, id: string, token: string, now: int)
    requires Agrees(st, pairs) && ttl <= 0 && Clean(id) && Clean(token) && (id, token) in pairs
    ensures Agrees(Put(st, Reverse(token), id, ttl, now), pairs)
  {
    KeysAreDistinct();
  }

  lemma SaveAgrees(st: Store, pairs: Pairs, ttl: int, id: string, token: string, now: int, f: Faults)
    requires Agrees(st, pairs) && ttl <= 0 && Possible(st, Event(Save(id, token, f), now))
    ensures Agrees(SaveSpec(st, ttl, id, token, now, f).0, ApplyToPairs(pairs, Save(id, token, f)))
  {
    PutForwardAgrees(st, pairs, ttl, id, token, now);
    PutReverseAgrees(Put(st, Forward(id, token), id, ttl, now), pairs + {(id, token)}, ttl, id, token, now);
  }

  lemma LiveIsPresent(st: Store, pairs: Pairs, token: string, now: int)
    requires Agrees(st, pairs) && Clean(token)
    ensures forall id :: Clean(id) ==> (Live(st, Forward(id, token), now) <==> (id, token) in pairs)
    ensures Live(st, Reverse(token), now) ==> Clean(st[Reverse(token)].value) && (st[Reverse(token)].value, token) in pairs
  {
  }

  lemma LookupAgrees(st: Store, pairs: Pairs, ttl: int, token: string, now: int, chosen: string, f: Faults)
    requires Agrees(st, pairs) && ttl <= 0 && Possible(st, Event(Lookup(token, chosen, f), now))
    ensures var (st', r) := LookupSpec(st, ttl, token, now, chosen, f);
            && Agrees(st', pairs)
            && (r != Failed ==> (r.Found? <==> exists id :: Clean(id) && (id, token) in pairs))
            && (r.Found? ==> (r.id, token) in pairs)
            && (!r.Found? ==> r == Missing || r == Failed)
  {
    LookupAnswers(st, ttl, token, now, chosen, f);
    LiveIsPresent(st, pairs, token, now);
    var r := LookupSpec(st, ttl, token, now, chosen, f).1;
    if r.Found? && !Live(st, Reverse(token), now) {
      PutReverseAgrees(st, pairs, ttl, r.id, token, now);
    }
  }

  lemma RemovalIsSound(st: Store, keys: set<string>)
    requires Sound(st)
    ensures Sound(st - keys)
  {
  }

  lemma TidyDeleteAgrees(st: Store, pairs: Pairs, id: string, token: string, now: int, f: Faults)
    requires Agrees(st, pairs) && Possible(st, Event(Delete(id, token, f), now)) && Tidy(st, Delete(id, token, f))
    ensures Agrees(DeleteSpec(st, id, token, now, f).0, ApplyToPairs(pairs, Delete(id, token, f)))
  {
    KeysAreDistinct();
    var st' := DeleteSpec(st, id, token, now, f).0;
    RemovalIsSound(st, {Forward(id, token)});
    RemovalIsSound(st - {Forward(id, token)}, {Reverse(token)});
    assert Forward(id, token) in st' || !Names(st', token, id) || (id, token) in ApplyToPairs(pairs, Delete(id, token, f));
  }

  lemma UntidyDeleteDisagrees(st: Store, pairs: Pairs, id: string, token: string, now: int, f: Faults)
    requires Agrees(st, pairs) && Possible(st, Event(Delete(id, token, f), now)) && !Tidy(st, Delete(id, token, f))
    ensures !Agrees(DeleteSpec(st, id, token, now, f).0, ApplyToPairs(pairs, Delete(id, token, f)))
  {
    ReverseInjective(token, token);
    assert Forward(id, token)[7] == ':';
    assert Names(DeleteSpec(st, id, token, now, f).0, token, id);
    assert (id, token) !in ApplyToPairs(pairs, Delete(id, token, f));
  }

  lemma DeleteAgrees(st: Store, pairs: Pairs, id: string, token: string, now: int, f: Faults)
    requires Agrees(st, pairs) && Possible(st, Event(Delete(id, token, f), now))
    ensures Agrees(DeleteSpec(st, id, token, now, f).0, ApplyToPairs(pairs, Delete(id, token, f)))
            <==> Tidy(st, Delete(id, token, f))
  {
    if Tidy(st, Delete(id, token, f)) {
      TidyDeleteAgrees(st, pairs, id, token, now, f);
    } else {
      UntidyDeleteDisagrees(st, pairs, id, token, now, f);
    }
  }

  lemma DeleteAllAgrees(st: Store, pairs: Pairs, id: string, keys: seq<string>, now: int, f: Faults)
    requires Agrees(st, pairs) && Possible(st, Event(DeleteAll(id, keys, f), now))
    ensures Agrees(DeleteAllSpec(st, id, keys, f).0, ApplyToPairs(pairs, DeleteAll(id, keys, f)))
            <==> Tidy(st, DeleteAll(id, keys, f))
  {
    ListedKeys(st, id, now, keys);
    RemovedMeaning(keys, f, id);
    RemovalIsSound(st, Removed(keys, f));
    var st', pairs' := DeleteAllSpec(st, id, keys, f).0, ApplyToPairs(pairs, DeleteAll(id, keys, f));
    if MatchPattern(id) !in f.unread {
      DeleteAllPairs(st, pairs, id, keys, f);
      if token :| Clean(token) && Forward(id, token) in Removed(keys, f) && Names(st, token, id) && Reverse(token) in f.lost {
        NeverLost(keys, f, Reverse(token));
        assert Names(st', token, id) && (id, token) !in pairs';
      }
    }
  }

  lemma {:induction false} NeverLost(keys: seq<string>, f: Faults, key: string)
    requires key in f.lost
    ensures key !in Removed(keys, f)
  {
    if keys != [] {
      NeverLost(keys[1..], f, key);
    }
  }

  lemma DeleteAllPairs(st: Store, pairs: Pairs, id: string, keys: seq<string>, f: Faults)
    requires Agrees(st, pairs) && Clean(id) && MatchPattern(id) !in f.unread
    requires forall other, token :: Clean(other) && Clean(token) && Forward(other, token) in Removed(keys, f) ==> other == id
    ensures var st', pairs' := DeleteAllSpec(st, id, keys, f).0, ApplyToPairs(pairs, DeleteAll(id, keys, f));
            forall other, token :: Clean(other) && Clean(token) ==> (Forward(other, token) in st' <==> (other, token) in pairs')
  {
  }

  lemma OtherAgrees(st: Store, pairs: Pairs, key: string, entry: Option<Entry>)
    requires Agrees(st, pairs) && Foreign(key)
    ensures Agrees(if entry.Some? then st[key := entry.value] else st - {key}, pairs)
  {
    KeysAreDistinct();
  }

  // One operation keeps store and pairs in agreement exactly when it is tidy.
  lemma StepAgrees(st: Store, pairs: Pairs, ttl: int, e: Event)
    requires Agrees(st, pairs) && ttl <= 0 && Possible(st, e)
    ensures Agrees(Apply(st, ttl, e), ApplyToPairs(pairs, e.op)) <==> Tidy(st, e.op)
  {
    match e.op {
      case Save(id, token, f) => SaveAgrees(st, pairs, ttl, id, token, e.now, f);
      case Lookup(token, chosen, f) => LookupAgrees(st, pairs, ttl, token, e.now, chosen, f);
      case Delete(id, token, f) => DeleteAgrees(st, pairs, id, token, e.now, f);
      case DeleteAll(id, keys, f) => DeleteAllAgrees(st, pairs, id, keys, e.now, f);
      case Other(key, entry) => OtherAgrees(st, pairs, key, entry);
    }
  }

  ghost predicate AgreesAt(start: Store, ttl: int, run: seq<Event>, n: nat)
    requires n <= |run|
  {
    Agrees(After(start, ttl, run[..n]), PairsAfter(run[..n]))
  }

  ghost predicate TidyAt(start: Store, ttl: int, run: seq<Event>, n: nat)
    requires n < |run|
  {
    Tidy(After(start, ttl, run[..n]), run[n].op)
  }

  lemma StepAgreesAt(start: Store, ttl: int, run: seq<Event>, n: nat)
    requires AllPossible(start, ttl, run) && ttl <= 0 && n < |run| && AgreesAt(start, ttl, run, n)
    ensures AgreesAt(start, ttl, run, n + 1) <==> TidyAt(start, ttl, run, n)
  {
    assert PossibleAt(start, ttl, run, n);
    assert run[..n + 1][..n] == run[..n];
    StepAgrees(After(start, ttl, run[..n]), PairsAfter(run[..n]), ttl, run[n]);
  }

  lemma StartAgrees(start: Store, ttl: int, run: seq<Event>)
    requires IsRun(start, ttl, run)
    ensures AgreesAt(start, ttl, run, 0)
  {
    KeysAreDistinct();
    assert run[..0] == [];
  }

  // Without expiry, with any failures of reads, writes and deletes: store and pairs agree all
  // along a run if and only if every operation of the run is tidy.
  lemma {:induction false} IndexAgrees(start: Store, ttl: int, run: seq<Event>, n: nat)
    requires IsRun(start, ttl, run) && ttl <= 0 && n <= |run|
    ensures (forall m: nat :: m <= n ==> AgreesAt(start, ttl, run, m)) <==> forall m: nat :: m < n ==> TidyAt(start, ttl, run, m)
  {
    if n == 0 {
      StartAgrees(start, ttl, run);
    } else {
      IndexAgrees(start, ttl, run, n - 1);
      if forall m: nat :: m <= n - 1 ==> AgreesAt(start, ttl, run, m) {
        StepAgreesAt(start, ttl, run, n - 1);
      }
    }
  }

  // Without expiry, after any tidy run of saves, lookups, deletes and writes of other
  // repositories, a lookup that can read succeeds exactly when some match still holds the
  // token, and then it names such a match; whichever key the scan happens to list first.
  lemma LookupFindsAHolder(start: Store, ttl: int, run: seq<Event>, token: string, now: int, chosen: string, f: Faults)
    requires IsRun(start, ttl, run) && ttl <= 0
    requires forall m: nat :: m < |run| ==> TidyAt(start, ttl, run, m)
    requires Possible(After(start, ttl, run), Event(Lookup(token, chosen, f), now))
    ensures var r := LookupSpec(After(start, ttl, run), ttl, token, now, chosen, f).1;
            && (r.Found? ==> (r.id, token) in PairsAfter(run))
            && (r == Missing ==> forall id :: Clean(id) ==> (id, token) !in PairsAfter(run))
            && (!r.Found? && r != Missing ==> r == Failed)
  {
    IndexAgrees(start, ttl, run, |run|);
    assert run[..|run|] == run;
    assert AgreesAt(start, ttl, run, |run|);
    LookupAgrees(After(start, ttl, run), PairsAfter(run), ttl, token, now, chosen, f);
  }
}
