// The retry loop of the Premierliga client (http/client/client.go): error classification,
// attempts, and exponential backoff in int64 nanoseconds.
module Retry {
  import opened Common

  datatype Error =
    | ContextDone           // context.Canceled or context.DeadlineExceeded
    | NotFound              // the caller's notFoundErr
    | Unavailable           // wraps ErrSourceUnavailable
    | BadStatus(code: int)  // StatusError
    | BadRequest            // the request could not be built
    | BadBody               // the response could not be decoded

  // Reading and decoding the body of a good response.
  datatype Body = Decodes | Garbled | Interrupted   // Interrupted: the context ended while reading

  // What one HTTP exchange comes to.
  datatype Reply =
    | NoRequest
    | TransportError(contextDone: bool)
    | Response(status: int, body: Body)

  // postOnce: None is success. mapsNotFound says whether the caller named a not-found error.
  function PostOnce(reply: Reply, mapsNotFound: bool): Option<Error> {
    match reply
    case NoRequest => Some(BadRequest)
    case TransportError(contextDone) => Some(if contextDone then ContextDone else Unavailable)
    case Response(status, body) =>
      if status < 200 || status >= 300 then
        if status == 404 then Some(if mapsNotFound then NotFound else Unavailable)
        else if status >= 500 || status == 429 then Some(Unavailable)
        else Some(BadStatus(status))
      else match body
           case Decodes => None
           case Garbled => Some(BadBody)
           case Interrupted => Some(ContextDone)
  }

  predicate Good(reply: Reply) {
    reply.Response? && 200 <= reply.status <= 299
  }

  predicate Temporary(reply: Reply, mapsNotFound: bool) {
    || reply == TransportError(false)
    || (reply.Response? && (reply.status >= 500 || reply.status == 429 || (reply.status == 404 && !mapsNotFound)))
  }

  // A request's outcome in terms of the exchange it comes from: when it is a success, and
  // when it is each of the errors.
  ghost predicate Explains(err: Option<Error>, reply: Reply, mapsNotFound: bool) {
    && (err.None? <==> Good(reply) && reply.body.Decodes?)
    && (err == Some(Unavailable) <==> Temporary(reply, mapsNotFound))
    && (err == Some(NotFound) <==> reply.Response? && reply.status == 404 && mapsNotFound)
    && (err == Some(ContextDone) <==> reply == TransportError(true) || (Good(reply) && reply.body.Interrupted?))
    && (err == Some(BadBody) <==> Good(reply) && reply.body.Garbled?)
    && (err == Some(BadRequest) <==> reply.NoRequest?)
    && (forall code :: err == Some(BadStatus(code)) <==>
          reply.Response? && reply.status == code && (code < 200 || 300 <= code < 500) && code != 404 && code != 429)
  }

  lemma PostOnceMeaning(reply: Reply, mapsNotFound: bool)
    ensures Explains(PostOnce(reply, mapsNotFound), reply, mapsNotFound)
  {
  }

  // --- Client ---

  const DEFAULT_BACKOFF: int := 100_000_000

  datatype Client = Client(maxAttempts: int, baseBackoff: int)

  ghost predicate ValidClient(c: Client) {
    c.maxAttempts >= 1 && 0 < c.baseBackoff < TWO_TO_63
  }

  // NewClient
  function NewClient(maxAttempts: int, baseBackoff: int): (c: Client)
    ensures baseBackoff < TWO_TO_63 ==> ValidClient(c)
    ensures c == Client(maxAttempts, baseBackoff) <==> maxAttempts >= 1 && baseBackoff > 0
    ensures c.maxAttempts == maxAttempts || (maxAttempts < 1 && c.maxAttempts == 1)
    ensures c.baseBackoff == baseBackoff || (baseBackoff <= 0 && c.baseBackoff == 100_000_000)
  {
    Client(if maxAttempts < 1 then 1 else maxAttempts, if baseBackoff <= 0 then DEFAULT_BACKOFF else baseBackoff)
  }

  function Pow2(n: nat): (p: int)
    ensures p > 0
  {
    if n == 0 then 1 else 2 * Pow2(n - 1)
  }

  // The exact wait after an attempt, and the one that int64 arithmetic computes.
  function ExactBackoff(c: Client, attempt: nat): int
    requires attempt >= 1
  {
    c.baseBackoff * Pow2(attempt - 1)
  }

  function Backoff(c: Client, attempt: nat): int
    requires attempt >= 1
  {
    Wrap64(c.baseBackoff * Wrap64(Pow2(attempt - 1)))
  }

  // A timer with a non-positive duration fires at once.
  function Waiting(c: Client, attempt: nat): (w: nat)
    requires attempt >= 1
  {
    if Backoff(c, attempt) > 0 then Backoff(c, attempt) else 0
  }

  function TotalWaiting(c: Client, attempts: nat): nat {
    if attempts == 0 then 0 else TotalWaiting(c, attempts - 1) + Waiting(c, attempts)
  }

  // The part of the wait after an attempt that passes before the context ends.
  function Elapsed(c: Client, attempt: nat, cut: Option<nat>): nat
    requires attempt >= 1
  {
    if cut.Some? then Min(cut.value, Waiting(c, attempt)) else Waiting(c, attempt)
  }

  // postWithRetry: replies(k) is the outcome of call k; cuts(k) says whether and when the
  // context ends during the wait that follows call k.
  method PostWithRetry(c: Client, replies: nat -> Reply, cuts: nat -> Option<nat>, mapsNotFound: bool)
    returns (err: Option<Error>, calls: nat, waited: nat)
    requires ValidClient(c)
    ensures 1 <= calls <= c.maxAttempts
    // every call except the last came to source-unavailable, and its wait was not cut short
    ensures forall k: nat :: 1 <= k < calls ==> Temporary(replies(k), mapsNotFound) && cuts(k).None?
    // the outcome is that of the last exchange, unless the context ended in the wait after it
    ensures if calls < c.maxAttempts && Temporary(replies(calls), mapsNotFound)
            then err == Some(ContextDone) && cuts(calls).Some?
            else Explains(err, replies(calls), mapsNotFound)
    // the loop gives up on a retryable error only when attempts or the context have run out
    ensures err == Some(Unavailable) ==> calls == c.maxAttempts
    // the time spent waiting, with the elapsed part of a wait that was cut short
    ensures waited == TotalWaiting(c, calls - 1) +
                      if calls < c.maxAttempts && Temporary(replies(calls), mapsNotFound)
                      then Elapsed(c, calls, cuts(calls)) else 0
    ensures waited <= c.baseBackoff * (Pow2(c.maxAttempts - 1) - 1)
  {
    var lastErr: Option<Error> := None;
    waited := 0;
    calls := 0;
    var attempt := 1;
    while attempt <= c.maxAttempts
      invariant 1 <= attempt <= c.maxAttempts
      invariant calls == attempt - 1
      invariant waited == TotalWaiting(c, attempt - 1)
      invariant forall k: nat :: 1 <= k < attempt ==> Temporary(replies(k), mapsNotFound) && cuts(k).None?
      decreases c.maxAttempts - attempt
    {
      RequestWaitingIsBounded(c, attempt - 1);
      PostOnceMeaning(replies(attempt), mapsNotFound);
      var once := PostOnce(replies(attempt), mapsNotFound);
      calls := attempt;
      if once.None? {
        return None, calls, waited;
      }
      if once.value.ContextDone? || once.value.NotFound? {
        return once, calls, waited;
      }
      lastErr := once;

      if attempt == c.maxAttempts || once.value != Unavailable {
        break;
      }

      if cuts(attempt).Some? {
        RequestWaitingIsBounded(c, attempt);
        return Some(ContextDone), calls, waited + Elapsed(c, attempt, cuts(attempt));
      }
      waited := waited + Waiting(c, attempt);
      attempt := attempt + 1;
    }

    // The fallback for a loop that made no call: never taken.
    if lastErr.None? {
      assert false;
      lastErr := Some(Unavailable);
    }
    return lastErr, calls, waited;
  }

  // --- How long the loop waits ---

  lemma {:induction false} Pow2Grows(m: nat, n: nat)
    requires m <= n
    ensures Pow2(m) <= Pow2(n)
  {
    if m < n {
      Pow2Grows(m, n - 1);
    }
  }

  lemma WaitingIsAtMostExact(c: Client, attempt: nat)
    requires ValidClient(c) && attempt >= 1
    ensures Waiting(c, attempt) <= ExactBackoff(c, attempt)
  {
    Product(c.baseBackoff, Pow2(attempt - 1));
  }

  lemma Product(b: int, p: int)
    requires b >= 1 && p >= 0
    ensures b * p >= p
  {
    assert b * p - p == (b - 1) * p;
  }

  // The waits together stay below base * (2^(calls-1) - 1), overflow or not.
  lemma {:induction false} WaitingIsBounded(c: Client, attempts: nat)
    requires ValidClient(c)
    ensures TotalWaiting(c, attempts) <= c.baseBackoff * (Pow2(attempts) - 1)
  {
    if attempts > 0 {
      WaitingIsBounded(c, attempts - 1);
      WaitingIsAtMostExact(c, attempts);
      Doubling(c.baseBackoff, Pow2(attempts - 1));
    }
  }

  lemma Doubling(b: int, p: int)
    ensures b * (p - 1) + b * p == b * (2 * p - 1)
  {
  }

  // No request waits longer than base * (2^(maxAttempts-1) - 1) in all: there is no wait
  // after the last attempt.
  lemma RequestWaitingIsBounded(c: Client, waits: nat)
    requires ValidClient(c) && waits < c.maxAttempts
    ensures TotalWaiting(c, waits) <= c.baseBackoff * (Pow2(c.maxAttempts - 1) - 1)
  {
    WaitingIsBounded(c, waits);
    Pow2Grows(waits, c.maxAttempts - 1);
    Scale(c.baseBackoff, Pow2(waits) - 1, Pow2(c.maxAttempts - 1) - 1);
  }

  lemma Scale(b: int, x: int, y: int)
    requires b >= 0 && x <= y
    ensures b * x <= b * y
  {
    assert b * y - b * x == b * (y - x);
  }

  // Every backoff of a client is computed exactly if and only if the largest one fits in an
  // int64: base * 2^(maxAttempts-2) < 2^63.
  lemma BackoffsAreExactIff(c: Client)
    requires ValidClient(c) && c.maxAttempts >= 2
    ensures (forall attempt: nat :: 1 <= attempt < c.maxAttempts ==> Backoff(c, attempt) == ExactBackoff(c, attempt))
            <==> c.baseBackoff * Pow2(c.maxAttempts - 2) < TWO_TO_63
  {
    var top: nat := c.maxAttempts - 1;
    if c.baseBackoff * Pow2(top - 1) < TWO_TO_63 {
      forall attempt: nat | 1 <= attempt < c.maxAttempts ensures Backoff(c, attempt) == ExactBackoff(c, attempt) {
        var p := Pow2(attempt - 1);
        Pow2Grows(attempt - 1, top - 1);
        Scale(c.baseBackoff, p, Pow2(top - 1));
        Product(c.baseBackoff, p);
      }
    } else {
      assert Backoff(c, top) != ExactBackoff(c, top);
    }
  }

  lemma ExactWaiting(c: Client, attempt: nat)
    requires ValidClient(c) && 1 <= attempt < c.maxAttempts
    requires c.baseBackoff * Pow2(c.maxAttempts - 2) < TWO_TO_63
    ensures Waiting(c, attempt) == ExactBackoff(c, attempt)
  {
    BackoffsAreExactIff(c);
    Product(c.baseBackoff, Pow2(attempt - 1));
  }

  // Without overflow the waits add up to exactly base * (2^(calls-1) - 1).
  lemma {:induction false} ExactTotalWaiting(c: Client, attempts: nat)
    requires ValidClient(c) && attempts < c.maxAttempts
    requires attempts >= 1 ==> c.baseBackoff * Pow2(c.maxAttempts - 2) < TWO_TO_63
    ensures TotalWaiting(c, attempts) == c.baseBackoff * (Pow2(attempts) - 1)
  {
    if attempts > 0 {
      ExactTotalWaiting(c, attempts - 1);
      ExactWaiting(c, attempts);
      Doubling(c.baseBackoff, Pow2(attempts - 1));
    }
  }
}
