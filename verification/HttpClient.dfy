/**
 The resilient HTTP client of app/providers/http_client.py: the retry loop, its load on a dead
 upstream behind a circuit breaker, and one uninterrupted `get_json`.

 A JSON payload is represented by its text, so that storing and loading it are the identity.
 */
module HttpClients {

  import opened Wrappers
  import opened CacheKeys
  import opened RealArithmetic
  import Breakers = CircuitBreakers
  import BreakerLoad
  import Caches

  /** What one attempt meets: a response (`body` is absent when it is not JSON), a transport error,
      or an exception of any other kind. */
  datatype Reply = Response(status: int, body: Option<string>) | TransportError | OtherError

  datatype Outcome = Payload(json: string) | Unavailable | Raised

  const RETRYABLE_STATUS := {429, 500, 502, 503, 504}

  predicate IsSuccess(status: int) { 200 <= status < 300 }

  /** The replies the loop catches: a listed status raises at once, `raise_for_status` raises for any
      other that is no success, and both end in the same handler. */
  predicate CaughtBy(listed: set<int>, r: Reply) {
    match r
    case Response(status, _) => status in listed || !IsSuccess(status)
    case TransportError => true
    case OtherError => false
  }

  predicate Caught(r: Reply) { CaughtBy(RETRYABLE_STATUS, r) }

  /** The replies after which the loop goes on, said without the code: transport errors, and responses
      outside 200..299. */
  ghost predicate IsTransient(r: Reply) {
    r == TransportError || (r.Response? && !(200 <= r.status < 300))
  }

  lemma CaughtIffTransient(r: Reply)
    ensures Caught(r) <==> IsTransient(r)
  {
  }

  /** A list of retryable statuses decides nothing exactly when it names no success. */
  lemma ListDecidesNothingIff(listed: set<int>)
    ensures (forall r: Reply :: CaughtBy(listed, r) <==> CaughtBy({}, r)) <==> forall s :: s in listed ==> !IsSuccess(s)
  {
    if forall r: Reply :: CaughtBy(listed, r) <==> CaughtBy({}, r) {
      forall s | s in listed
        ensures !IsSuccess(s)
      {
        assert CaughtBy({}, Response(s, None));
      }
    }
  }

  function Settled(r: Reply): Outcome {
    if r.Response? && r.body.Some? then Payload(r.body.value) else Raised
  }

  function Pow2(n: nat): nat { if n == 0 then 1 else 2 * Pow2(n - 1) }

  /** How many attempts a call makes: up to and including the first reply that is not caught. */
  function Attempts(replies: nat -> Reply, maxRetries: int): nat {
    AttemptsFrom(replies, maxRetries, 0)
  }

  function AttemptsFrom(replies: nat -> Reply, maxRetries: int, attempt: nat): nat
    decreases maxRetries + 1 - attempt
  {
    if attempt > maxRetries then 0
    else if !Caught(replies(attempt)) then 1
    else 1 + AttemptsFrom(replies, maxRetries, attempt + 1)
  }

  function RetryOutcome(replies: nat -> Reply, maxRetries: int): Outcome {
    var n := Attempts(replies, maxRetries);
    if n == 0 || Caught(replies(n - 1)) then Unavailable else Settled(replies(n - 1))
  }

  /** The attempts of a call, without recursion: all but the last are caught, and it stops early only
      at a reply that is not. */
  lemma {:induction false} AttemptsMean(replies: nat -> Reply, maxRetries: int, from: nat)
    requires from <= maxRetries + 1
    ensures
      var n := AttemptsFrom(replies, maxRetries, from);
      && from + n <= maxRetries + 1 && (from <= maxRetries ==> n >= 1)
      && (forall i :: from <= i < from + n - 1 ==> Caught(replies(i)))
      && (from + n < maxRetries + 1 ==> !Caught(replies(from + n - 1)))
    decreases maxRetries + 1 - from
  {
    if from <= maxRetries && Caught(replies(from)) {
      AttemptsMean(replies, maxRetries, from + 1);
    }
  }

  /** A call fails as unavailable exactly when none of its permitted attempts escapes the handler. */
  lemma UnavailableMeansExhausted(replies: nat -> Reply, maxRetries: int)
    ensures RetryOutcome(replies, maxRetries) == Unavailable <==>
            forall i: nat :: i <= maxRetries ==> IsTransient(replies(i))
    ensures RetryOutcome(replies, maxRetries) == Unavailable && maxRetries >= 0 ==>
              Attempts(replies, maxRetries) == maxRetries + 1
  {
    forall i: nat
      ensures Caught(replies(i)) <==> IsTransient(replies(i))
    {
      CaughtIffTransient(replies(i));
    }
    if maxRetries >= 0 {
      AttemptsMean(replies, maxRetries, 0);
    }
  }

  function Always(r: Reply): nat -> Reply { _ => r }

  /** An upstream that keeps answering one status is asked again exactly when that status is no
      success, listed as retryable or not, and then until the budget is spent. */
  lemma StatusIsRetriedIff(status: int, body: Option<string>, maxRetries: int)
    ensures Caught(Response(status, body)) <==> !IsSuccess(status)
    ensures
      var n := Attempts(Always(Response(status, body)), maxRetries);
      && (n > 1 <==> !IsSuccess(status) && maxRetries >= 1)
      && n == if maxRetries < 0 then 0 else if IsSuccess(status) then 1 else maxRetries + 1
  {
    var replies := Always(Response(status, body));
    assert forall i: nat :: Caught(replies(i)) <==> !IsSuccess(status);
    UnavailableMeansExhausted(replies, maxRetries);
  }

  /** The list does not matter: a missing page, whose status is not on it, uses up the whole budget. */
  lemma UnlistedStatusIsRetried()
    ensures 404 !in RETRYABLE_STATUS
    ensures Attempts(Always(Response(404, None)), 2) == 3
    ensures RetryOutcome(Always(Response(404, None)), 2) == Unavailable
  {
    StatusIsRetriedIff(404, None, 2);
    UnavailableMeansExhausted(Always(Response(404, None)), 2);
  }

  /** Where the loop comes out, said of the replies alone: at the first one that is not transient.  The body
      of a success is the payload; a success without JSON and an exception of another kind are raised. */
  lemma OutcomeMeans(replies: nat -> Reply, maxRetries: int, n: nat)
    requires n <= maxRetries && !IsTransient(replies(n)) && forall i: nat :: i < n ==> IsTransient(replies(i))
    ensures Attempts(replies, maxRetries) == n + 1
    ensures RetryOutcome(replies, maxRetries)
            == if replies(n).Response? && replies(n).body.Some? then Payload(replies(n).body.value) else Raised
  {
    forall i: nat
      ensures Caught(replies(i)) <==> IsTransient(replies(i))
    {
      CaughtIffTransient(replies(i));
    }
    AttemptsMean(replies, maxRetries, 0);
    assert Attempts(replies, maxRetries) > n + 1 ==> Caught(replies(n));
  }

  function Sum(s: seq<real>): real {
    if s == [] then 0.0 else Sum(s[..|s| - 1]) + s[|s| - 1]
  }

  /** The delays slept after the first `n` attempts, doubling each time. */
  function Delays(base: real, n: nat): (delays: seq<real>)
    ensures |delays| == n
  {
    if n == 0 then [] else Delays(base, n - 1) + [base * Pow2(n - 1) as real]
  }

  lemma SumAppend(s: seq<real>, x: real)
    ensures Sum(s + [x]) == Sum(s) + x
  {
    assert (s + [x])[..|s + [x]| - 1] == s;
  }

  lemma Double(base: real, p: real, q: real)
    requires q == 2.0 * p
    ensures base * (p - 1.0) + base * p == base * (q - 1.0)
  {
  }

  /** They add up to `base * (2^n - 1)`. */
  lemma {:induction false} TotalDelay(base: real, n: nat)
    ensures Sum(Delays(base, n)) == base * (Pow2(n) as real - 1.0)
  {
    if n > 0 {
      TotalDelay(base, n - 1);
      SumAppend(Delays(base, n - 1), base * Pow2(n - 1) as real);
      Double(base, Pow2(n - 1) as real, Pow2(n) as real);
      hide Sum, Pow2;
    }
  }

  // ---------------------------------------------------------------------------------------------
  // The load of the retry loop behind the breaker
  // ---------------------------------------------------------------------------------------------

  function Budget(maxRetries: int): nat { if maxRetries < 0 then 0 else maxRetries + 1 }

  /** HTTP attempts of the first `calls` admitted calls; `upstream(c)` answers the c-th of them. */
  function TotalAttempts(calls: nat, maxRetries: int, upstream: nat -> (nat -> Reply)): nat {
    if calls == 0 then 0
    else TotalAttempts(calls - 1, maxRetries, upstream) + Attempts(upstream(calls - 1), maxRetries)
  }

  lemma {:induction false} AttemptsPerCall(calls: nat, maxRetries: int, upstream: nat -> (nat -> Reply))
    ensures TotalAttempts(calls, maxRetries, upstream) <= calls * Budget(maxRetries)
    ensures (forall c: nat, i: nat :: Caught(upstream(c)(i))) ==>
              TotalAttempts(calls, maxRetries, upstream) == calls * Budget(maxRetries)
  {
    if calls > 0 {
      AttemptsPerCall(calls - 1, maxRetries, upstream);
      if maxRetries >= 0 {
        AttemptsMean(upstream(calls - 1), maxRetries, 0);
      }
      assert calls * Budget(maxRetries) == (calls - 1) * Budget(maxRetries) + Budget(maxRetries);
      UnavailableMeansExhausted(upstream(calls - 1), maxRetries);
    }
  }

  lemma ScaleBound(calls: nat, bound: int, budget: nat)
    requires calls <= bound
    ensures calls * budget <= bound * budget
  {
    assert (bound - calls) * budget >= 0;
  }

  /** Breaker and retry loop together: in any interleaving over a dead upstream, the HTTP attempts
      are bounded by the retry budget times the breaker's bound on admitted calls. */
  lemma HttpLoadOnADeadUpstream(cfg: Breakers.Config, capacity: nat, start: real, log: seq<Breakers.Step>,
                                maxRetries: int, upstream: nat -> (nat -> Reply))
    requires cfg.recoverySeconds > 0.0
    requires Breakers.Chronological(log) && BreakerLoad.DeadUpstream(cfg, capacity, log)
    requires log != [] ==> start <= log[0].at
    ensures TotalAttempts(BreakerLoad.Admitted(cfg, log), maxRetries, upstream)
            <= (BreakerLoad.Cancelled(log) + BreakerLoad.Bound(cfg, capacity, start, BreakerLoad.EndTime(start, log)))
               * Budget(maxRetries)
  {
    var calls := BreakerLoad.Admitted(cfg, log);
    BreakerLoad.LoadOnADeadUpstream(cfg, capacity, start, log);
    AttemptsPerCall(calls, maxRetries, upstream);
    ScaleBound(calls,
               BreakerLoad.Cancelled(log) + BreakerLoad.Bound(cfg, capacity, start, BreakerLoad.EndTime(start, log)),
               Budget(maxRetries));
  }

  // ---------------------------------------------------------------------------------------------
  // The object
  // ---------------------------------------------------------------------------------------------

  datatype JsonResult = Json(json: string) | Error(reason: Outcome)

  /** The clock at the four points where one `get_json` reads it. */
  datatype Times = Times(look: real, enter: real, settle: real, keep: real)

  /** A stored response answers the same request until its ttl is over, and no other request. */
  lemma ResponsesAreKeptApart(log: seq<Caches.Step>, provider: string, digest: Digest, provider': string,
                              digest': Digest, json: string, ttl: int, at: real, now: real)
    ensures
      var log' := log + [Caches.Set(HttpKey(provider', digest'), json, ttl, at)];
      Caches.Reference(log', HttpKey(provider, digest), now) ==
        if provider != provider' || digest != digest' then Caches.Reference(log, HttpKey(provider, digest), now)
        else if now < at + ttl as real then Some(json)
        else None
  {
    HttpKeysDiffer(provider, digest, provider', digest');
    Caches.WrittenAfter(log, [Caches.Set(HttpKey(provider', digest'), json, ttl, at)], HttpKey(provider, digest));
  }

  predicate Caching(ttl: Option<int>) { ttl.Some? && ttl.value != 0 }

  class ResilientHttpClient {
    const provider: string
    const maxRetries: int
    const backoffBase: real
    const cache: Caches.InMemoryCache
    const breaker: Breakers.CircuitBreaker

    constructor (provider: string, maxRetries: int, backoffBase: real, cache: Caches.InMemoryCache,
                 breaker: Breakers.CircuitBreaker)
      ensures this.provider == provider && this.maxRetries == maxRetries && this.backoffBase == backoffBase
      ensures this.cache == cache && this.breaker == breaker
    {
      this.provider, this.maxRetries, this.backoffBase := provider, maxRetries, backoffBase;
      this.cache, this.breaker := cache, breaker;
    }

    /** The retry loop, with the delays it sleeps between attempts. */
    method GetWithRetry(replies: nat -> Reply) returns (outcome: Outcome, attempts: nat, delays: seq<real>)
      ensures outcome == RetryOutcome(replies, maxRetries)
      ensures attempts == Attempts(replies, maxRetries) <= Budget(maxRetries)
      ensures delays == Delays(backoffBase, if attempts == 0 then 0 else attempts - 1)
    {
      attempts, delays := 0, [];
      while attempts <= maxRetries
        invariant attempts <= Budget(maxRetries) && delays == Delays(backoffBase, attempts)
        invariant maxRetries >= 0 ==> attempts <= maxRetries
        invariant Attempts(replies, maxRetries) == attempts + AttemptsFrom(replies, maxRetries, attempts)
      {
        var reply := replies(attempts);
        attempts := attempts + 1;
        if !Caught(reply) {
          return Settled(reply), attempts, delays;
        }
        if attempts - 1 < maxRetries {
          delays := delays + [backoffBase * Pow2(attempts - 1) as real];
        } else {
          break;
        }
      }
      return Unavailable, attempts, delays;
    }

    /** One `get_json` during which no other call takes a step. */
    method GetJson(digest: Digest, ttl: Option<int>, replies: nat -> Reply, t: Times) returns (r: JsonResult)
      requires cache.Valid() && breaker.Valid()
      requires t.look <= t.enter <= t.settle <= t.keep
      requires Caches.NotBefore(cache.log, t.look) && Breakers.NotBefore(breaker.log, t.enter)
      modifies cache, breaker
      ensures cache.Valid() && breaker.Valid()
      ensures
        var key := HttpKey(provider, digest);
        var caching := ttl != None && ttl != Some(0);
        var looked := old(cache.log) + if caching then [Caches.Get(key, t.look)] else [];
        var hit := if caching then Caches.Reference(old(cache.log), key, t.look) else None;
        var entered := old(breaker.log) + [Breakers.Begin(t.enter)];
        if hit.Some? then
          r == Json(hit.value) && breaker.log == old(breaker.log) && cache.log == looked
        else if !Breakers.AdmitRule(breaker.cfg, old(breaker.log), t.enter) then
          r == Error(Unavailable) && breaker.log == entered && cache.log == looked
        else
          match RetryOutcome(replies, maxRetries)
          case Payload(json) =>
            && r == Json(json) && breaker.log == entered + [Breakers.Succeed(t.settle)]
            && cache.log == looked + if caching then [Caches.Set(key, json, ttl.value, t.keep)] else []
          case failure =>
            r == Error(failure) && breaker.log == entered + [Breakers.Fail(t.settle)] && cache.log == looked
    {
      hide Caches.Reference, Caches.Chronological, Breakers.Chronological, Breakers.AdmitRule, RetryOutcome, HttpKey;
      var key := HttpKey(provider, digest);
      if Caching(ttl) {
        var cached := cache.GetValue(key, t.look);
        if cached.Some? {
          return Json(cached.value);
        }
      }
      var admitted := breaker.Enter(t.enter);
      if !admitted {
        return Error(Unavailable);
      }
      var outcome, attempts, delays := GetWithRetry(replies);
      if !outcome.Payload? {
        breaker.OnFailure(t.settle);
        return Error(outcome);
      }
      breaker.OnSuccess(t.settle);
      if Caching(ttl) {
        cache.SetValue(key, outcome.json, ttl.value, t.keep);
      }
      return Json(outcome.json);
    }
  }
}
