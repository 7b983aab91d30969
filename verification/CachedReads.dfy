/**
 `get_json` of app/providers/http_client.py under concurrency: any number of calls in progress,
 their steps interleaved with one another and with the other users of the shared cache.

 A call looks in the cache, asks the breaker of its provider, sends its requests and receives the
 replies one by one, tells the breaker how it ended and stores a success, giving up control between
 any two of these.
 */
module CachedReads {

  import opened Wrappers
  import opened CacheKeys
  import opened HttpClients
  import Breakers = CircuitBreakers
  import Caches

  type CallId = nat

  datatype Source = Upstream | FromCache(at: real)

  /** `InFlight` is at the start of a turn of the retry loop or asleep before it, `Waiting` has a request
      out, and `Answered` has left the loop and has yet to tell the breaker. */
  datatype Phase =
    | Arrived
    | Missed
    | Rejected
    | InFlight
    | Waiting
    | Answered(outcome: Outcome)
    | Fetched(json: string)
    | Served(json: string, source: Source)
    | Failed(reason: Outcome)
    | Abandoned

  /** `sent` counts the requests of this call so far, `replies` are those that came back. */
  datatype Call = Call(
    provider: string, digest: Digest, ttl: Option<int>, phase: Phase, sent: nat, replies: seq<Reply>)

  /** One atomic step of one call, or of somebody else on the shared cache. */
  datatype Label =
    | Arrive(id: CallId, provider: string, digest: Digest, ttl: Option<int>, at: real)
    | Look(id: CallId, at: real)
    | Enter(id: CallId, at: real)
    | Send(id: CallId, at: real)
    | Receive(id: CallId, reply: Reply, at: real)
    | Settle(id: CallId, at: real)
    | Cancelled(id: CallId, at: real)
    | Keep(id: CallId, at: real)
    | Foreign(step: Caches.Step, at: real)

  /** Every provider has its own breaker and retry budget; all share one cache. */
  datatype Setup = Setup(breaker: string -> Breakers.Config, maxRetries: string -> int)

  /** A record of one store into the cache. */
  datatype Kept = Kept(author: CallId, key: string, json: string, ttl: int, at: real)

  /** The cache and the breakers are represented by their logs, which determine their fields; `kept`
      records who stored what, and influences nothing. */
  datatype World = World(
    cacheLog: seq<Caches.Step>, breakerLogs: map<string, seq<Breakers.Step>>, calls: map<CallId, Call>, kept: seq<Kept>)

  const EMPTY := World([], map[], map[], [])

  function KeyOf(c: Call): string { HttpKey(c.provider, c.digest) }

  function BreakerLog(w: World, provider: string): seq<Breakers.Step> {
    if provider in w.breakerLogs then w.breakerLogs[provider] else []
  }

  function Move(w: World, id: CallId, phase: Phase): World
    requires id in w.calls
  {
    w.(calls := w.calls[id := w.calls[id].(phase := phase)])
  }

  /** Tells the breaker of a provider. */
  function Tell(w: World, provider: string, step: Breakers.Step): World {
    w.(breakerLogs := w.breakerLogs[provider := BreakerLog(w, provider) + [step]])
  }

  function Store(w: World, id: CallId, c: Call, json: string, at: real): World
    requires Caching(c.ttl)
  {
    w.(cacheLog := w.cacheLog + [Caches.Set(KeyOf(c), json, c.ttl.value, at)],
       kept := w.kept + [Kept(id, KeyOf(c), json, c.ttl.value, at)])
  }

  /** A turn of the retry loop begins with a request. */
  function Requested(c: Call): Call {
    c.(sent := c.sent + 1, phase := Waiting)
  }

  /** It ends with the reply. */
  function Tried(c: Call, reply: Reply, maxRetries: int): Call {
    var replies := c.replies + [reply];
    c.(replies := replies,
       phase := if !Caught(reply) then Answered(Settled(reply))
                else if |replies| > maxRetries then Answered(Unavailable)
                else InFlight)
  }

  /** A label whose call is not in the right phase changes nothing. */
  function Next(setup: Setup, w: World, l: Label): World {
    if l.Foreign? then w.(cacheLog := w.cacheLog + [l.step])
    else if l.Arrive? then
      if l.id in w.calls then w else w.(calls := w.calls[l.id := Call(l.provider, l.digest, l.ttl, Arrived, 0, [])])
    else if l.id !in w.calls then w
    else
      var c := w.calls[l.id];
      match (l, c.phase)
      case (Look(id, at), Arrived) =>
        if !Caching(c.ttl) then Move(w, id, Missed)
        else
          var looked := w.(cacheLog := w.cacheLog + [Caches.Get(KeyOf(c), at)]);
          (match Caches.Lookup(Caches.Run(w.cacheLog), KeyOf(c), at)
           case Some(json) => Move(looked, id, Served(json, FromCache(at)))
           case None => Move(looked, id, Missed))
      case (Enter(id, at), Missed) =>
        var breaker := setup.breaker(c.provider);
        var admitted := Breakers.Admits(breaker, Breakers.Run(breaker, BreakerLog(w, c.provider)), at);
        Move(Tell(w, c.provider, Breakers.Begin(at)), id,
             if !admitted then Rejected
             else if setup.maxRetries(c.provider) < 0 then Answered(Unavailable)
             else InFlight)
      case (Send(id, at), InFlight) =>
        w.(calls := w.calls[id := Requested(c)])
      case (Receive(id, reply, at), Waiting) =>
        w.(calls := w.calls[id := Tried(c, reply, setup.maxRetries(c.provider))])
      case (Settle(id, at), Answered(Payload(json))) =>
        Move(Tell(w, c.provider, Breakers.Succeed(at)), id, Fetched(json))
      case (Settle(id, at), Answered(reason)) =>
        Move(Tell(w, c.provider, Breakers.Fail(at)), id, Failed(reason))
      case (Cancelled(id, at), InFlight) =>
        Move(Tell(w, c.provider, Breakers.Cancel(at)), id, Abandoned)
      case (Cancelled(id, at), Waiting) =>
        Move(Tell(w, c.provider, Breakers.Cancel(at)), id, Abandoned)
      case (Cancelled(id, at), Answered(_)) =>
        Move(Tell(w, c.provider, Breakers.Cancel(at)), id, Abandoned)
      case (Keep(id, at), Fetched(json)) =>
        Move(if Caching(c.ttl) then Store(w, id, c, json, at) else w, id, Served(json, Upstream))
      case _ => w
  }

  function Run(setup: Setup, labels: seq<Label>): World {
    if labels == [] then EMPTY
    else Next(setup, Run(setup, labels[..|labels| - 1]), labels[|labels| - 1])
  }

  /** Time does not run backwards, and the only foreign writes are denylist entries. */
  predicate Legal(labels: seq<Label>) {
    && (forall i, j :: 0 <= i < j < |labels| ==> labels[i].at <= labels[j].at)
    && (forall i :: 0 <= i < |labels| && labels[i].Foreign? ==>
          labels[i].step.at == labels[i].at && Harmless(labels[i].step))
  }

  predicate Harmless(step: Caches.Step) {
    step.Set? ==> |step.key| >= 8 && step.key == RevokedKey(step.key[8..])
  }

  // ---------------------------------------------------------------------------------------------
  // What every step keeps
  // ---------------------------------------------------------------------------------------------

  /** The record of the store that produced an entry, made no later than `now`. */
  ghost predicate Recorded(w: World, key: string, json: string, expiresAt: real, now: real) {
    exists i :: 0 <= i < |w.kept| && w.kept[i].key == key && w.kept[i].json == json
                && w.kept[i].at + w.kept[i].ttl as real == expiresAt && w.kept[i].at <= now
  }

  ghost predicate CacheIsRecorded(w: World, now: real) {
    forall provider: string, digest: Digest ::
      var e := Caches.Written(w.cacheLog, HttpKey(provider, digest));
      e.Some? ==> Recorded(w, HttpKey(provider, digest), e.value.value, e.value.expiresAt, now)
  }

  ghost predicate TimedUpTo(w: World, now: real) {
    Caches.Chronological(w.cacheLog) && Caches.NotBefore(w.cacheLog, now)
  }

  /** Every record names a call for that key which got that payload from the upstream. */
  ghost predicate RecordsAreGenuine(w: World) {
    forall i :: 0 <= i < |w.kept| ==>
      var k := w.kept[i];
      k.author in w.calls && KeyOf(w.calls[k.author]) == k.key && w.calls[k.author].phase == Served(k.json, Upstream)
  }

  /** A payload served from the cache was stored under the call's key less than its ttl before. */
  ghost predicate ServedHonestly(w: World, c: Call) {
    c.phase.Served? && c.phase.source.FromCache? ==>
      exists i :: 0 <= i < |w.kept| && w.kept[i].key == KeyOf(c) && w.kept[i].json == c.phase.json
                  && w.kept[i].at <= c.phase.source.at < w.kept[i].at + w.kept[i].ttl as real
  }

  ghost predicate AllServedHonestly(w: World) {
    forall id :: id in w.calls ==> ServedHonestly(w, w.calls[id])
  }

  /** Steps only ever add records, and a call that was answered is done. */
  lemma AnsweredCallsStay(setup: Setup, w: World, l: Label)
    ensures
      var w' := Next(setup, w, l);
      && w.kept <= w'.kept && w.calls.Keys <= w'.calls.Keys
      && (forall id :: id in w.calls && w.calls[id].phase.Served? ==> w'.calls[id] == w.calls[id])
      && (forall id :: id in w.calls ==> KeyOf(w'.calls[id]) == KeyOf(w.calls[id]))
  {
    hide Caches.Run, Caches.Lookup, Breakers.Run, Breakers.Admits, BreakerLog, Caught;
  }

  /** A call sends a request only at the start of a turn and gets a reply only to a request. */
  lemma CallGrows(setup: Setup, w: World, l: Label, id: CallId)
    requires id in Next(setup, w, l).calls
    ensures
      var c := Next(setup, w, l).calls[id];
      if id in w.calls then
        && c.provider == w.calls[id].provider
        && c.replies == w.calls[id].replies
                        + (if l.Receive? && l.id == id && w.calls[id].phase == Waiting then [l.reply] else [])
        && c.sent == w.calls[id].sent + if l.Send? && l.id == id && w.calls[id].phase == InFlight then 1 else 0
      else l.Arrive? && l.id == id && c.replies == [] && c.sent == 0
  {
    hide Caches.Run, Caches.Lookup, Breakers.Run, Breakers.Admits, BreakerLog, KeyOf, Caught, Settled;
  }

  lemma NextKeepsRecordsGenuine(setup: Setup, w: World, l: Label)
    requires RecordsAreGenuine(w)
    ensures RecordsAreGenuine(Next(setup, w, l))
  {
    AnsweredCallsStay(setup, w, l);
  }

  lemma RecordStays(w: World, w': World, key: string, json: string, expiresAt: real, now: real, now': real)
    requires Recorded(w, key, json, expiresAt, now) && w.kept <= w'.kept && now <= now'
    ensures Recorded(w', key, json, expiresAt, now')
  {
    var i :| 0 <= i < |w.kept| && w.kept[i].key == key && w.kept[i].json == json
             && w.kept[i].at + w.kept[i].ttl as real == expiresAt && w.kept[i].at <= now;
    assert w'.kept[i] == w.kept[i];
  }

  /** The cache log grows by at most one step, and that step writes under an HTTP key only when it is
      recorded. */
  lemma CacheStepOf(setup: Setup, w: World, l: Label, key: string)
    requires TimedUpTo(w, l.at) && (l.Foreign? ==> l.step.at == l.at)
    ensures
      var w' := Next(setup, w, l);
      && TimedUpTo(w', l.at)
      && (w'.cacheLog == w.cacheLog
          || exists step: Caches.Step :: w'.cacheLog == w.cacheLog + [step] && step.at == l.at
               && (step.Set? && step.key == key ==>
                     (l.Foreign? && step == l.step) || Recorded(w', key, step.value, l.at + step.ttl as real, l.at)))
  {
    var w' := Next(setup, w, l);
    if w'.cacheLog != w.cacheLog {
      var step := w'.cacheLog[|w'.cacheLog| - 1];
      assert w'.cacheLog == w.cacheLog + [step];
      if w'.kept != w.kept {
        var k := w'.kept[|w'.kept| - 1];
        assert k.at + k.ttl as real == l.at + step.ttl as real;
      }
    }
  }

  lemma NextKeepsCacheRecorded(setup: Setup, w: World, l: Label, now: real)
    requires CacheIsRecorded(w, now) && TimedUpTo(w, l.at) && now <= l.at
    requires l.Foreign? ==> l.step.at == l.at && Harmless(l.step)
    ensures CacheIsRecorded(Next(setup, w, l), l.at) && TimedUpTo(Next(setup, w, l), l.at)
  {
    var w' := Next(setup, w, l);
    CacheStepOf(setup, w, l, "");
    forall provider: string, digest: Digest
      ensures
        var e := Caches.Written(w'.cacheLog, HttpKey(provider, digest));
        e.Some? ==> Recorded(w', HttpKey(provider, digest), e.value.value, e.value.expiresAt, l.at)
    {
      KeptUnder(setup, w, l, now, provider, digest);
    }
  }

  lemma KeptUnder(setup: Setup, w: World, l: Label, now: real, provider: string, digest: Digest)
    requires CacheIsRecorded(w, now) && TimedUpTo(w, l.at) && now <= l.at
    requires l.Foreign? ==> l.step.at == l.at && Harmless(l.step)
    ensures
      var w', key := Next(setup, w, l), HttpKey(provider, digest);
      var e := Caches.Written(w'.cacheLog, key);
      e.Some? ==> Recorded(w', key, e.value.value, e.value.expiresAt, l.at)
  {
    hide Caches.Run, Caches.Lookup, Caches.Written, Breakers.Run, Breakers.Admits;
    hide TimedUpTo, Recorded;
    var w', key := Next(setup, w, l), HttpKey(provider, digest);
    var before, after := Caches.Written(w.cacheLog, key), Caches.Written(w'.cacheLog, key);
    CacheStepOf(setup, w, l, key);
    AnsweredCallsStay(setup, w, l);
    if before.Some? {
      RecordStays(w, w', key, before.value.value, before.value.expiresAt, now, l.at);
    }
    if w'.cacheLog != w.cacheLog {
      var step :| w'.cacheLog == w.cacheLog + [step] && step.at == l.at
        && (step.Set? && step.key == key ==>
              (l.Foreign? && step == l.step) || Recorded(w', key, step.value, l.at + step.ttl as real, l.at));
      Caches.WrittenAfter(w.cacheLog, [step], key);
      if l.Foreign? && step == l.step && step.Set? {
        KeySpaces(step.key[8..], provider, digest);
      }
    }
  }

  lemma HitIsRecorded(w: World, provider: string, digest: Digest, now: real, at: real)
    requires CacheIsRecorded(w, now) && TimedUpTo(w, at) && now <= at
    ensures
      var key := HttpKey(provider, digest);
      var hit := Caches.Lookup(Caches.Run(w.cacheLog), key, at);
      hit.Some? ==> exists i :: 0 <= i < |w.kept| && w.kept[i].key == key && w.kept[i].json == hit.value
                                && w.kept[i].at <= at < w.kept[i].at + w.kept[i].ttl as real
  {
    var key := HttpKey(provider, digest);
    Caches.LazyExpiryIsInvisible(w.cacheLog, key, at);
    var e := Caches.Written(w.cacheLog, key);
    if e.Some? && !Caches.Expired(e.value, at) {
      assert Recorded(w, key, e.value.value, e.value.expiresAt, now);
      var i :| 0 <= i < |w.kept| && w.kept[i].key == key && w.kept[i].json == e.value.value
               && w.kept[i].at + w.kept[i].ttl as real == e.value.expiresAt && w.kept[i].at <= now;
      assert w.kept[i].at <= at;
    }
  }

  lemma HonestyStays(w: World, w': World, c: Call)
    requires ServedHonestly(w, c) && w.kept <= w'.kept
    ensures ServedHonestly(w', c)
  {
    if c.phase.Served? && c.phase.source.FromCache? {
      var i :| 0 <= i < |w.kept| && w.kept[i].key == KeyOf(c) && w.kept[i].json == c.phase.json
               && w.kept[i].at <= c.phase.source.at < w.kept[i].at + w.kept[i].ttl as real;
      assert w'.kept[i] == w.kept[i];
    }
  }

  /** Only a look that hits makes a call served from the cache. */
  lemma FreshHit(setup: Setup, w: World, l: Label, id: CallId)
    requires id in Next(setup, w, l).calls
    ensures
      var c := Next(setup, w, l).calls[id];
      c.phase.Served? && c.phase.source.FromCache? && !(id in w.calls && c == w.calls[id]) ==>
        && l == Look(id, l.at) && c.phase.source == FromCache(l.at)
        && id in w.calls && KeyOf(c) == KeyOf(w.calls[id])
        && Caches.Lookup(Caches.Run(w.cacheLog), KeyOf(c), l.at) == Some(c.phase.json)
  {
    hide Caches.Run, Caches.Lookup, Breakers.Run, Breakers.Admits, BreakerLog, HttpKey, Caught;
  }

  lemma NextKeepsServiceHonest(setup: Setup, w: World, l: Label, now: real)
    requires AllServedHonestly(w) && CacheIsRecorded(w, now) && TimedUpTo(w, l.at) && now <= l.at
    ensures AllServedHonestly(Next(setup, w, l))
  {
    hide Caches.Run, Caches.Lookup, Next, HttpKey, CacheIsRecorded, TimedUpTo;
    var w' := Next(setup, w, l);
    AnsweredCallsStay(setup, w, l);
    forall id | id in w'.calls
      ensures ServedHonestly(w', w'.calls[id])
    {
      FreshHit(setup, w, l, id);
      if id in w.calls && w'.calls[id] == w.calls[id] {
        HonestyStays(w, w', w.calls[id]);
      } else if w'.calls[id].phase.Served? && w'.calls[id].phase.source.FromCache? {
        HitIsRecorded(w, w'.calls[id].provider, w'.calls[id].digest, now, l.at);
        HonestyStays(w, w', w'.calls[id]);
      }
    }
  }

  lemma {:induction false} RunIsHonest(setup: Setup, labels: seq<Label>, now: real)
    requires Legal(labels) && forall i :: 0 <= i < |labels| ==> labels[i].at <= now
    ensures
      var w := Run(setup, labels);
      AllServedHonestly(w) && RecordsAreGenuine(w) && CacheIsRecorded(w, now) && TimedUpTo(w, now)
  {
    if labels != [] {
      var prefix, last := labels[..|labels| - 1], labels[|labels| - 1];
      RunIsHonest(setup, prefix, last.at);
      var w := Run(setup, prefix);
      NextKeepsServiceHonest(setup, w, last, last.at);
      NextKeepsRecordsGenuine(setup, w, last);
      NextKeepsCacheRecorded(setup, w, last, last.at);
      LaterIsFine(Run(setup, labels), last.at, now);
    }
  }

  lemma LaterIsFine(w: World, now: real, now': real)
    requires CacheIsRecorded(w, now) && TimedUpTo(w, now) && now <= now'
    ensures CacheIsRecorded(w, now') && TimedUpTo(w, now')
  {
    forall provider: string, digest: Digest
      ensures
        var e := Caches.Written(w.cacheLog, HttpKey(provider, digest));
        e.Some? ==> Recorded(w, HttpKey(provider, digest), e.value.value, e.value.expiresAt, now')
    {
      var e := Caches.Written(w.cacheLog, HttpKey(provider, digest));
      if e.Some? {
        RecordStays(w, w, HttpKey(provider, digest), e.value.value, e.value.expiresAt, now, now');
      }
    }
  }

  // ---------------------------------------------------------------------------------------------
  // The retry loop, its turns interleaved with everything else
  // ---------------------------------------------------------------------------------------------

  /** `replies` are those of a whole retry loop that ended with `outcome`. */
  predicate Ends(replies: seq<Reply>, maxRetries: int, outcome: Outcome) {
    && |replies| <= Budget(maxRetries)
    && (forall i :: 0 <= i < |replies| - 1 ==> Caught(replies[i]))
    && (|replies| < Budget(maxRetries) ==> replies != [] && !Caught(replies[|replies| - 1]))
    && outcome == if replies == [] || Caught(replies[|replies| - 1]) then Unavailable
                  else Settled(replies[|replies| - 1])
  }

  /** Such a loop is the uninterrupted one on any upstream that gives these replies. */
  lemma EndsLikeTheLoop(replies: seq<Reply>, maxRetries: int, outcome: Outcome, upstream: nat -> Reply)
    requires Ends(replies, maxRetries, outcome)
    requires forall i: nat :: i < |replies| ==> upstream(i) == replies[i]
    ensures Attempts(upstream, maxRetries) == |replies| && RetryOutcome(upstream, maxRetries) == outcome
  {
    if maxRetries >= 0 {
      AttemptsMean(upstream, maxRetries, 0);
      assert forall i: nat :: i < |replies| ==> (Caught(upstream(i)) <==> Caught(replies[i]));
    }
  }

  predicate AllCaught(replies: seq<Reply>) {
    forall i :: 0 <= i < |replies| ==> Caught(replies[i])
  }

  /** What the phase of a call says about its requests and replies. */
  predicate FollowsTheLoop(c: Call, maxRetries: int) {
    match c.phase
    case Arrived => c.sent == 0 && c.replies == []
    case Missed => c.sent == 0 && c.replies == []
    case Rejected => c.sent == 0 && c.replies == []
    case InFlight => c.sent == |c.replies| <= maxRetries && AllCaught(c.replies)
    case Waiting => c.sent == |c.replies| + 1 && |c.replies| <= maxRetries && AllCaught(c.replies)
    case Answered(outcome) => c.sent == |c.replies| && Ends(c.replies, maxRetries, outcome)
    case Fetched(json) => c.sent == |c.replies| && Ends(c.replies, maxRetries, Payload(json))
    case Served(json, Upstream) => c.sent == |c.replies| && Ends(c.replies, maxRetries, Payload(json))
    case Served(_, FromCache(_)) => c.sent == 0 && c.replies == []
    case Failed(reason) => c.sent == |c.replies| && Ends(c.replies, maxRetries, reason) && !reason.Payload?
    case Abandoned => |c.replies| <= c.sent <= |c.replies| + 1 && c.sent <= Budget(maxRetries)
  }

  lemma TriedFollowsTheLoop(c: Call, reply: Reply, maxRetries: int)
    requires c.phase == Waiting && FollowsTheLoop(c, maxRetries)
    ensures FollowsTheLoop(Tried(c, reply, maxRetries), maxRetries)
    ensures Tried(c, reply, maxRetries).provider == c.provider
  {
  }

  lemma LoopBounds(c: Call, maxRetries: int)
    ensures FollowsTheLoop(c, maxRetries) ==> |c.replies| <= c.sent <= |c.replies| + 1 && c.sent <= Budget(maxRetries)
    ensures maxRetries < 0 ==> Ends([], maxRetries, Unavailable)
    ensures AllCaught([])
  {
  }

  /** The steps of a call other than a reply. */
  lemma StepFollowsTheLoop(setup: Setup, w: World, l: Label, id: CallId)
    requires id in w.calls && FollowsTheLoop(w.calls[id], setup.maxRetries(w.calls[id].provider))
    requires !l.Receive?
    ensures
      var c := Next(setup, w, l).calls[id];
      c.provider == w.calls[id].provider && FollowsTheLoop(c, setup.maxRetries(c.provider))
  {
    hide Caches.Run, Caches.Lookup, Breakers.Run, Breakers.Admits, Ends, Budget, KeyOf, BreakerLog, Caught, AllCaught;
    LoopBounds(w.calls[id], setup.maxRetries(w.calls[id].provider));
  }

  lemma {:induction false} RunFollowsTheLoop(setup: Setup, labels: seq<Label>, id: CallId)
    requires id in Run(setup, labels).calls
    ensures
      var c := Run(setup, labels).calls[id];
      FollowsTheLoop(c, setup.maxRetries(c.provider))
  {
    hide Caches.Run, Caches.Lookup, Breakers.Run, Breakers.Admits, Tried, Ends, Caught;
    var prefix, last := labels[..|labels| - 1], labels[|labels| - 1];
    var w := Run(setup, prefix);
    if id in w.calls {
      RunFollowsTheLoop(setup, prefix, id);
      if !last.Receive? {
        StepFollowsTheLoop(setup, w, last, id);
      } else if last.id == id && w.calls[id].phase == Waiting {
        TriedFollowsTheLoop(w.calls[id], last.reply, setup.maxRetries(w.calls[id].provider));
      }
    }
  }

  /** However its turns are interleaved with other calls, a call that served what it fetched did what
      the uninterrupted retry loop does on the replies it got. */
  lemma InterleavedRetries(setup: Setup, labels: seq<Label>, id: CallId, upstream: nat -> Reply)
    requires id in Run(setup, labels).calls
    requires forall i: nat :: i < |Run(setup, labels).calls[id].replies| ==>
               upstream(i) == Run(setup, labels).calls[id].replies[i]
    ensures
      var c := Run(setup, labels).calls[id];
      var m := setup.maxRetries(c.provider);
      && |c.replies| <= c.sent <= Budget(m)
      && (c.phase.Served? && c.phase.source == Upstream ==>
            RetryOutcome(upstream, m) == Payload(c.phase.json) && Attempts(upstream, m) == |c.replies|)
      && (c.phase.Failed? ==> RetryOutcome(upstream, m) == c.phase.reason && Attempts(upstream, m) == |c.replies|)
  {
    RunFollowsTheLoop(setup, labels, id);
    hide Run;
    var c := Run(setup, labels).calls[id];
    LoopBounds(c, setup.maxRetries(c.provider));
    if c.phase.Served? && c.phase.source == Upstream {
      EndsLikeTheLoop(c.replies, setup.maxRetries(c.provider), Payload(c.phase.json), upstream);
    } else if c.phase.Failed? {
      EndsLikeTheLoop(c.replies, setup.maxRetries(c.provider), c.phase.reason, upstream);
    }
  }

  lemma {:induction false} RepliesWereReceived(setup: Setup, labels: seq<Label>, id: CallId, k: nat)
    requires id in Run(setup, labels).calls && k < |Run(setup, labels).calls[id].replies|
    ensures exists i :: 0 <= i < |labels| && labels[i].Receive? && labels[i].id == id
                        && labels[i].reply == Run(setup, labels).calls[id].replies[k]
  {
    hide Next;
    var prefix, last := labels[..|labels| - 1], labels[|labels| - 1];
    var w := Run(setup, prefix);
    CallGrows(setup, w, last, id);
    if id in w.calls && k < |w.calls[id].replies| {
      RepliesWereReceived(setup, prefix, id, k);
      var i :| 0 <= i < |prefix| && prefix[i].Receive? && prefix[i].id == id
               && prefix[i].reply == w.calls[id].replies[k];
      assert labels[i] == prefix[i];
    } else {
      assert labels[|labels| - 1].Receive?;
    }
  }

  /** The upstream answered this very call with this payload. */
  ghost predicate FromUpstream(labels: seq<Label>, id: CallId, json: string) {
    exists i :: 0 <= i < |labels| && labels[i].Receive? && labels[i].id == id
                && !Caught(labels[i].reply) && Settled(labels[i].reply) == Payload(json)
  }

  lemma FetchesComeFromUpstream(setup: Setup, labels: seq<Label>, id: CallId)
    requires id in Run(setup, labels).calls
    requires var phase := Run(setup, labels).calls[id].phase; phase.Served? && phase.source == Upstream
    ensures FromUpstream(labels, id, Run(setup, labels).calls[id].phase.json)
  {
    RunFollowsTheLoop(setup, labels, id);
    hide Run;
    var replies := Run(setup, labels).calls[id].replies;
    RepliesWereReceived(setup, labels, id, |replies| - 1);
  }

  /** Every record is of a step that the cache itself went through. */
  ghost predicate RecordsAreStores(w: World) {
    forall i :: 0 <= i < |w.kept| ==>
      var k := w.kept[i];
      Caches.Set(k.key, k.json, k.ttl, k.at) in w.cacheLog
  }

  lemma NextKeepsStores(setup: Setup, w: World, l: Label)
    requires RecordsAreStores(w)
    ensures RecordsAreStores(Next(setup, w, l))
  {
    hide Caches.Run, Caches.Lookup, Breakers.Run, Breakers.Admits, BreakerLog, KeyOf, Caught, Settled;
    var w' := Next(setup, w, l);
    assert w'.kept == w.kept ==> w.cacheLog <= w'.cacheLog;
    if w'.kept != w.kept {
      var k := w'.kept[|w.kept|];
      assert w'.kept == w.kept + [k] && w'.cacheLog == w.cacheLog + [Caches.Set(k.key, k.json, k.ttl, k.at)];
    }
  }

  lemma {:induction false} RunKeepsStores(setup: Setup, labels: seq<Label>)
    ensures RecordsAreStores(Run(setup, labels))
  {
    if labels != [] {
      RunKeepsStores(setup, labels[..|labels| - 1]);
      NextKeepsStores(setup, Run(setup, labels[..|labels| - 1]), labels[|labels| - 1]);
    }
  }

  /** The main result.  In every interleaving, a call that returns a payload returns either what the
      upstream answered to this very call, or what it answered to a call for the same request of the same
      provider that stored it less than its ttl before; so a failure is never cached and never served. */
  lemma CachedReadsAreHonest(setup: Setup, labels: seq<Label>, id: CallId)
    requires Legal(labels) && id in Run(setup, labels).calls && Run(setup, labels).calls[id].phase.Served?
    ensures
      var w := Run(setup, labels);
      var c := w.calls[id];
      match c.phase.source
      case Upstream => FromUpstream(labels, id, c.phase.json)
      case FromCache(at) =>
        exists author, ttl, storedAt ::
          && author in w.calls && w.calls[author].provider == c.provider && w.calls[author].digest == c.digest
          && FromUpstream(labels, author, c.phase.json)
          && Kept(author, KeyOf(c), c.phase.json, ttl, storedAt) in w.kept
          && Caches.Set(KeyOf(c), c.phase.json, ttl, storedAt) in w.cacheLog
          && storedAt <= at < storedAt + ttl as real
  {
    var now := if labels == [] then 0.0 else labels[|labels| - 1].at;
    RunIsHonest(setup, labels, now);
    var w := Run(setup, labels);
    var c := w.calls[id];
    if c.phase.source == Upstream {
      FetchesComeFromUpstream(setup, labels, id);
    } else {
      assert ServedHonestly(w, c);
      var i :| 0 <= i < |w.kept| && w.kept[i].key == KeyOf(c) && w.kept[i].json == c.phase.json
               && w.kept[i].at <= c.phase.source.at < w.kept[i].at + w.kept[i].ttl as real;
      assert w.calls[w.kept[i].author].phase == Served(w.kept[i].json, Upstream);
      FetchesComeFromUpstream(setup, labels, w.kept[i].author);
      RunKeepsStores(setup, labels);
      var author := w.calls[w.kept[i].author];
      HttpKeysDiffer(author.provider, author.digest, c.provider, c.digest);
      assert w.kept[i] == Kept(w.kept[i].author, KeyOf(c), c.phase.json, w.kept[i].ttl, w.kept[i].at);
      assert Caches.Set(KeyOf(c), c.phase.json, w.kept[i].ttl, w.kept[i].at) in w.cacheLog;
    }
  }

  lemma {:induction false} ServedForGood(setup: Setup, labels: seq<Label>, more: seq<Label>, id: CallId)
    requires id in Run(setup, labels).calls && Run(setup, labels).calls[id].phase.Served?
    ensures
      var w := Run(setup, labels + more);
      id in w.calls && w.calls[id] == Run(setup, labels).calls[id]
  {
    hide Next;
    if more == [] {
      assert labels + more == labels;
    } else {
      var prefix := more[..|more| - 1];
      ServedForGood(setup, labels, prefix, id);
      AnsweredCallsStay(setup, Run(setup, labels + prefix), more[|more| - 1]);
      assert (labels + more)[..|labels + more| - 1] == labels + prefix;
    }
  }

  /** In every run, a call whose key has a live entry in the timed log is served that entry for good,
      whatever its breaker went through, and no breaker hears of it; without one it goes on to its
      breaker. */
  lemma HitsBypassTheBreaker(setup: Setup, labels: seq<Label>, id: CallId, at: real, more: seq<Label>)
    requires Legal(labels + [Look(id, at)]) && id in Run(setup, labels).calls
    requires Run(setup, labels).calls[id].phase == Arrived && Caching(Run(setup, labels).calls[id].ttl)
    ensures
      var w, looked := Run(setup, labels), Run(setup, labels + [Look(id, at)]);
      && looked.breakerLogs == w.breakerLogs
      && match Caches.Reference(w.cacheLog, KeyOf(w.calls[id]), at)
         case Some(json) =>
           var w' := Run(setup, labels + [Look(id, at)] + more);
           id in w'.calls && w'.calls[id].phase == Served(json, FromCache(at))
         case None => id in looked.calls && looked.calls[id].phase == Missed
  {
    var all := labels + [Look(id, at)];
    assert all[..|all| - 1] == labels;
    assert forall i :: 0 <= i < |labels| ==> labels[i] == all[i];
    assert all[|labels|].at == at;
    var w := Run(setup, labels);
    RunIsHonest(setup, labels, at);
    Caches.LazyExpiryIsInvisible(w.cacheLog, KeyOf(w.calls[id]), at);
    if Caches.Reference(w.cacheLog, KeyOf(w.calls[id]), at).Some? {
      ServedForGood(setup, all, more, id);
    }
  }

  /** A step that neither stores under the key of a request nor removes anything leaves its record alone. */
  lemma RecordUntouched(setup: Setup, w: World, l: Label, provider: string, digest: Digest)
    requires l.Foreign? ==> Harmless(l.step) && !l.step.Delete? && !l.step.Clear?
    requires l.Keep? && l.id in w.calls ==> w.calls[l.id].provider != provider || w.calls[l.id].digest != digest
    ensures Caches.Written(Next(setup, w, l).cacheLog, HttpKey(provider, digest))
            == Caches.Written(w.cacheLog, HttpKey(provider, digest))
  {
    hide Caches.Run, Caches.Lookup, Caches.Written, Breakers.Run, Breakers.Admits, BreakerLog, Caught, HttpKey;
    var w', key := Next(setup, w, l), HttpKey(provider, digest);
    if w'.cacheLog != w.cacheLog {
      var step := w'.cacheLog[|w'.cacheLog| - 1];
      assert w'.cacheLog == w.cacheLog + [step];
      Caches.WrittenAfter(w.cacheLog, [step], key);
      if l.Foreign? && step.Set? {
        KeySpaces(step.key[8..], provider, digest);
      } else if l.Keep? {
        HttpKeysDiffer(w.calls[l.id].provider, w.calls[l.id].digest, provider, digest);
      }
    }
  }

  /** Nothing in `more` removes anything from the cache or stores another response to this request. */
  ghost predicate LeavesAlone(setup: Setup, labels: seq<Label>, more: seq<Label>, provider: string, digest: Digest) {
    forall n :: 0 <= n < |more| ==>
      var w, l := Run(setup, labels + more[..n]), more[n];
      && (l.Foreign? ==> Harmless(l.step) && !l.step.Delete? && !l.step.Clear?)
      && (l.Keep? && l.id in w.calls ==> w.calls[l.id].provider != provider || w.calls[l.id].digest != digest)
  }

  lemma {:induction false} RecordStaysUntouched(setup: Setup, labels: seq<Label>, more: seq<Label>,
                                                provider: string, digest: Digest)
    requires LeavesAlone(setup, labels, more, provider, digest)
    ensures Caches.Written(Run(setup, labels + more).cacheLog, HttpKey(provider, digest))
            == Caches.Written(Run(setup, labels).cacheLog, HttpKey(provider, digest))
  {
    hide Next, Caches.Written, HttpKey;
    if more == [] {
      assert labels + more == labels;
    } else {
      var prefix, n := more[..|more| - 1], |more| - 1;
      assert forall m :: 0 <= m < n ==> prefix[..m] == more[..m] && prefix[m] == more[m];
      RecordStaysUntouched(setup, labels, prefix, provider, digest);
      assert more[..n] == prefix;
      RecordUntouched(setup, Run(setup, labels + prefix), more[n], provider, digest);
      assert (labels + more)[..|labels + more| - 1] == labels + prefix;
    }
  }

  lemma KeepStores(setup: Setup, labels: seq<Label>, author: CallId, at: real)
    requires author in Run(setup, labels).calls && Run(setup, labels).calls[author].phase.Fetched?
    requires Caching(Run(setup, labels).calls[author].ttl)
    ensures
      var w := Run(setup, labels);
      var c := w.calls[author];
      Run(setup, labels + [Keep(author, at)]).cacheLog
      == w.cacheLog + [Caches.Set(KeyOf(c), c.phase.json, c.ttl.value, at)]
  {
    assert (labels + [Keep(author, at)])[..|labels + [Keep(author, at)]| - 1] == labels;
  }

  /** What one call stored is served to another with the same request: over every run, until the ttl is over
      or the response is replaced or removed. */
  lemma StoredIsServed(setup: Setup, labels: seq<Label>, author: CallId, at: real, more: seq<Label>, reader: CallId,
                       later: real)
    requires Legal(labels + [Keep(author, at)] + more + [Look(reader, later)])
    requires author in Run(setup, labels).calls && Run(setup, labels).calls[author].phase.Fetched?
    requires
      var c := Run(setup, labels).calls[author];
      && c.ttl.Some? && c.ttl.value != 0 && later < at + c.ttl.value as real
      && LeavesAlone(setup, labels + [Keep(author, at)], more, c.provider, c.digest)
    requires reader in Run(setup, labels + [Keep(author, at)] + more).calls
    requires
      var c, r := Run(setup, labels).calls[author], Run(setup, labels + [Keep(author, at)] + more).calls[reader];
      r.phase == Arrived && r.provider == c.provider && r.digest == c.digest && r.ttl.Some? && r.ttl.value != 0
    ensures
      var w := Run(setup, labels + [Keep(author, at)] + more + [Look(reader, later)]);
      && reader in w.calls
      && w.calls[reader].phase == Served(Run(setup, labels).calls[author].phase.json, FromCache(later))
  {
    var c, kept := Run(setup, labels).calls[author], labels + [Keep(author, at)];
    var key := KeyOf(c);
    hide Run, Next, Caches.Written, LeavesAlone, Caches.Run, Caches.Lookup, Legal;
    KeepStores(setup, labels, author, at);
    Caches.WrittenAfter(Run(setup, labels).cacheLog, [Caches.Set(key, c.phase.json, c.ttl.value, at)], key);
    RecordStaysUntouched(setup, kept, more, c.provider, c.digest);
    HitsBypassTheBreaker(setup, kept + more, reader, later, []);
    assert kept + more + [Look(reader, later)] + [] == kept + more + [Look(reader, later)];
  }
}
