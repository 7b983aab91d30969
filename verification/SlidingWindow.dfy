/**
 The in-process rate limiter of app/core/rate_limit.py: a sliding window whose state is pruned on
 every check and swept of idle identities once per window.

 The clock read and the locked section of `check` run without a suspension point between them, so
 one check is one atomic step at one moment.
 */
module SlidingWindow {

  import opened RealArithmetic
  import opened Sequences
  import opened RateLimits

  datatype Config = Config(limit: int, window: real)

  /** The fields of a limiter object at one moment. */
  datatype Limiter = Limiter(hits: map<string, seq<real>>, lastSweep: real)

  datatype Request = Request(identity: string, at: real)

  /** The timestamps later than `cutoff`, in order. */
  function Recent(hits: seq<real>, cutoff: real): seq<real> {
    if hits == [] then []
    else
      var before := Recent(hits[..|hits| - 1], cutoff);
      if hits[|hits| - 1] > cutoff then before + [hits[|hits| - 1]] else before
  }

  function HitsOf(hits: map<string, seq<real>>, identity: string): seq<real> {
    if identity in hits then hits[identity] else []
  }

  predicate AnyRecent(hits: seq<real>, cutoff: real) {
    exists ts :: ts in hits && ts > cutoff
  }

  predicate SweepDue(cfg: Config, l: Limiter, now: real) {
    now - l.lastSweep >= cfg.window
  }

  function Swept(cfg: Config, l: Limiter, now: real): Limiter {
    if SweepDue(cfg, l, now) then
      Limiter(map k | k in l.hits && AnyRecent(l.hits[k], now - cfg.window) :: l.hits[k], now)
    else l
  }

  function Check(cfg: Config, l: Limiter, r: Request): (Limiter, Verdict) {
    var swept := Swept(cfg, l, r.at);
    var recent := Recent(HitsOf(swept.hits, r.identity), r.at - cfg.window);
    if |recent| >= cfg.limit then
      (swept.(hits := swept.hits[r.identity := recent]), Verdict(false, 0))
    else
      var kept := recent + [r.at];
      (swept.(hits := swept.hits[r.identity := kept]), Verdict(true, cfg.limit - |kept|))
  }

  /** The limiter after a whole log of requests, built at time `start`. */
  function Run(cfg: Config, start: real, log: seq<Request>): Limiter {
    if log == [] then Limiter(map[], start)
    else Check(cfg, Run(cfg, start, log[..|log| - 1]), log[|log| - 1]).0
  }

  predicate Chronological(log: seq<Request>) {
    forall i, j :: 0 <= i < j < |log| ==> log[i].at <= log[j].at
  }

  function EndTime(start: real, log: seq<Request>): real {
    if log == [] then start else log[|log| - 1].at
  }

  /** `log` is a chronological run of a limiter built at `start`. */
  predicate IsRun(start: real, log: seq<Request>) {
    Chronological(log) && (log != [] ==> start <= log[0].at)
  }

  // ---------------------------------------------------------------------------------------------
  // The reference: a limiter that never forgets an admission and simply counts the window.
  // ---------------------------------------------------------------------------------------------

  /** Every admission of `identity` the reference makes in the whole log, oldest first. */
  function Remembered(cfg: Config, log: seq<Request>, identity: string): seq<real> {
    if log == [] then []
    else
      var before, last := Remembered(cfg, log[..|log| - 1], identity), log[|log| - 1];
      if last.identity == identity && Counts(cfg, before, last.at).allowed then before + [last.at] else before
  }

  function Counts(cfg: Config, admissions: seq<real>, now: real): Verdict {
    var used := |Recent(admissions, now - cfg.window)|;
    if used < cfg.limit then Verdict(true, cfg.limit - used - 1) else Verdict(false, 0)
  }

  function Reference(cfg: Config, log: seq<Request>, r: Request): Verdict {
    Counts(cfg, Remembered(cfg, log, r.identity), r.at)
  }

  lemma {:induction false} RecentMembers(hits: seq<real>, cutoff: real)
    ensures forall ts :: ts in Recent(hits, cutoff) <==> ts in hits && ts > cutoff
  {
    if hits != [] {
      RecentMembers(hits[..|hits| - 1], cutoff);
      assert hits == hits[..|hits| - 1] + [hits[|hits| - 1]];
    }
  }

  lemma {:induction false} RecentIsShorter(hits: seq<real>, cutoff: real)
    ensures |Recent(hits, cutoff)| <= |hits|
  {
    if hits != [] {
      RecentIsShorter(hits[..|hits| - 1], cutoff);
    }
  }

  lemma RecentAppend(hits: seq<real>, ts: real, cutoff: real)
    ensures Recent(hits + [ts], cutoff) == if ts > cutoff then Recent(hits, cutoff) + [ts] else Recent(hits, cutoff)
  {
    assert (hits + [ts])[..|hits + [ts]| - 1] == hits;
  }

  lemma {:induction false} RecentAgain(hits: seq<real>, c: real, c': real)
    requires c <= c'
    ensures Recent(Recent(hits, c), c') == Recent(hits, c')
  {
    if hits != [] {
      var before, last := hits[..|hits| - 1], hits[|hits| - 1];
      RecentAgain(before, c, c');
      RecentAppend(Recent(before, c), last, c');
    }
  }

  lemma RecentOfNone(hits: seq<real>, cutoff: real)
    ensures Recent(hits, cutoff) != [] ==> AnyRecent(hits, cutoff)
  {
    RecentMembers(hits, cutoff);
    if Recent(hits, cutoff) != [] {
      var ts := Recent(hits, cutoff)[0];
      assert ts in hits && ts > cutoff;
    }
  }

  /** Pruning and sweeping lose nothing that a present or later check could still count. */
  ghost predicate Faithful(cfg: Config, l: Limiter, log: seq<Request>, now: real) {
    forall id: string ::
      Recent(HitsOf(l.hits, id), now - cfg.window) == Recent(Remembered(cfg, log, id), now - cfg.window)
  }

  lemma FaithfulLater(cfg: Config, l: Limiter, log: seq<Request>, now: real, now': real)
    requires Faithful(cfg, l, log, now) && now <= now'
    ensures Faithful(cfg, l, log, now')
  {
    forall id: string
      ensures Recent(HitsOf(l.hits, id), now' - cfg.window) == Recent(Remembered(cfg, log, id), now' - cfg.window)
    {
      RecentAgain(HitsOf(l.hits, id), now - cfg.window, now' - cfg.window);
      RecentAgain(Remembered(cfg, log, id), now - cfg.window, now' - cfg.window);
    }
  }

  lemma SweepKeepsFaithful(cfg: Config, l: Limiter, log: seq<Request>, now: real)
    requires Faithful(cfg, l, log, now)
    ensures Faithful(cfg, Swept(cfg, l, now), log, now)
  {
    var swept := Swept(cfg, l, now);
    forall id: string
      ensures Recent(HitsOf(swept.hits, id), now - cfg.window) == Recent(Remembered(cfg, log, id), now - cfg.window)
    {
      if id in l.hits && id !in swept.hits {
        RecentOfNone(l.hits[id], now - cfg.window);
      }
      assert Recent(HitsOf(l.hits, id), now - cfg.window) == Recent(Remembered(cfg, log, id), now - cfg.window);
    }
  }

  /** What one check does to the list of one identity. */
  lemma CheckOneIdentity(cfg: Config, held: seq<real>, admissions: seq<real>, now: real)
    requires Recent(held, now - cfg.window) == Recent(admissions, now - cfg.window)
    ensures
      var cutoff, recent := now - cfg.window, Recent(held, now - cfg.window);
      && Recent(recent, cutoff) == Recent(admissions, cutoff)
      && Recent(recent + [now], cutoff) == Recent(admissions + [now], cutoff)
  {
    hide Recent;
    var cutoff := now - cfg.window;
    RecentAgain(held, cutoff, cutoff);
    RecentAppend(Recent(held, cutoff), now, cutoff);
    RecentAppend(admissions, now, cutoff);
  }

  lemma OthersUntouched(cfg: Config, log: seq<Request>, r: Request, id: string)
    requires id != r.identity
    ensures Remembered(cfg, log + [r], id) == Remembered(cfg, log, id)
  {
    assert (log + [r])[..|log + [r]| - 1] == log;
  }

  lemma CheckedRemembered(cfg: Config, log: seq<Request>, r: Request)
    ensures
      var mine := Remembered(cfg, log, r.identity);
      Remembered(cfg, log + [r], r.identity) ==
        if |Recent(mine, r.at - cfg.window)| >= cfg.limit then mine else mine + [r.at]
  {
    hide Recent;
    assert (log + [r])[..|log + [r]| - 1] == log;
  }

  /** What a check makes of the list it finds. */
  function Kept(cfg: Config, held: seq<real>, now: real): seq<real> {
    var recent := Recent(held, now - cfg.window);
    if |recent| >= cfg.limit then recent else recent + [now]
  }

  lemma CheckStoresKept(cfg: Config, l: Limiter, r: Request)
    ensures
      var swept := Swept(cfg, l, r.at);
      Check(cfg, l, r).0 == swept.(hits := swept.hits[r.identity := Kept(cfg, HitsOf(swept.hits, r.identity), r.at)])
  {
    hide Recent, Swept;
  }

  lemma CheckKeepsFaithful(cfg: Config, l: Limiter, log: seq<Request>, r: Request)
    requires Faithful(cfg, l, log, r.at)
    ensures Check(cfg, l, r).1 == Reference(cfg, log, r)
    ensures Faithful(cfg, Check(cfg, l, r).0, log + [r], r.at)
  {
    hide Recent, Swept, Remembered;
    var swept, cutoff := Swept(cfg, l, r.at), r.at - cfg.window;
    SweepKeepsFaithful(cfg, l, log, r.at);
    assert Recent(HitsOf(swept.hits, r.identity), cutoff) == Recent(Remembered(cfg, log, r.identity), cutoff);
    assert Check(cfg, l, r).1 == Reference(cfg, log, r);
    CheckStoresKept(cfg, l, r);
    hide Check;
    var l' := Check(cfg, l, r).0;
    forall id: string
      ensures Recent(HitsOf(l'.hits, id), cutoff) == Recent(Remembered(cfg, log + [r], id), cutoff)
    {
      if id == r.identity {
        CheckOneIdentity(cfg, HitsOf(swept.hits, id), Remembered(cfg, log, id), r.at);
        CheckedRemembered(cfg, log, r);
      } else {
        OthersUntouched(cfg, log, r, id);
        assert Recent(HitsOf(swept.hits, id), cutoff) == Recent(Remembered(cfg, log, id), cutoff);
      }
    }
  }

  lemma {:induction false} RunIsFaithful(cfg: Config, start: real, log: seq<Request>)
    requires IsRun(start, log)
    ensures Faithful(cfg, Run(cfg, start, log), log, EndTime(start, log))
  {
    if log != [] {
      var prefix, last := log[..|log| - 1], log[|log| - 1];
      RunIsFaithful(cfg, start, prefix);
      FaithfulLater(cfg, Run(cfg, start, prefix), prefix, EndTime(start, prefix), last.at);
      CheckKeepsFaithful(cfg, Run(cfg, start, prefix), prefix, last);
      assert prefix + [last] == log;
    }
  }

  /** For every run over any identities, the limiter answers like the one that never forgets. */
  lemma SweepingIsInvisible(cfg: Config, start: real, log: seq<Request>, r: Request)
    requires IsRun(start, log) && EndTime(start, log) <= r.at
    ensures Check(cfg, Run(cfg, start, log), r).1 == Reference(cfg, log, r)
  {
    RunIsFaithful(cfg, start, log);
    FaithfulLater(cfg, Run(cfg, start, log), log, EndTime(start, log), r.at);
    CheckKeepsFaithful(cfg, Run(cfg, start, log), log, r);
  }

  // ---------------------------------------------------------------------------------------------
  // Safety of whole runs
  // ---------------------------------------------------------------------------------------------

  /** What the limiter itself admitted, step by step through its pruned and swept state. */
  function Admissions(cfg: Config, start: real, log: seq<Request>, identity: string): seq<real> {
    if log == [] then []
    else
      var prefix, last := log[..|log| - 1], log[|log| - 1];
      var before := Admissions(cfg, start, prefix, identity);
      if last.identity == identity && Check(cfg, Run(cfg, start, prefix), last).1.allowed
      then before + [last.at] else before
  }

  /** The limiter admits at exactly the moments at which the one that never forgets does. */
  lemma {:induction false} AdmissionsAreRemembered(cfg: Config, start: real, log: seq<Request>, identity: string)
    requires IsRun(start, log)
    ensures Admissions(cfg, start, log, identity) == Remembered(cfg, log, identity)
  {
    hide Check, Run;
    if log != [] {
      var prefix, last := log[..|log| - 1], log[|log| - 1];
      AdmissionsAreRemembered(cfg, start, prefix, identity);
      SweepingIsInvisible(cfg, start, prefix, last);
    }
  }

  lemma {:induction false} CountAtMostRecent(hits: seq<real>, a: real, b: real, cutoff: real)
    requires cutoff <= a
    ensures CountIn(hits, a, b) <= |Recent(hits, cutoff)|
  {
    if hits != [] {
      CountAtMostRecent(hits[..|hits| - 1], a, b, cutoff);
    }
  }

  lemma {:induction false} RememberedNeverOverfill(cfg: Config, log: seq<Request>, identity: string, a: real)
    requires Chronological(log)
    ensures CountIn(Remembered(cfg, log, identity), a, a + cfg.window) <= if cfg.limit > 0 then cfg.limit else 0
  {
    if log != [] {
      var prefix, last := log[..|log| - 1], log[|log| - 1];
      RememberedNeverOverfill(cfg, prefix, identity, a);
      var before := Remembered(cfg, prefix, identity);
      if last.identity == identity && Counts(cfg, before, last.at).allowed {
        assert (before + [last.at])[..|before + [last.at]| - 1] == before;
        if a < last.at <= a + cfg.window {
          CountAtMostRecent(before, a, a + cfg.window, last.at - cfg.window);
        }
      }
    }
  }

  /** No identity is admitted more than `limit` times in any interval as long as the window. */
  lemma WindowNeverOverfills(cfg: Config, start: real, log: seq<Request>, identity: string, a: real)
    requires IsRun(start, log)
    ensures CountIn(Admissions(cfg, start, log, identity), a, a + cfg.window) <= if cfg.limit > 0 then cfg.limit else 0
  {
    AdmissionsAreRemembered(cfg, start, log, identity);
    RememberedNeverOverfill(cfg, log, identity, a);
  }

  ghost predicate Ordered(s: seq<real>, end: real) {
    && (forall i, j :: 0 <= i < j < |s| ==> s[i] <= s[j])
    && (forall i :: 0 <= i < |s| ==> s[i] <= end)
  }

  lemma {:induction false} RememberedAreOrdered(cfg: Config, log: seq<Request>, identity: string, now: real)
    requires Chronological(log) && EndTime(now, log) <= now
    ensures Ordered(Remembered(cfg, log, identity), now)
  {
    if log != [] {
      var prefix, last := log[..|log| - 1], log[|log| - 1];
      RememberedAreOrdered(cfg, prefix, identity, last.at);
    }
  }

  lemma {:induction false} RecentSuffix(hits: seq<real>, cutoff: real, i: nat)
    requires i <= |hits| && forall k :: i <= k < |hits| ==> hits[k] > cutoff
    ensures |Recent(hits, cutoff)| >= |hits| - i
  {
    if i < |hits| {
      RecentSuffix(hits[..|hits| - 1], cutoff, i);
    }
  }

  lemma {:induction false} RememberedAreSpaced(cfg: Config, log: seq<Request>, identity: string, i: nat)
    requires Chronological(log) && cfg.limit > 0
    requires i + cfg.limit < |Remembered(cfg, log, identity)|
    ensures Remembered(cfg, log, identity)[i + cfg.limit] >= Remembered(cfg, log, identity)[i] + cfg.window
  {
    var prefix, last := log[..|log| - 1], log[|log| - 1];
    var before, s := Remembered(cfg, prefix, identity), Remembered(cfg, log, identity);
    if i + cfg.limit < |before| {
      RememberedAreSpaced(cfg, prefix, identity, i);
    } else if before[i] > last.at - cfg.window {
      RememberedAreOrdered(cfg, prefix, identity, last.at);
      assert forall k :: i <= k < |before| ==> before[k] >= before[i];
      RecentSuffix(before, last.at - cfg.window, i);
    }
  }

  /** The same safety as spacing: admission `i + limit` comes a full window after admission `i`. */
  lemma AdmissionsAreSpaced(cfg: Config, start: real, log: seq<Request>, identity: string, i: nat)
    requires IsRun(start, log) && cfg.limit > 0
    requires i + cfg.limit < |Admissions(cfg, start, log, identity)|
    ensures
      var admitted := Admissions(cfg, start, log, identity);
      admitted[i + cfg.limit] >= admitted[i] + cfg.window
  {
    AdmissionsAreRemembered(cfg, start, log, identity);
    RememberedAreSpaced(cfg, log, identity, i);
  }

  lemma {:induction false} RecentCount(hits: seq<real>, cutoff: real, i: nat)
    requires i <= |hits| && forall k :: i <= k < |hits| ==> hits[k] > cutoff
    requires forall k :: 0 <= k < i ==> hits[k] <= cutoff
    ensures |Recent(hits, cutoff)| == |hits| - i
  {
    if hits != [] {
      RecentCount(hits[..|hits| - 1], cutoff, if i == |hits| then i - 1 else i);
    }
  }

  /** The whole answer, said of the limiter's own admissions: when exactly the last `k` of them are less than
      a window old, a request is admitted iff `k` is below the limit, and is told how many are left. */
  lemma AnswerIsExact(cfg: Config, start: real, log: seq<Request>, r: Request, k: nat)
    requires IsRun(start, log) && EndTime(start, log) <= r.at
    requires k <= |Admissions(cfg, start, log, r.identity)|
    requires
      var admitted := Admissions(cfg, start, log, r.identity);
      && (k > 0 ==> r.at < admitted[|admitted| - k] + cfg.window)
      && (k < |admitted| ==> r.at >= admitted[|admitted| - k - 1] + cfg.window)
    ensures Check(cfg, Run(cfg, start, log), r).1 ==
            if k < cfg.limit then Verdict(true, cfg.limit - k - 1) else Verdict(false, 0)
  {
    var admitted := Admissions(cfg, start, log, r.identity);
    hide Check, Run, Remembered, Admissions, Recent;
    SweepingIsInvisible(cfg, start, log, r);
    AdmissionsAreRemembered(cfg, start, log, r.identity);
    RememberedAreOrdered(cfg, log, r.identity, r.at);
    hide Ordered;
    EdgeTellsCount(admitted, r.at, r.at - cfg.window, k);
  }

  /** In an ordered list the last timestamp that is too old and the first that is not tell all. */
  lemma EdgeTellsCount(hits: seq<real>, end: real, cutoff: real, k: nat)
    requires Ordered(hits, end) && k <= |hits|
    requires (k > 0 ==> hits[|hits| - k] > cutoff) && (k < |hits| ==> hits[|hits| - k - 1] <= cutoff)
    ensures |Recent(hits, cutoff)| == k
  {
    hide Recent;
    var i := |hits| - k;
    assert forall m :: i <= m < |hits| ==> hits[i] <= hits[m];
    assert forall m :: 0 <= m < i ==> hits[m] <= hits[i - 1];
    RecentCount(hits, cutoff, i);
  }

  // ---------------------------------------------------------------------------------------------
  // Memory, and how often the full scan runs
  // ---------------------------------------------------------------------------------------------

  /** Only admissions are kept, never more than `limit` of them, and none kept for nothing. */
  ghost predicate LeanList(cfg: Config, held: seq<real>, admissions: seq<real>, horizon: real) {
    && |held| <= (if cfg.limit > 0 then cfg.limit else 0)
    && (forall ts :: ts in held ==> ts in admissions)
    && (cfg.limit > 0 ==> AnyRecent(held, horizon))
  }

  ghost predicate Lean(cfg: Config, l: Limiter, log: seq<Request>) {
    forall id: string :: id in l.hits ==>
      LeanList(cfg, l.hits[id], Remembered(cfg, log, id), l.lastSweep - cfg.window)
  }

  lemma NewListIsLean(cfg: Config, held: seq<real>, admissions: seq<real>, now: real, horizon: real)
    requires cfg.window > 0.0 && horizon <= now - cfg.window
    requires Recent(held, now - cfg.window) == Recent(admissions, now - cfg.window)
    ensures
      var recent := Recent(held, now - cfg.window);
      && (|recent| >= cfg.limit && |recent| <= (if cfg.limit > 0 then cfg.limit else 0) ==>
            LeanList(cfg, recent, admissions, horizon))
      && (|recent| < cfg.limit ==> LeanList(cfg, recent + [now], admissions + [now], horizon))
  {
    var recent := Recent(held, now - cfg.window);
    RecentMembers(admissions, now - cfg.window);
    if |recent| >= cfg.limit {
      if cfg.limit > 0 {
        var ts := recent[0];
        assert ts in recent && ts > horizon;
      }
    } else {
      assert now in recent + [now];
    }
  }

  lemma SweepKeepsLean(cfg: Config, l: Limiter, log: seq<Request>, now: real)
    requires cfg.window > 0.0 && Lean(cfg, l, log) && l.lastSweep <= now
    ensures Lean(cfg, Swept(cfg, l, now), log)
    ensures Swept(cfg, l, now).lastSweep <= now < Swept(cfg, l, now).lastSweep + cfg.window
  {
    var swept := Swept(cfg, l, now);
    forall id: string | id in swept.hits
      ensures LeanList(cfg, swept.hits[id], Remembered(cfg, log, id), swept.lastSweep - cfg.window)
    {
      assert LeanList(cfg, l.hits[id], Remembered(cfg, log, id), l.lastSweep - cfg.window);
    }
  }

  /** The list of the identity that is being checked. */
  lemma CheckedListIsLean(cfg: Config, swept: Limiter, log: seq<Request>, r: Request)
    requires cfg.window > 0.0 && swept.lastSweep <= r.at
    requires Faithful(cfg, swept, log, r.at) && Lean(cfg, swept, log)
    ensures
      var kept := Kept(cfg, HitsOf(swept.hits, r.identity), r.at);
      LeanList(cfg, kept, Remembered(cfg, log + [r], r.identity), swept.lastSweep - cfg.window)
  {
    hide Recent, AnyRecent, Remembered;
    var held, mine := HitsOf(swept.hits, r.identity), Remembered(cfg, log, r.identity);
    RecentIsShorter(held, r.at - cfg.window);
    assert Recent(held, r.at - cfg.window) == Recent(mine, r.at - cfg.window);
    assert |held| <= if cfg.limit > 0 then cfg.limit else 0;
    hide Faithful, Lean, LeanList;
    NewListIsLean(cfg, held, mine, r.at, swept.lastSweep - cfg.window);
    CheckedRemembered(cfg, log, r);
  }

  lemma LeanUpdate(cfg: Config, l: Limiter, log: seq<Request>, r: Request, kept: seq<real>)
    requires Lean(cfg, l, log)
    requires LeanList(cfg, kept, Remembered(cfg, log + [r], r.identity), l.lastSweep - cfg.window)
    ensures Lean(cfg, l.(hits := l.hits[r.identity := kept]), log + [r])
  {
    forall id: string | id in l.hits && id != r.identity
      ensures LeanList(cfg, l.hits[id], Remembered(cfg, log + [r], id), l.lastSweep - cfg.window)
    {
      OthersUntouched(cfg, log, r, id);
    }
  }

  lemma CheckKeepsLean(cfg: Config, l: Limiter, log: seq<Request>, r: Request)
    requires cfg.window > 0.0 && Faithful(cfg, l, log, r.at) && Lean(cfg, l, log) && l.lastSweep <= r.at
    ensures Lean(cfg, Check(cfg, l, r).0, log + [r])
    ensures Check(cfg, l, r).0.lastSweep <= r.at < Check(cfg, l, r).0.lastSweep + cfg.window
  {
    hide Recent, AnyRecent, Swept, LeanList, Lean, Faithful;
    var swept, l' := Swept(cfg, l, r.at), Check(cfg, l, r).0;
    SweepKeepsFaithful(cfg, l, log, r.at);
    SweepKeepsLean(cfg, l, log, r.at);
    CheckedListIsLean(cfg, swept, log, r);
    CheckStoresKept(cfg, l, r);
    LeanUpdate(cfg, swept, log, r, Kept(cfg, HitsOf(swept.hits, r.identity), r.at));
  }

  lemma {:induction false} RunIsLean(cfg: Config, start: real, log: seq<Request>)
    requires cfg.window > 0.0 && IsRun(start, log)
    ensures
      var l := Run(cfg, start, log);
      && Lean(cfg, l, log)
      && start <= l.lastSweep <= EndTime(start, log) < l.lastSweep + cfg.window
  {
    if log != [] {
      var prefix, last := log[..|log| - 1], log[|log| - 1];
      hide Check, Swept, Faithful, Lean, Remembered;
      RunIsLean(cfg, start, prefix);
      RunIsFaithful(cfg, start, prefix);
      FaithfulLater(cfg, Run(cfg, start, prefix), prefix, EndTime(start, prefix), last.at);
      CheckKeepsLean(cfg, Run(cfg, start, prefix), prefix, last);
      assert prefix + [last] == log;
    }
  }

  /** An identity still held in memory was admitted within the last two windows, and what is held for
      it are at most `limit` of its admissions.  (A limit below one admits nobody and keeps empty lists.) */
  lemma MemoryFollowsTraffic(cfg: Config, start: real, log: seq<Request>, identity: string)
    requires cfg.window > 0.0 && IsRun(start, log)
    requires identity in Run(cfg, start, log).hits
    ensures |Run(cfg, start, log).hits[identity]| <= (if cfg.limit > 0 then cfg.limit else 0)
    ensures forall ts :: ts in Run(cfg, start, log).hits[identity] ==> ts in Admissions(cfg, start, log, identity)
    ensures cfg.limit > 0 ==>
              AnyRecent(Admissions(cfg, start, log, identity), EndTime(start, log) - 2.0 * cfg.window)
  {
    RunIsLean(cfg, start, log);
    AdmissionsAreRemembered(cfg, start, log, identity);
    var l := Run(cfg, start, log);
    if cfg.limit > 0 {
      var ts :| ts in l.hits[identity] && ts > l.lastSweep - cfg.window;
      assert ts in Admissions(cfg, start, log, identity) && ts > EndTime(start, log) - 2.0 * cfg.window;
    }
  }

  /** How many checks of the log scanned all identities. */
  function Sweeps(cfg: Config, start: real, log: seq<Request>): nat {
    if log == [] then 0
    else
      var prefix := log[..|log| - 1];
      Sweeps(cfg, start, prefix) + if SweepDue(cfg, Run(cfg, start, prefix), log[|log| - 1].at) then 1 else 0
  }

  lemma CheckMovesSweep(cfg: Config, l: Limiter, r: Request)
    ensures Check(cfg, l, r).0.lastSweep == if SweepDue(cfg, l, r.at) then r.at else l.lastSweep
  {
  }

  /** Each sweep comes at least a window after the one before it. */
  lemma {:induction false} SweepsAreSpaced(cfg: Config, start: real, log: seq<Request>)
    requires cfg.window > 0.0 && IsRun(start, log)
    ensures start <= Run(cfg, start, log).lastSweep <= EndTime(start, log)
    ensures Sweeps(cfg, start, log) <= WholePeriods(Run(cfg, start, log).lastSweep - start, cfg.window)
  {
    hide Check, WholePeriods;
    if log == [] {
      PeriodsGrow(0.0, 0.0, cfg.window);
    } else {
      var prefix, last := log[..|log| - 1], log[|log| - 1];
      SweepsAreSpaced(cfg, start, prefix);
      var l := Run(cfg, start, prefix);
      CheckMovesSweep(cfg, l, last);
      PeriodsGrow(l.lastSweep - start, last.at - start, cfg.window);
    }
  }

  /** A run of length `T` makes at most `floor(T / window)` full scans. */
  lemma SweepsAreRare(cfg: Config, start: real, log: seq<Request>)
    requires cfg.window > 0.0 && IsRun(start, log)
    ensures Sweeps(cfg, start, log) <= WholePeriods(EndTime(start, log) - start, cfg.window)
  {
    hide Run, WholePeriods;
    SweepsAreSpaced(cfg, start, log);
    PeriodsGrow(Run(cfg, start, log).lastSweep - start, EndTime(start, log) - start, cfg.window);
  }

  // ---------------------------------------------------------------------------------------------
  // The object
  // ---------------------------------------------------------------------------------------------

  lemma RunOneMore(cfg: Config, start: real, log: seq<Request>, r: Request)
    requires IsRun(start, log) && EndTime(start, log) <= r.at
    ensures IsRun(start, log + [r])
    ensures Run(cfg, start, log + [r]) == Check(cfg, Run(cfg, start, log), r).0
  {
    hide Check;
    assert (log + [r])[..|log + [r]| - 1] == log;
  }

  class InMemoryRateLimiter {
    const cfg: Config
    var hits: map<string, seq<real>>
    var lastSweep: real
    ghost const start: real
    ghost var log: seq<Request>

    ghost function Snapshot(): Limiter
      reads this
    {
      Limiter(hits, lastSweep)
    }

    ghost predicate Valid()
      reads this
    {
      IsRun(start, log) && Snapshot() == Run(cfg, start, log)
    }

    constructor (limit: int, window: real, now: real)
      ensures Valid() && log == [] && start == now && cfg == Config(limit, window)
    {
      cfg := Config(limit, window);
      hits, lastSweep, start, log := map[], now, now, [];
    }

    method CheckNow(identity: string, now: real) returns (allowed: bool, remaining: int)
      requires Valid() && EndTime(start, log) <= now
      modifies this
      ensures Valid() && log == old(log) + [Request(identity, now)]
      ensures Verdict(allowed, remaining) == Reference(cfg, old(log), Request(identity, now))
    {
      hide Recent, AnyRecent, Reference, Swept;
      ghost var r := Request(identity, now);
      SweepingIsInvisible(cfg, start, log, r);
      RunOneMore(cfg, start, log, r);
      hide Run;
      Sweep(now, now - cfg.window);
      log := log + [r];
      var recent := Recent(HitsOf(hits, identity), now - cfg.window);
      if |recent| >= cfg.limit {
        hits := hits[identity := recent];
        return false, 0;
      }
      recent := recent + [now];
      hits := hits[identity := recent];
      return true, cfg.limit - |recent|;
    }

    /** Deletes the idle identities one key at a time, at most once per window. */
    method Sweep(now: real, cutoff: real)
      requires cutoff == now - cfg.window
      modifies this`hits, this`lastSweep
      ensures Snapshot() == Swept(cfg, old(Snapshot()), now)
    {
      if now - lastSweep < cfg.window {
        assert !SweepDue(cfg, Snapshot(), now);
        return;
      }
      lastSweep := now;
      var idle := set k | k in hits && !AnyRecent(hits[k], cutoff);
      while idle != {}
        invariant lastSweep == now
        invariant idle <= hits.Keys <= old(hits).Keys
        invariant forall k :: k in hits ==> hits[k] == old(hits)[k]
        invariant forall k :: k in old(hits) && AnyRecent(old(hits)[k], cutoff) ==> k in hits && k !in idle
        invariant forall k :: k in hits && !AnyRecent(hits[k], cutoff) ==> k in idle
        decreases idle
      {
        var key :| key in idle;
        hits := hits - {key};
        idle := idle - {key};
      }
      assert hits == Swept(cfg, old(Snapshot()), now).hits;
    }
  }
}
