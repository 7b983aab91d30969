/**
 The Redis rate limiter of app/core/rate_limit.py: INCR and EXPIRE NX in one transaction.

 The server is a map from key to counter, and each command has its documented effect.  Whether a
 key still exists at the very instant of its expiry is left open (`inclusive`): every result holds
 both ways.  Transactions of any number of nodes are serialised by the server, so a run is one
 chronological sequence of checks.
 */
module FixedWindow {

  import opened Wrappers
  import opened Sequences
  import opened RateLimits

  datatype Config = Config(limit: int, window: real, inclusive: bool)

  datatype Counter = Counter(count: int, expiry: Option<real>)

  type Server = map<string, Counter>

  datatype Hit = Hit(identity: string, at: real)

  function Key(identity: string): string { "ratelimit:" + identity }

  predicate LiveAt(cfg: Config, c: Counter, now: real) {
    c.expiry.None? || now < c.expiry.value || (cfg.inclusive && now == c.expiry.value)
  }

  /** The counter a command sees: expired keys do not exist. */
  function Lookup(cfg: Config, s: Server, key: string, now: real): Option<Counter> {
    if key in s && LiveAt(cfg, s[key], now) then Some(s[key]) else None
  }

  function Incr(cfg: Config, s: Server, key: string, now: real): Server {
    match Lookup(cfg, s, key, now)
    case Some(c) => s[key := c.(count := c.count + 1)]
    case None => s[key := Counter(1, None)]
  }

  function ExpireNX(cfg: Config, s: Server, key: string, now: real): Server {
    match Lookup(cfg, s, key, now)
    case Some(c) => if c.expiry.None? then s[key := c.(expiry := Some(now + cfg.window))] else s
    case None => s
  }

  /** One `check`: the transaction, then the answer computed from the counter it returned. */
  function Check(cfg: Config, s: Server, h: Hit): (Server, Verdict) {
    var incremented := Incr(cfg, s, Key(h.identity), h.at);
    var count := incremented[Key(h.identity)].count;
    ( ExpireNX(cfg, incremented, Key(h.identity), h.at),
      Verdict(count <= cfg.limit, if cfg.limit - count > 0 then cfg.limit - count else 0))
  }

  function Run(cfg: Config, log: seq<Hit>): Server {
    if log == [] then map[]
    else Check(cfg, Run(cfg, log[..|log| - 1]), log[|log| - 1]).0
  }

  predicate Chronological(log: seq<Hit>) {
    forall i, j :: 0 <= i < j < |log| ==> log[i].at <= log[j].at
  }

  /** Whatever the server held before, even a counter stranded without an expiry, the transaction
      leaves the key of the caller with an expiry at most one window away from its start. */
  lemma TransactionLeavesAnExpiry(cfg: Config, s: Server, h: Hit)
    requires cfg.window > 0.0
    ensures
      var s' := Check(cfg, s, h).0;
      && Key(h.identity) in s' && s'[Key(h.identity)].expiry.Some?
      && s'.Keys == s.Keys + {Key(h.identity)}
      && (forall k :: k in s && k != Key(h.identity) ==> s'[k] == s[k])
      && (match Lookup(cfg, s, Key(h.identity), h.at)
          case Some(c) =>
            s'[Key(h.identity)] == Counter(c.count + 1, if c.expiry.Some? then c.expiry else Some(h.at + cfg.window))
          case None => s'[Key(h.identity)] == Counter(1, Some(h.at + cfg.window)))
  {
  }

  /** So over any run from an empty server every key carries an expiry. */
  lemma {:induction false} EveryKeyExpires(cfg: Config, log: seq<Hit>, key: string)
    requires cfg.window > 0.0 && key in Run(cfg, log)
    ensures Run(cfg, log)[key].expiry.Some?
  {
    var prefix, last := log[..|log| - 1], log[|log| - 1];
    TransactionLeavesAnExpiry(cfg, Run(cfg, prefix), last);
    if key != Key(last.identity) {
      EveryKeyExpires(cfg, prefix, key);
    }
  }

  // ---------------------------------------------------------------------------------------------
  // What an identity is admitted, grouped by counting window
  // ---------------------------------------------------------------------------------------------

  /** The admissions of one identity: those of earlier windows, those of the current window, and
      the window's start and hit count. */
  datatype Ledger = Ledger(older: seq<real>, current: seq<real>, start: real, count: nat)

  function All(l: Ledger): seq<real> { l.older + l.current }

  predicate Open(cfg: Config, l: Ledger, now: real) {
    l.count > 0 && (now < l.start + cfg.window || (cfg.inclusive && now == l.start + cfg.window))
  }

  function Record(cfg: Config, l: Ledger, now: real): Ledger {
    var entered := if Open(cfg, l, now) then l else Ledger(All(l), [], now, 0);
    var counted := entered.(count := entered.count + 1);
    if counted.count <= cfg.limit then counted.(current := counted.current + [now]) else counted
  }

  /** The ledger of one identity, from the hits of that identity alone. */
  function LedgerOf(cfg: Config, log: seq<Hit>, identity: string): Ledger {
    if log == [] then Ledger([], [], 0.0, 0)
    else
      var before, last := LedgerOf(cfg, log[..|log| - 1], identity), log[|log| - 1];
      if last.identity == identity then Record(cfg, before, last.at) else before
  }

  /** What the limiter itself admitted, step by step through the shared server. */
  function Admissions(cfg: Config, log: seq<Hit>, identity: string): seq<real> {
    if log == [] then []
    else
      var prefix, last := log[..|log| - 1], log[|log| - 1];
      var before := Admissions(cfg, prefix, identity);
      if last.identity == identity && Check(cfg, Run(cfg, prefix), last).1.allowed then before + [last.at] else before
  }

  lemma KeysAreDistinct(a: string, b: string)
    ensures Key(a) == Key(b) <==> a == b
  {
    if Key(a) == Key(b) {
      assert a == Key(a)[10..] == Key(b)[10..] == b;
    }
  }

  ghost predicate Agrees(cfg: Config, s: Server, l: Ledger, identity: string) {
    var key := Key(identity);
    && (key in s <==> l.count > 0)
    && (key in s ==> s[key] == Counter(l.count, Some(l.start + cfg.window)))
  }

  lemma CheckAgrees(cfg: Config, s: Server, l: Ledger, h: Hit, identity: string)
    requires cfg.window > 0.0 && Agrees(cfg, s, l, identity)
    ensures
      var (s', verdict) := Check(cfg, s, h);
      if h.identity == identity then
        && Agrees(cfg, s', Record(cfg, l, h.at), identity)
        && All(Record(cfg, l, h.at)) == if verdict.allowed then All(l) + [h.at] else All(l)
      else Agrees(cfg, s', l, identity)
  {
    TransactionLeavesAnExpiry(cfg, s, h);
    KeysAreDistinct(identity, h.identity);
  }

  /** Identities do not influence one another, and the ledger explains every admission. */
  lemma {:induction false} LedgerExplainsTheServer(cfg: Config, log: seq<Hit>, identity: string)
    requires cfg.window > 0.0
    ensures Agrees(cfg, Run(cfg, log), LedgerOf(cfg, log, identity), identity)
    ensures Admissions(cfg, log, identity) == All(LedgerOf(cfg, log, identity))
  {
    if log != [] {
      var prefix, last := log[..|log| - 1], log[|log| - 1];
      LedgerExplainsTheServer(cfg, prefix, identity);
      hide Check, Record, All;
      CheckAgrees(cfg, Run(cfg, prefix), LedgerOf(cfg, prefix, identity), last, identity);
    }
  }

  // ---------------------------------------------------------------------------------------------
  // The sharp bound
  // ---------------------------------------------------------------------------------------------

  lemma {:induction false} CountConcat(s: seq<real>, t: seq<real>, a: real, b: real)
    ensures CountIn(s + t, a, b) == CountIn(s, a, b) + CountIn(t, a, b)
  {
    if t == [] {
      assert s + t == s;
    } else {
      CountConcat(s, t[..|t| - 1], a, b);
      assert (s + t)[..|s + t| - 1] == s + t[..|t| - 1];
    }
  }

  lemma {:induction false} CountNone(s: seq<real>, a: real, b: real)
    requires forall i :: 0 <= i < |s| ==> s[i] <= a || s[i] > b
    ensures CountIn(s, a, b) == 0
  {
    if s != [] {
      CountNone(s[..|s| - 1], a, b);
    }
  }

  lemma {:induction false} CountAtMostLength(s: seq<real>, a: real, b: real)
    ensures CountIn(s, a, b) <= |s|
    ensures s != [] && s[0] <= a ==> CountIn(s, a, b) <= |s| - 1
  {
    if s != [] {
      CountAtMostLength(s[..|s| - 1], a, b);
    }
  }

  /** Where the admissions of a ledger lie. */
  ghost predicate Placed(cfg: Config, l: Ledger, now: real) {
    && (l.count == 0 ==> l.older == [] && l.current == [])
    && (l.count > 0 ==> l.start <= now && l.current != [] && l.current[0] == l.start)
    && |l.current| == (if l.count < cfg.limit then l.count else cfg.limit)
    && (forall i :: 0 <= i < |l.current| ==> l.start <= l.current[i] <= now)
    && (forall i :: 0 <= i < |l.older| ==> l.older[i] <= l.start)
  }

  /** An older window that reaches into `(a, a + window]` lost its first admission on the way. */
  ghost predicate Bounded(cfg: Config, l: Ledger, a: real) {
    var b := a + cfg.window;
    CountIn(l.older, a, b) <= if l.start <= b then cfg.limit - 1 else 2 * cfg.limit - 1
  }

  lemma TotalIsBounded(cfg: Config, l: Ledger, a: real, now: real)
    requires cfg.limit > 0 && Placed(cfg, l, now) && Bounded(cfg, l, a)
    ensures CountIn(All(l), a, a + cfg.window) <= 2 * cfg.limit - 1
  {
    CountConcat(l.older, l.current, a, a + cfg.window);
    CountAtMostLength(l.current, a, a + cfg.window);
    if l.start > a + cfg.window {
      CountNone(l.current, a, a + cfg.window);
    }
  }

  lemma RecordKeepsPlaces(cfg: Config, l: Ledger, before: real, now: real)
    requires cfg.limit > 0 && cfg.window > 0.0 && before <= now && Placed(cfg, l, before)
    ensures Placed(cfg, Record(cfg, l, now), now)
  {
  }

  lemma RecordKeepsTheBound(cfg: Config, l: Ledger, a: real, before: real, now: real)
    requires cfg.limit > 0 && cfg.window > 0.0 && before <= now
    requires Placed(cfg, l, before) && Bounded(cfg, l, a)
    ensures Bounded(cfg, Record(cfg, l, now), a)
  {
    TotalIsBounded(cfg, l, a, before);
    var b := a + cfg.window;
    if !Open(cfg, l, now) {
      if l.count == 0 {
        assert All(l) == [];
      } else if now <= b {
        CountConcat(l.older, l.current, a, b);
        CountNone(l.older, a, b);
        CountAtMostLength(l.current, a, b);
      }
    }
  }

  lemma PlacedLater(cfg: Config, l: Ledger, now: real, now': real)
    ensures Placed(cfg, l, now) && now <= now' ==> Placed(cfg, l, now')
  {
  }

  lemma {:induction false} LedgerIsBounded(cfg: Config, log: seq<Hit>, identity: string, a: real, now: real)
    requires cfg.limit > 0 && cfg.window > 0.0 && Chronological(log)
    requires log != [] ==> log[|log| - 1].at <= now
    ensures Placed(cfg, LedgerOf(cfg, log, identity), now) && Bounded(cfg, LedgerOf(cfg, log, identity), a)
  {
    if log != [] {
      var prefix, last := log[..|log| - 1], log[|log| - 1];
      hide Record, Placed, Bounded;
      LedgerIsBounded(cfg, prefix, identity, a, last.at);
      PlacedLater(cfg, LedgerOf(cfg, log, identity), last.at, now);
      RecordKeepsPlaces(cfg, LedgerOf(cfg, prefix, identity), last.at, last.at);
      RecordKeepsTheBound(cfg, LedgerOf(cfg, prefix, identity), a, last.at, last.at);
    }
  }

  lemma {:induction false} NothingWithoutALimit(cfg: Config, log: seq<Hit>, identity: string)
    requires cfg.window > 0.0 && cfg.limit <= 0
    ensures LedgerOf(cfg, log, identity).older == LedgerOf(cfg, log, identity).current == []
  {
    if log != [] {
      NothingWithoutALimit(cfg, log[..|log| - 1], identity);
    }
  }

  /** Any interval `(a, a + window]` holds at most `2 * limit - 1` admissions of one identity. */
  lemma FixedWindowBound(cfg: Config, log: seq<Hit>, identity: string, a: real)
    requires cfg.window > 0.0 && Chronological(log)
    ensures CountIn(Admissions(cfg, log, identity), a, a + cfg.window)
            <= if cfg.limit > 0 then 2 * cfg.limit - 1 else 0
  {
    LedgerExplainsTheServer(cfg, log, identity);
    if cfg.limit > 0 {
      var now := if log == [] then 0.0 else log[|log| - 1].at;
      LedgerIsBounded(cfg, log, identity, a, now);
      TotalIsBounded(cfg, LedgerOf(cfg, log, identity), a, now);
    } else {
      NothingWithoutALimit(cfg, log, identity);
    }
  }

  // The bound is attained: one early hit opens a window whose rest is spent late, and a full second
  // window follows right behind it.

  function WorstRun(cfg: Config, identity: string, mid: real, late: real): seq<Hit>
    requires cfg.limit > 0
  {
    [Hit(identity, 0.0)] + Repeat(Hit(identity, mid), cfg.limit - 1)
    + [Hit(identity, late)] + Repeat(Hit(identity, late), cfg.limit - 1)
  }

  /** `n` hits at one moment of an open window with room for them are all admitted. */
  lemma {:induction false} HitsInAnOpenWindow(cfg: Config, log: seq<Hit>, identity: string, at: real, n: nat)
    requires
      var l := LedgerOf(cfg, log, identity);
      Open(cfg, l, at) && l.count + n <= cfg.limit
    ensures
      var l, l' := LedgerOf(cfg, log, identity), LedgerOf(cfg, log + Repeat(Hit(identity, at), n), identity);
      l' == l.(current := l.current + Repeat(at, n), count := l.count + n)
  {
    var hits := Repeat(Hit(identity, at), n);
    if n == 0 {
      assert log + hits == log;
      assert LedgerOf(cfg, log, identity).current + Repeat(at, 0) == LedgerOf(cfg, log, identity).current;
    } else {
      HitsInAnOpenWindow(cfg, log, identity, at, n - 1);
      assert (log + hits)[..|log + hits| - 1] == log + Repeat(Hit(identity, at), n - 1);
      assert Repeat(at, n) == Repeat(at, n - 1) + [at];
    }
  }

  lemma {:induction false} CountRepeated(at: real, n: nat, a: real, b: real)
    requires a < at <= b
    ensures CountIn(Repeat(at, n), a, b) == n
  {
    if n > 0 {
      CountRepeated(at, n - 1, a, b);
      assert Repeat(at, n)[..n - 1] == Repeat(at, n - 1);
    }
  }

  lemma OneHit(cfg: Config, log: seq<Hit>, identity: string, at: real)
    ensures LedgerOf(cfg, log + [Hit(identity, at)], identity) == Record(cfg, LedgerOf(cfg, log, identity), at)
  {
    assert (log + [Hit(identity, at)])[..|log + [Hit(identity, at)]| - 1] == log;
  }

  /** A hit after the window has closed opens the next one. */
  lemma NextWindow(cfg: Config, log: seq<Hit>, identity: string, late: real)
    requires cfg.limit > 0
    requires !Open(cfg, LedgerOf(cfg, log, identity), late)
    ensures LedgerOf(cfg, log + [Hit(identity, late)], identity)
            == Ledger(All(LedgerOf(cfg, log, identity)), [late], late, 1)
  {
    hide LedgerOf;
    OneHit(cfg, log, identity, late);
  }

  lemma FilledWindow(cfg: Config, log: seq<Hit>, identity: string, start: real, at: real)
    requires
      var l := LedgerOf(cfg, log, identity);
      cfg.limit > 0 && start <= at < start + cfg.window && l.count == 1 && l.start == start && l.current == [start]
    ensures
      var l := LedgerOf(cfg, log, identity);
      var l' := LedgerOf(cfg, log + Repeat(Hit(identity, at), cfg.limit - 1), identity);
      l'.older == l.older && l'.current == [start] + Repeat(at, cfg.limit - 1) && l'.start == start && l'.count > 0
  {
    hide LedgerOf;
    HitsInAnOpenWindow(cfg, log, identity, at, cfg.limit - 1);
  }

  lemma WorstLedger(cfg: Config, identity: string, mid: real, late: real)
    requires cfg.limit > 0 && 0.0 < mid < cfg.window < late
    ensures
      var l := LedgerOf(cfg, WorstRun(cfg, identity, mid, late), identity);
      l.older == [0.0] + Repeat(mid, cfg.limit - 1) && l.current == [late] + Repeat(late, cfg.limit - 1)
  {
    assert LedgerOf(cfg, [], identity) == Ledger([], [], 0.0, 0);
    hide LedgerOf;
    var first := [Hit(identity, 0.0)];
    NextWindow(cfg, [], identity, 0.0);
    assert [] + first == first;
    FilledWindow(cfg, first, identity, 0.0, mid);
    var spent := first + Repeat(Hit(identity, mid), cfg.limit - 1);
    NextWindow(cfg, spent, identity, late);
    FilledWindow(cfg, spent + [Hit(identity, late)], identity, late, late);
    assert All(LedgerOf(cfg, spent, identity)) == [0.0] + Repeat(mid, cfg.limit - 1);
  }

  lemma CountStartingWith(x: real, at: real, n: nat, a: real, b: real)
    requires a < at <= b
    ensures CountIn([x] + Repeat(at, n), a, b) == n + if a < x <= b then 1 else 0
  {
    CountConcat([x], Repeat(at, n), a, b);
    CountRepeated(at, n, a, b);
    assert [x][..0] == [];
  }

  lemma WorstRunIsChronological(cfg: Config, identity: string, mid: real, late: real)
    requires cfg.limit > 0 && 0.0 < mid < late
    ensures Chronological(WorstRun(cfg, identity, mid, late))
  {
    var log := WorstRun(cfg, identity, mid, late);
    assert forall i :: 0 <= i < |log| ==> log[i].at == if i == 0 then 0.0 else if i < cfg.limit then mid else late;
  }

  lemma WorstAdmissions(cfg: Config, identity: string, mid: real, late: real)
    requires cfg.limit > 0 && 0.0 < mid < cfg.window < late
    ensures
      Admissions(cfg, WorstRun(cfg, identity, mid, late), identity)
      == ([0.0] + Repeat(mid, cfg.limit - 1)) + ([late] + Repeat(late, cfg.limit - 1))
  {
    hide Admissions, WorstRun, LedgerOf;
    LedgerExplainsTheServer(cfg, WorstRun(cfg, identity, mid, late), identity);
    WorstLedger(cfg, identity, mid, late);
  }

  lemma WorstCount(n: nat, mid: real, late: real, a: real)
    requires 0.0 < a < mid < late
    ensures CountIn(([0.0] + Repeat(mid, n)) + ([late] + Repeat(late, n)), a, late) == 2 * n + 1
  {
    CountConcat([0.0] + Repeat(mid, n), [late] + Repeat(late, n), a, late);
    CountStartingWith(0.0, mid, n, a, late);
    CountStartingWith(late, late, n, a, late);
  }

  /** For every pair of moments of this shape; such pairs exist for every window. */
  lemma TheBoundIsAttained(cfg: Config, identity: string, mid: real, late: real)
    requires cfg.limit > 0 && 0.0 < mid < cfg.window < late < cfg.window + mid
    ensures
      CountIn(Admissions(cfg, WorstRun(cfg, identity, mid, late), identity), late - cfg.window, late)
      == 2 * cfg.limit - 1
  {
    hide Admissions, WorstRun, CountIn;
    WorstAdmissions(cfg, identity, mid, late);
    WorstCount(cfg.limit - 1, mid, late, late - cfg.window);
  }

  // ---------------------------------------------------------------------------------------------
  // Nobody is locked out for good
  // ---------------------------------------------------------------------------------------------

  /** Hits that are not admitted never move the window of their identity. */
  lemma {:induction false} RejectionsDoNotExtend(cfg: Config, log: seq<Hit>, more: seq<Hit>, identity: string)
    requires cfg.limit > 0 && cfg.window > 0.0
    ensures
      var l, l' := LedgerOf(cfg, log, identity), LedgerOf(cfg, log + more, identity);
      |All(l')| > |All(l)| || (l'.start == l.start && All(l') == All(l) && (l.count > 0 ==> l'.count > 0))
  {
    if more == [] {
      assert log + more == log;
    } else {
      RejectionsDoNotExtend(cfg, log, more[..|more| - 1], identity);
      assert (log + more)[..|log + more| - 1] == log + more[..|more| - 1];
    }
  }

  /** After any check, however many hits of anybody arrive meanwhile, the identity has been admitted
      again by its first check more than one window later. */
  lemma LockoutEnds(cfg: Config, log: seq<Hit>, h: Hit, more: seq<Hit>, again: Hit)
    requires cfg.limit > 0 && cfg.window > 0.0
    requires Chronological(log + [h] + more + [again])
    requires again.identity == h.identity && again.at > h.at + cfg.window
    ensures
      |Admissions(cfg, log + [h] + more + [again], h.identity)| > |Admissions(cfg, log + [h], h.identity)|
  {
    var id, seen, full := h.identity, log + [h], log + [h] + more + [again];
    LedgerExplainsTheServer(cfg, seen, id);
    LedgerExplainsTheServer(cfg, full, id);
    RejectionsDoNotExtend(cfg, seen, more, id);
    assert seen[..|seen| - 1] == log;
    assert full[..|full| - 1] == seen + more;
    assert forall i, j :: 0 <= i < j < |seen| ==> full[i] == seen[i] && full[j] == seen[j];
    LedgerIsBounded(cfg, seen, id, 0.0, h.at);
  }

  // ---------------------------------------------------------------------------------------------
  // What the answer promises
  // ---------------------------------------------------------------------------------------------

  function HitsBy(log: seq<Hit>, identity: string): nat {
    if log == [] then 0 else HitsBy(log[..|log| - 1], identity) + if log[|log| - 1].identity == identity then 1 else 0
  }

  /** Within an open window every hit is counted and the window stays. */
  lemma {:induction false} WindowCounts(cfg: Config, log: seq<Hit>, more: seq<Hit>, identity: string)
    requires LedgerOf(cfg, log, identity).count > 0
    requires forall i :: 0 <= i < |more| ==> more[i].at < LedgerOf(cfg, log, identity).start + cfg.window
    ensures
      var l, l' := LedgerOf(cfg, log, identity), LedgerOf(cfg, log + more, identity);
      l'.count == l.count + HitsBy(more, identity) && l'.start == l.start
  {
    if more == [] {
      assert log + more == log;
    } else {
      WindowCounts(cfg, log, more[..|more| - 1], identity);
      assert (log + more)[..|log + more| - 1] == log + more[..|more| - 1];
    }
  }

  /** The verdict on a hit, from the ledger after it. */
  lemma VerdictFromLedger(cfg: Config, log: seq<Hit>, h: Hit)
    requires cfg.window > 0.0
    ensures
      var l, v := LedgerOf(cfg, log + [h], h.identity), Check(cfg, Run(cfg, log), h).1;
      && l.count > 0
      && v == Verdict(l.count <= cfg.limit, if cfg.limit > l.count then cfg.limit - l.count else 0)
      && Key(h.identity) in Run(cfg, log + [h])
      && Run(cfg, log + [h])[Key(h.identity)].expiry == Some(l.start + cfg.window)
  {
    assert (log + [h])[..|log + [h]| - 1] == log;
    LedgerExplainsTheServer(cfg, log, h.identity);
    LedgerExplainsTheServer(cfg, log + [h], h.identity);
    TransactionLeavesAnExpiry(cfg, Run(cfg, log), h);
  }

  /** `remaining` is exact: whatever anybody does meanwhile, a further hit of the identity before its counter
      expires is admitted exactly when fewer than `remaining` of its hits have come in between. */
  lemma RemainingIsExact(cfg: Config, log: seq<Hit>, h: Hit, more: seq<Hit>, next: Hit)
    requires cfg.window > 0.0 && Chronological(log + [h] + more + [next]) && next.identity == h.identity
    requires Key(h.identity) in Run(cfg, log + [h]) && Run(cfg, log + [h])[Key(h.identity)].expiry.Some?
    requires next.at < Run(cfg, log + [h])[Key(h.identity)].expiry.value
    ensures
      var remaining := Check(cfg, Run(cfg, log), h).1.remaining;
      && remaining >= 0
      && (Check(cfg, Run(cfg, log + [h] + more), next).1.allowed <==> HitsBy(more, h.identity) < remaining)
  {
    hide Run, Check, LedgerOf, HitsBy, Chronological;
    var seen := log + [h] + more;
    NextComesLast(log + [h], more, next);
    VerdictFromLedger(cfg, log, h);
    VerdictFromLedger(cfg, seen, next);
    WindowCounts(cfg, log + [h], more + [next], h.identity);
    assert log + [h] + (more + [next]) == seen + [next];
    HitsByAppend(more, next);
  }

  lemma NextComesLast(log: seq<Hit>, more: seq<Hit>, next: Hit)
    requires Chronological(log + more + [next])
    ensures forall i :: 0 <= i < |more| ==> more[i].at <= next.at
  {
    var full := log + more + [next];
    forall i | 0 <= i < |more|
      ensures more[i].at <= next.at
    {
      assert full[|log| + i] == more[i] && full[|full| - 1] == next;
    }
  }

  lemma HitsByAppend(log: seq<Hit>, h: Hit)
    ensures HitsBy(log + [h], h.identity) == HitsBy(log, h.identity) + 1
  {
    assert (log + [h])[..|log + [h]| - 1] == log;
  }

  // ---------------------------------------------------------------------------------------------
  // The objects
  // ---------------------------------------------------------------------------------------------

  /** The server: one transaction at a time, each at one moment of its clock. */
  class RedisServer {
    var counters: Server

    constructor ()
      ensures counters == map[]
    {
      counters := map[];
    }

    method IncrKey(cfg: Config, key: string, now: real) returns (count: int)
      modifies this
      ensures counters == Incr(cfg, old(counters), key, now) && count == counters[key].count
    {
      var c := Counter(0, None);
      if key in counters && LiveAt(cfg, counters[key], now) {
        c := counters[key];
      }
      count := c.count + 1;
      counters := counters[key := c.(count := count)];
    }

    method ExpireKeyNX(cfg: Config, key: string, now: real)
      modifies this
      ensures counters == ExpireNX(cfg, old(counters), key, now)
    {
      if key in counters && LiveAt(cfg, counters[key], now) && counters[key].expiry.None? {
        counters := counters[key := counters[key].(expiry := Some(now + cfg.window))];
      }
    }
  }

  class RedisRateLimiter {
    const cfg: Config
    const server: RedisServer

    constructor (cfg: Config, server: RedisServer)
      ensures this.cfg == cfg && this.server == server
    {
      this.cfg, this.server := cfg, server;
    }

    method CheckNow(identity: string, now: real) returns (allowed: bool, remaining: int)
      modifies server
      ensures (server.counters, Verdict(allowed, remaining)) == Check(cfg, old(server.counters), Hit(identity, now))
    {
      var count := server.IncrKey(cfg, Key(identity), now);
      server.ExpireKeyNX(cfg, Key(identity), now);
      remaining := if cfg.limit - count > 0 then cfg.limit - count else 0;
      allowed := count <= cfg.limit;
    }
  }
}
