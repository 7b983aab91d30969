/**
 The joint bound of `ClientLoad` is attained: clients of a dead provider that follow the worst run of
 its breaker and meet a transport error at every attempt.
 */
module WorstClients {

  import opened Wrappers
  import opened CacheKeys
  import opened HttpClients
  import opened CachedReads
  import opened ClientLoad
  import opened Sequences
  import Breakers = CircuitBreakers
  import BreakerLoad

  // ---------------------------------------------------------------------------------------------
  // The run
  // ---------------------------------------------------------------------------------------------

  const SOME_DIGEST: Digest := "0123456789abcdef0123456789abcdef"

  function EnterOne(provider: string, id: CallId, at: real): seq<Label> {
    [Arrive(id, provider, SOME_DIGEST, None, at), Look(id, at), Enter(id, at)]
  }

  /** The calls `from`, `from + 1`, ... come in. */
  function Enters(provider: string, from: CallId, n: nat, at: real): seq<Label> {
    if n == 0 then [] else Enters(provider, from, n - 1, at) + EnterOne(provider, from + n - 1, at)
  }

  function Turns(id: CallId, n: nat, at: real): seq<Label> {
    if n == 0 then [] else Turns(id, n - 1, at) + [Send(id, at), Receive(id, TransportError, at)]
  }

  function ExitOne(id: CallId, budget: nat, at: real): seq<Label> {
    Turns(id, budget, at) + [Settle(id, at)]
  }

  /** They spend their budgets and fail. */
  function Exits(from: CallId, n: nat, budget: nat, at: real): seq<Label> {
    if n == 0 then [] else Exits(from, n - 1, budget, at) + ExitOne(from + n - 1, budget, at)
  }

  function Burst(provider: string, from: CallId, n: nat, budget: nat, at: real): seq<Label> {
    Enters(provider, from, n, at) + Exits(from, n, budget, at)
  }

  function WarmUp(provider: string, n: nat, budget: nat): seq<Label> {
    if n == 0 then [] else WarmUp(provider, n - 1, budget) + Burst(provider, n - 1, 1, budget, 0.0)
  }

  /** The clients behind `BreakerLoad.WorstRun`. */
  function WorstLabels(setup: Setup, provider: string, capacity: nat, bursts: nat): seq<Label> {
    var cfg, budget := setup.breaker(provider), Budget(setup.maxRetries(provider));
    if bursts == 0 then WarmUp(provider, Breakers.Threshold(cfg) - 1, budget)
    else
      WorstLabels(setup, provider, capacity, bursts - 1)
      + Burst(provider, CallsBefore(cfg, capacity, bursts - 1), capacity, budget, BreakerLoad.Moment(cfg, bursts - 1))
  }

  function CallsBefore(cfg: Breakers.Config, capacity: nat, bursts: nat): nat {
    Breakers.Threshold(cfg) - 1 + capacity * bursts
  }

  // ---------------------------------------------------------------------------------------------
  // Where it leads
  // ---------------------------------------------------------------------------------------------

  /** More labels from a given world on. */
  function Continue(setup: Setup, w: World, more: seq<Label>): World {
    if more == [] then w else Next(setup, Continue(setup, w, more[..|more| - 1]), more[|more| - 1])
  }

  lemma {:induction false} RunContinues(setup: Setup, labels: seq<Label>, more: seq<Label>)
    ensures Run(setup, labels + more) == Continue(setup, Run(setup, labels), more)
  {
    hide Next;
    if more == [] {
      assert labels + more == labels;
    } else {
      RunContinues(setup, labels, more[..|more| - 1]);
      assert (labels + more)[..|labels + more| - 1] == labels + more[..|more| - 1];
    }
  }

  lemma {:induction false} ContinueTwice(setup: Setup, w: World, a: seq<Label>, b: seq<Label>)
    ensures Continue(setup, w, a + b) == Continue(setup, Continue(setup, w, a), b)
  {
    hide Next;
    if b == [] {
      assert a + b == a;
    } else {
      ContinueTwice(setup, w, a, b[..|b| - 1]);
      assert (a + b)[..|a + b| - 1] == a + b[..|b| - 1];
    }
  }

  lemma ContinueOne(setup: Setup, w: World, l: Label)
    ensures Continue(setup, w, [l]) == Next(setup, w, l)
  {
    hide Next;
    assert Continue(setup, w, [l][..0]) == w;
  }

  function Errors(n: nat): seq<Reply> { Repeat(TransportError, n) }

  /** A call of the run after `n` turns. */
  function After(provider: string, maxRetries: int, n: nat): Call {
    Call(provider, SOME_DIGEST, None, if n > maxRetries then Answered(Unavailable) else InFlight, n, Errors(n))
  }

  function SpentCall(provider: string, maxRetries: int): Call {
    After(provider, maxRetries, Budget(maxRetries)).(phase := Failed(Unavailable))
  }

  /** The first `spent` calls are over, the next `entered` ones have come in, and the breaker went through
      `log`. */
  ghost predicate Stage(w: World, provider: string, maxRetries: int, spent: nat, entered: nat,
                        log: seq<Breakers.Step>) {
    && (forall id: CallId :: id in w.calls <==> id < spent + entered)
    && (forall id: CallId :: id < spent ==> w.calls[id] == SpentCall(provider, maxRetries))
    && (forall id: CallId :: spent <= id < spent + entered ==> w.calls[id] == After(provider, maxRetries, 0))
    && BreakerLog(w, provider) == log
  }

  lemma EnterChanges(setup: Setup, w: World, provider: string, id: CallId, at: real)
    requires id !in w.calls
    requires var cfg := setup.breaker(provider); Breakers.Admits(cfg, Breakers.Run(cfg, BreakerLog(w, provider)), at)
    ensures
      var w' := Continue(setup, w, EnterOne(provider, id, at));
      && w'.calls == w.calls[id := After(provider, setup.maxRetries(provider), 0)]
      && BreakerLog(w', provider) == BreakerLog(w, provider) + [Breakers.Begin(at)]
  {
    hide Breakers.Admits, Breakers.Run;
    var labels := EnterOne(provider, id, at);
    var w1 := Next(setup, w, labels[0]);
    var w2 := Next(setup, w1, labels[1]);
    assert Errors(0) == [];
    assert w1 == w.(calls := w.calls[id := Call(provider, SOME_DIGEST, None, Arrived, 0, [])]);
    assert w2 == w.(calls := w.calls[id := Call(provider, SOME_DIGEST, None, Missed, 0, [])]);
    ContinueOne(setup, w, labels[0]);
    ContinueTwice(setup, w, [labels[0]], [labels[1]]);
    ContinueOne(setup, w1, labels[1]);
    ContinueTwice(setup, w, [labels[0]] + [labels[1]], [labels[2]]);
    ContinueOne(setup, w2, labels[2]);
    assert [labels[0]] + [labels[1]] + [labels[2]] == labels;
  }

  lemma TurnChanges(setup: Setup, w: World, provider: string, id: CallId, n: nat, at: real)
    requires n <= setup.maxRetries(provider)
    requires id in w.calls && w.calls[id] == After(provider, setup.maxRetries(provider), n)
    ensures Continue(setup, w, [Send(id, at), Receive(id, TransportError, at)])
            == w.(calls := w.calls[id := After(provider, setup.maxRetries(provider), n + 1)])
  {
    var c := w.calls[id];
    var sent := Next(setup, w, Send(id, at));
    assert sent == w.(calls := w.calls[id := c.(sent := n + 1, phase := Waiting)]);
    assert Errors(n) + [TransportError] == Errors(n + 1);
    ContinueOne(setup, w, Send(id, at));
    ContinueTwice(setup, w, [Send(id, at)], [Receive(id, TransportError, at)]);
    ContinueOne(setup, sent, Receive(id, TransportError, at));
  }

  lemma {:induction false} TurnsChange(setup: Setup, w: World, provider: string, id: CallId, n: nat, at: real)
    requires n <= Budget(setup.maxRetries(provider))
    requires id in w.calls && w.calls[id] == After(provider, setup.maxRetries(provider), 0)
    ensures Continue(setup, w, Turns(id, n, at))
            == w.(calls := w.calls[id := After(provider, setup.maxRetries(provider), n)])
  {
    hide Next, After;
    if n == 0 {
      assert w.calls[id := w.calls[id]] == w.calls;
    } else {
      hide Continue, Budget;
      TurnsChange(setup, w, provider, id, n - 1, at);
      var before := Continue(setup, w, Turns(id, n - 1, at));
      ContinueTwice(setup, w, Turns(id, n - 1, at), [Send(id, at), Receive(id, TransportError, at)]);
      TurnChanges(setup, before, provider, id, n - 1, at);
    }
  }

  lemma SettleChanges(setup: Setup, w: World, provider: string, id: CallId, at: real)
    requires id in w.calls
    requires w.calls[id] == After(provider, setup.maxRetries(provider), Budget(setup.maxRetries(provider)))
    ensures
      var w' := Next(setup, w, Settle(id, at));
      && w'.calls == w.calls[id := SpentCall(provider, setup.maxRetries(provider))]
      && BreakerLog(w', provider) == BreakerLog(w, provider) + [Breakers.Fail(at)]
  {
  }

  lemma ExitChanges(setup: Setup, w: World, provider: string, id: CallId, at: real)
    requires id in w.calls && w.calls[id] == After(provider, setup.maxRetries(provider), 0)
    ensures
      var w' := Continue(setup, w, ExitOne(id, Budget(setup.maxRetries(provider)), at));
      && w'.calls == w.calls[id := SpentCall(provider, setup.maxRetries(provider))]
      && BreakerLog(w', provider) == BreakerLog(w, provider) + [Breakers.Fail(at)]
  {
    hide Next, Continue, After, Turns, SpentCall;
    var budget := Budget(setup.maxRetries(provider));
    TurnsChange(setup, w, provider, id, budget, at);
    var answered := Continue(setup, w, Turns(id, budget, at));
    ContinueTwice(setup, w, Turns(id, budget, at), [Settle(id, at)]);
    ContinueOne(setup, answered, Settle(id, at));
    SettleChanges(setup, answered, provider, id, at);
  }

  /** Every caller of a burst is let in. */
  ghost predicate AllAdmitted(cfg: Breakers.Config, log: seq<Breakers.Step>, n: nat, at: real) {
    forall k: nat :: k < n ==> Breakers.Admits(cfg, Breakers.Run(cfg, log + Repeat(Breakers.Begin(at), k)), at)
  }

  lemma {:induction false} EntersLead(setup: Setup, w: World, provider: string, spent: nat, n: nat, at: real,
                                      log: seq<Breakers.Step>)
    requires Stage(w, provider, setup.maxRetries(provider), spent, 0, log)
    requires AllAdmitted(setup.breaker(provider), log, n, at)
    ensures Stage(Continue(setup, w, Enters(provider, spent, n, at)), provider, setup.maxRetries(provider), spent, n,
                  log + Repeat(Breakers.Begin(at), n))
  {
    hide Next, After, SpentCall, Breakers.Admits, Breakers.Run, EnterOne, BreakerLog;
    if n == 0 {
      assert log + Repeat(Breakers.Begin(at), 0) == log;
    } else {
      EntersLead(setup, w, provider, spent, n - 1, at, log);
      var before := Continue(setup, w, Enters(provider, spent, n - 1, at));
      hide Continue;
      ContinueTwice(setup, w, Enters(provider, spent, n - 1, at), EnterOne(provider, spent + n - 1, at));
      EnterChanges(setup, before, provider, spent + n - 1, at);
      BreakerLoad.Unroll(log, Breakers.Begin(at), n);
    }
  }

  lemma {:induction false} ExitsLead(setup: Setup, w: World, provider: string, spent: nat, entered: nat, n: nat,
                                     at: real,
                                     log: seq<Breakers.Step>)
    requires n <= entered && Stage(w, provider, setup.maxRetries(provider), spent, entered, log)
    ensures Stage(Continue(setup, w, Exits(spent, n, Budget(setup.maxRetries(provider)), at)), provider,
                  setup.maxRetries(provider), spent + n, entered - n, log + Repeat(Breakers.Fail(at), n))
  {
    hide Next, After, SpentCall, ExitOne, BreakerLog, Budget;
    if n == 0 {
      assert log + Repeat(Breakers.Fail(at), 0) == log;
    } else {
      var budget := Budget(setup.maxRetries(provider));
      ExitsLead(setup, w, provider, spent, entered, n - 1, at, log);
      var before := Continue(setup, w, Exits(spent, n - 1, budget, at));
      hide Continue;
      ContinueTwice(setup, w, Exits(spent, n - 1, budget, at), ExitOne(spent + n - 1, budget, at));
      ExitChanges(setup, before, provider, spent + n - 1, at);
      BreakerLoad.Unroll(log, Breakers.Fail(at), n);
    }
  }

  /** A burst of the run takes the breaker where `n` admissions and `n` failures take it. */
  lemma BurstLeads(setup: Setup, labels: seq<Label>, provider: string, spent: nat, n: nat, at: real,
                   log: seq<Breakers.Step>)
    requires Stage(Run(setup, labels), provider, setup.maxRetries(provider), spent, 0, log)
    requires AllAdmitted(setup.breaker(provider), log, n, at)
    ensures Stage(Run(setup, labels + Burst(provider, spent, n, Budget(setup.maxRetries(provider)), at)), provider,
                  setup.maxRetries(provider), spent + n, 0,
                  log + Repeat(Breakers.Begin(at), n) + Repeat(Breakers.Fail(at), n))
  {
    hide Run, Continue, Enters, Exits, Budget;
    var enters, exits := Enters(provider, spent, n, at), Exits(spent, n, Budget(setup.maxRetries(provider)), at);
    RunContinues(setup, labels, enters + exits);
    ContinueTwice(setup, Run(setup, labels), enters, exits);
    EntersLead(setup, Run(setup, labels), provider, spent, n, at, log);
    ExitsLead(setup, Continue(setup, Run(setup, labels), enters), provider, spent, n, n, at,
              log + Repeat(Breakers.Begin(at), n));
  }

  // ---------------------------------------------------------------------------------------------
  // Legality
  // ---------------------------------------------------------------------------------------------

  /** All at one moment, and nobody else at work. */
  predicate Together(labels: seq<Label>, at: real) {
    forall i :: 0 <= i < |labels| ==> labels[i].at == at && !labels[i].Foreign?
  }

  lemma {:induction false} TurnsTogether(id: CallId, n: nat, at: real)
    ensures Together(Turns(id, n, at), at)
  {
    if n > 0 {
      TurnsTogether(id, n - 1, at);
    }
  }

  lemma {:induction false} EntersTogether(provider: string, from: CallId, n: nat, at: real)
    ensures Together(Enters(provider, from, n, at), at)
  {
    if n > 0 {
      EntersTogether(provider, from, n - 1, at);
    }
  }

  lemma {:induction false} ExitsTogether(from: CallId, n: nat, budget: nat, at: real)
    ensures Together(Exits(from, n, budget, at), at)
  {
    if n > 0 {
      ExitsTogether(from, n - 1, budget, at);
      TurnsTogether(from + n - 1, budget, at);
    }
  }

  /** `labels` is a legal run from zero to `end`. */
  ghost predicate RunsUntil(labels: seq<Label>, end: real) {
    Legal(labels) && forall i :: 0 <= i < |labels| ==> 0.0 <= labels[i].at <= end
  }

  lemma BurstIsLegal(labels: seq<Label>, end: real, provider: string, from: CallId, n: nat, budget: nat, at: real)
    requires RunsUntil(labels, end) && 0.0 <= at && end <= at
    ensures RunsUntil(labels + Burst(provider, from, n, budget, at), at)
  {
    EntersTogether(provider, from, n, at);
    ExitsTogether(from, n, budget, at);
    hide Enters, Exits;
    var burst := Burst(provider, from, n, budget, at);
    assert Together(burst, at);
    hide Burst;
  }

  // ---------------------------------------------------------------------------------------------
  // The bound
  // ---------------------------------------------------------------------------------------------

  /** What a burst needs of the breaker log it follows. */
  ghost predicate Ready(cfg: Breakers.Config, capacity: nat, log: seq<Breakers.Step>, at: real) {
    && Breakers.NotBefore(log, at) && Breakers.Chronological(log) && Breakers.AdmitRule(cfg, log, at)
    && BreakerLoad.DeadUpstream(cfg, capacity, log) && BreakerLoad.InFlight(cfg, log) == 0
  }

  lemma ReadyAdmitsAll(cfg: Breakers.Config, capacity: nat, log: seq<Breakers.Step>, n: nat, at: real)
    requires Ready(cfg, capacity, log, at) && n <= capacity
    ensures AllAdmitted(cfg, log, n, at)
  {
    hide Breakers.Admits, Breakers.Run, Breakers.AdmitRule, BreakerLoad.DeadUpstream, BreakerLoad.InFlight;
    forall k: nat | k < n
      ensures Breakers.Admits(cfg, Breakers.Run(cfg, log + Repeat(Breakers.Begin(at), k)), at)
    {
      BreakerLoad.BeginsPileUp(cfg, capacity, log, at, k);
      Breakers.AdmissionFollowsTheRule(cfg, log + Repeat(Breakers.Begin(at), k), at);
    }
  }

  lemma WarmUpIsReady(cfg: Breakers.Config, capacity: nat, n: nat)
    requires n < Breakers.Threshold(cfg) && capacity > 0
    ensures Ready(cfg, capacity, BreakerLoad.WarmUp(n), 0.0)
  {
    BreakerLoad.WarmUpFails(cfg, capacity, n);
    hide BreakerLoad.WarmUp;
  }

  lemma WorstRunIsReady(cfg: Breakers.Config, capacity: nat, bursts: nat)
    requires cfg.recoverySeconds > 0.0 && capacity > 0
    ensures Ready(cfg, capacity, BreakerLoad.WorstRun(cfg, capacity, bursts), BreakerLoad.Moment(cfg, bursts))
  {
    BreakerLoad.TheBoundIsAttained(cfg, capacity, bursts);
    BreakerLoad.MomentArithmetic(cfg, capacity, bursts);
    if bursts > 0 {
      BreakerLoad.MomentArithmetic(cfg, capacity, bursts - 1);
    }
    hide BreakerLoad.WorstRun, BreakerLoad.Moment, BreakerLoad.DeadUpstream, BreakerLoad.InFlight, BreakerLoad.Bound;
  }

  lemma NobodyIn(setup: Setup, provider: string)
    ensures Stage(Run(setup, []), provider, setup.maxRetries(provider), 0, 0, [])
    ensures RunsUntil([], 0.0)
  {
  }

  lemma {:induction false} WarmUpLeads(setup: Setup, provider: string, capacity: nat, n: nat)
    requires n < Breakers.Threshold(setup.breaker(provider)) && capacity > 0
    ensures
      var labels := WarmUp(provider, n, Budget(setup.maxRetries(provider)));
      && Stage(Run(setup, labels), provider, setup.maxRetries(provider), n, 0, BreakerLoad.WarmUp(n))
      && RunsUntil(labels, 0.0)
  {
    hide Stage, Burst, Budget, Ready, AllAdmitted, Run, RunsUntil, Breakers.Threshold;
    if n == 0 {
      NobodyIn(setup, provider);
    } else {
      var budget := Budget(setup.maxRetries(provider));
      WarmUpLeads(setup, provider, capacity, n - 1);
      WarmUpIsReady(setup.breaker(provider), capacity, n - 1);
      ReadyAdmitsAll(setup.breaker(provider), capacity, BreakerLoad.WarmUp(n - 1), 1, 0.0);
      BurstLeads(setup, WarmUp(provider, n - 1, budget), provider, n - 1, 1, 0.0, BreakerLoad.WarmUp(n - 1));
      BurstIsLegal(WarmUp(provider, n - 1, budget), 0.0, provider, n - 1, 1, budget, 0.0);
    }
  }

  /** The clients take the breaker through its worst run. */
  lemma {:induction false} WorstLabelsLead(setup: Setup, provider: string, capacity: nat, bursts: nat)
    requires setup.breaker(provider).recoverySeconds > 0.0 && capacity > 0
    ensures
      var cfg, labels := setup.breaker(provider), WorstLabels(setup, provider, capacity, bursts);
      && Stage(Run(setup, labels), provider, setup.maxRetries(provider), CallsBefore(cfg, capacity, bursts), 0,
               BreakerLoad.WorstRun(cfg, capacity, bursts))
      && RunsUntil(labels, if bursts == 0 then 0.0 else BreakerLoad.Moment(cfg, bursts - 1))
  {
    hide Stage, Burst, Budget, Ready, AllAdmitted, Run, RunsUntil, BreakerLoad.Moment;
    var cfg, budget := setup.breaker(provider), Budget(setup.maxRetries(provider));
    if bursts == 0 {
      WarmUpLeads(setup, provider, capacity, Breakers.Threshold(cfg) - 1);
    } else {
      var k := bursts - 1;
      var before := WorstLabels(setup, provider, capacity, k);
      var log, at := BreakerLoad.WorstRun(cfg, capacity, k), BreakerLoad.Moment(cfg, k);
      WorstLabelsLead(setup, provider, capacity, k);
      WorstRunIsReady(cfg, capacity, k);
      ReadyAdmitsAll(cfg, capacity, log, capacity, at);
      BreakerLoad.MomentArithmetic(cfg, capacity, k);
      if k > 0 {
        BreakerLoad.MomentArithmetic(cfg, capacity, k - 1);
      }
      BurstLeads(setup, before, provider, CallsBefore(cfg, capacity, k), capacity, at, log);
      BurstIsLegal(before, if k == 0 then 0.0 else BreakerLoad.Moment(cfg, k - 1), provider,
                   CallsBefore(cfg, capacity, k), capacity, budget, at);
      assert CallsBefore(cfg, capacity, bursts) == CallsBefore(cfg, capacity, k) + capacity;
    }
  }

  /** When all calls are over they have spent their whole budgets, in vain. */
  lemma SpentInVain(setup: Setup, labels: seq<Label>, provider: string, n: nat, log: seq<Breakers.Step>)
    requires Stage(Run(setup, labels), provider, setup.maxRetries(provider), n, 0, log)
    ensures NothingDelivered(Run(setup, labels), provider)
    ensures Requests(setup, labels, provider)
            == Budget(setup.maxRetries(provider)) * BreakerLoad.Admitted(setup.breaker(provider), log)
  {
    hide Run, Next;
    var w, budget := Run(setup, labels), Budget(setup.maxRetries(provider));
    TalliesCount(setup, labels, provider, n);
    forall id: CallId
      ensures SentTo(w, provider)(id) == budget * AdmittedTo(w, provider)(id)
    {
    }
    TallyExact(SentTo(w, provider), AdmittedTo(w, provider), n, budget);
  }

  lemma {:induction false} DeadPrefix(cfg: Breakers.Config, capacity: nat, log: seq<Breakers.Step>,
                                      more: seq<Breakers.Step>)
    requires BreakerLoad.DeadUpstream(cfg, capacity, log + more)
    ensures BreakerLoad.InFlight(cfg, log) <= capacity && BreakerLoad.DeadUpstream(cfg, capacity, log)
  {
    hide BreakerLoad.InFlight;
    if more == [] {
      assert log + more == log;
    } else {
      assert (log + more)[..|log + more| - 1] == log + more[..|more| - 1];
      DeadPrefix(cfg, capacity, log, more[..|more| - 1]);
    }
  }

  /** A dead-upstream log within capacity keeps the clients within capacity. */
  lemma {:induction false} CapacityFromLog(setup: Setup, labels: seq<Label>, provider: string, capacity: nat)
    requires BreakerLoad.DeadUpstream(setup.breaker(provider), capacity, BreakerLog(Run(setup, labels), provider))
    ensures WithinCapacity(setup, labels, provider, capacity)
  {
    hide Next, Busy, Heard, BreakerLoad.InFlight, BreakerLoad.DeadUpstream;
    var log := BreakerLog(Run(setup, labels), provider);
    BreakerCountsTheBusy(setup, labels, provider);
    assert log + [] == log;
    DeadPrefix(setup.breaker(provider), capacity, log, []);
    assert labels[..|labels|] == labels;
    if labels != [] {
      var prefix, l := labels[..|labels| - 1], labels[|labels| - 1];
      NextIsHeard(setup, Run(setup, prefix), l, provider);
      DeadPrefix(setup.breaker(provider), capacity, BreakerLog(Run(setup, prefix), provider),
                 Heard(Run(setup, prefix), l, provider));
      CapacityFromLog(setup, prefix, provider, capacity);
      assert forall n :: 0 <= n <= |prefix| ==> prefix[..n] == labels[..n];
    }
  }

  lemma WorstLog(cfg: Breakers.Config, capacity: nat, bursts: nat)
    requires cfg.recoverySeconds > 0.0 && capacity > 0 && bursts > 0
    ensures
      var log := BreakerLoad.WorstRun(cfg, capacity, bursts);
      && BreakerLoad.DeadUpstream(cfg, capacity, log) && BreakerLoad.Cancelled(log) == 0
      && BreakerLoad.Admitted(cfg, log) == BreakerLoad.Bound(cfg, capacity, 0.0, BreakerLoad.Moment(cfg, bursts - 1))
  {
    hide BreakerLoad.WorstRun, BreakerLoad.Bound, BreakerLoad.DeadUpstream, BreakerLoad.Admitted, BreakerLoad.Moment;
    BreakerLoad.TheBoundIsAttained(cfg, capacity, bursts);
    BreakerLoad.MomentArithmetic(cfg, capacity, bursts - 1);
  }

  lemma Swap(a: int, b: int)
    ensures a * b == b * a
  {
  }

  /** The joint bound is attained: for every setup, capacity and number of bursts there is a legal run of
      the clients within capacity, without a cancellation and without a payload, that sends exactly as
      many requests as `RequestsToADeadProvider` allows by the time of its last burst. */
  lemma TheJointBoundIsAttained(setup: Setup, provider: string, capacity: nat, bursts: nat)
    requires setup.breaker(provider).recoverySeconds > 0.0 && capacity > 0 && bursts > 0
    ensures
      var cfg, labels := setup.breaker(provider), WorstLabels(setup, provider, capacity, bursts);
      var end := BreakerLoad.Moment(cfg, bursts - 1);
      && Legal(labels) && (forall i :: 0 <= i < |labels| ==> 0.0 <= labels[i].at <= end)
      && NothingDelivered(Run(setup, labels), provider) && WithinCapacity(setup, labels, provider, capacity)
      && BreakerLoad.Cancelled(BreakerLog(Run(setup, labels), provider)) == 0
      && Requests(setup, labels, provider)
         == BreakerLoad.Bound(cfg, capacity, 0.0, end) * Budget(setup.maxRetries(provider))
  {
    hide Run, WorstLabels, Requests, NothingDelivered, WithinCapacity, BreakerLog, Budget, CallsBefore;
    hide BreakerLoad.WorstRun, BreakerLoad.Moment, BreakerLoad.Bound, BreakerLoad.DeadUpstream, BreakerLoad.Admitted;
    var cfg, labels := setup.breaker(provider), WorstLabels(setup, provider, capacity, bursts);
    var log := BreakerLoad.WorstRun(cfg, capacity, bursts);
    WorstLabelsLead(setup, provider, capacity, bursts);
    SpentInVain(setup, labels, provider, CallsBefore(cfg, capacity, bursts), log);
    assert BreakerLog(Run(setup, labels), provider) == log;
    hide Stage, Legal;
    WorstLog(cfg, capacity, bursts);
    CapacityFromLog(setup, labels, provider, capacity);
    Swap(Budget(setup.maxRetries(provider)), BreakerLoad.Admitted(cfg, log));
  }
}
