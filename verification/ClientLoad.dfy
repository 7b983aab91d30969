/**
 The load that all clients of one dead provider put on it together: cache, breaker and retry loop of
 app/providers/http_client.py, in every interleaving of any number of calls to any providers.
 */
module ClientLoad {

  import opened Wrappers
  import opened HttpClients
  import opened CachedReads
  import Caches
  import Breakers = CircuitBreakers
  import BreakerLoad

  predicate IsBusy(c: Call, provider: string) {
    c.provider == provider && (c.phase.InFlight? || c.phase.Waiting? || c.phase.Answered?)
  }

  /** The calls the breaker of a provider let through that have not yet told it how they ended. */
  function Busy(w: World, provider: string): set<CallId> {
    set id | id in w.calls && IsBusy(w.calls[id], provider)
  }

  predicate WasAdmitted(c: Call, provider: string) {
    c.provider == provider
    && !c.phase.Arrived? && !c.phase.Missed? && !c.phase.Rejected? && !(c.phase.Served? && c.phase.source.FromCache?)
  }

  // ---------------------------------------------------------------------------------------------
  // What the breaker of one provider hears
  // ---------------------------------------------------------------------------------------------

  function Heard(w: World, l: Label, provider: string): seq<Breakers.Step> {
    if l.Foreign? || l.Arrive? || l.id !in w.calls || w.calls[l.id].provider != provider then []
    else
      match (l, w.calls[l.id].phase)
      case (Enter(_, at), Missed) => [Breakers.Begin(at)]
      case (Settle(_, at), Answered(Payload(_))) => [Breakers.Succeed(at)]
      case (Settle(_, at), Answered(_)) => [Breakers.Fail(at)]
      case (Cancelled(_, at), InFlight) => [Breakers.Cancel(at)]
      case (Cancelled(_, at), Waiting) => [Breakers.Cancel(at)]
      case (Cancelled(_, at), Answered(_)) => [Breakers.Cancel(at)]
      case _ => []
  }

  lemma NextIsHeard(setup: Setup, w: World, l: Label, provider: string)
    ensures BreakerLog(Next(setup, w, l), provider) == BreakerLog(w, provider) + Heard(w, l, provider)
  {
    hide Caches.Run, Caches.Lookup, Breakers.Run, Breakers.Admits, Tried;
  }

  /** Whether this label lets a call through to the provider. */
  predicate LetsThrough(setup: Setup, w: World, l: Label, provider: string) {
    var cfg := setup.breaker(provider);
    && Heard(w, l, provider) == [Breakers.Begin(l.at)]
    && Breakers.Admits(cfg, Breakers.Run(cfg, BreakerLog(w, provider)), l.at)
  }

  lemma NextMovesOneCall(setup: Setup, w: World, l: Label)
    ensures
      var w' := Next(setup, w, l);
      && w.calls.Keys <= w'.calls.Keys
      && (forall id :: id in w'.calls && (l.Foreign? || id != l.id) ==> id in w.calls && w'.calls[id] == w.calls[id])
  {
    hide Caches.Run, Caches.Lookup, Breakers.Run, Breakers.Admits, BreakerLog, KeyOf, Tried;
  }

  /** What a label changes about its own call. */
  lemma NextMovesItsCall(setup: Setup, w: World, l: Label, provider: string)
    requires !l.Foreign? && l.id in Next(setup, w, l).calls
    ensures
      var c', heard := Next(setup, w, l).calls[l.id], Heard(w, l, provider);
      var busy := l.id in w.calls && IsBusy(w.calls[l.id], provider);
      var admitted := l.id in w.calls && WasAdmitted(w.calls[l.id], provider);
      if heard == [] then (IsBusy(c', provider) <==> busy) && (WasAdmitted(c', provider) <==> admitted)
      else if heard[0].Begin? then
        && !busy && !admitted
        && (IsBusy(c', provider) <==> LetsThrough(setup, w, l, provider))
        && (WasAdmitted(c', provider) <==> LetsThrough(setup, w, l, provider))
      else busy && !IsBusy(c', provider) && admitted && WasAdmitted(c', provider)
  {
    hide Caches.Run, Caches.Lookup, Breakers.Run, Breakers.Admits, BreakerLog, KeyOf, Caught, Settled;
  }

  lemma HeardOfOwnCall(setup: Setup, w: World, l: Label, provider: string)
    ensures Heard(w, l, provider) != [] ==> !l.Foreign? && l.id in w.calls && l.id in Next(setup, w, l).calls
  {
    hide Next;
    NextMovesOneCall(setup, w, l);
  }

  lemma BusyAfter(setup: Setup, w: World, l: Label, provider: string)
    ensures
      var w', heard := Next(setup, w, l), Heard(w, l, provider);
      if heard == [] then Busy(w', provider) == Busy(w, provider)
      else if heard[0].Begin? then
        && l.id !in Busy(w, provider)
        && Busy(w', provider) == Busy(w, provider) + if LetsThrough(setup, w, l, provider) then {l.id} else {}
      else l.id in Busy(w, provider) && Busy(w', provider) == Busy(w, provider) - {l.id}
  {
    hide LetsThrough, IsBusy, WasAdmitted, Next;
    NextMovesOneCall(setup, w, l);
    HeardOfOwnCall(setup, w, l, provider);
    if !l.Foreign? && l.id in Next(setup, w, l).calls {
      NextMovesItsCall(setup, w, l, provider);
    }
  }

  lemma HeardIsOneStep(w: World, l: Label, provider: string)
    ensures |Heard(w, l, provider)| <= 1
    ensures Heard(w, l, provider) != [] ==> Heard(w, l, provider)[0].at == l.at
  {
  }

  lemma InFlightAfter(cfg: Breakers.Config, log: seq<Breakers.Step>, step: Breakers.Step)
    ensures
      var admitted := step.Begin? && Breakers.Admits(cfg, Breakers.Run(cfg, log), step.at);
      && BreakerLoad.InFlight(cfg, log + [step])
         == BreakerLoad.InFlight(cfg, log) + (if step.Begin? then (if admitted then 1 else 0) else -1)
      && BreakerLoad.Admitted(cfg, log + [step]) == BreakerLoad.Admitted(cfg, log) + if admitted then 1 else 0
  {
    hide Breakers.Run, Breakers.Admits;
    assert (log + [step])[..|log + [step]| - 1] == log;
  }

  /** In every interleaving, what a breaker has been told adds up to the calls that are out: only calls
      in flight complete, and none completes twice. */
  lemma {:induction false} BreakerCountsTheBusy(setup: Setup, labels: seq<Label>, provider: string)
    ensures
      var w := Run(setup, labels);
      BreakerLoad.InFlight(setup.breaker(provider), BreakerLog(w, provider)) == |Busy(w, provider)|
  {
    if labels != [] {
      var prefix, l := labels[..|labels| - 1], labels[|labels| - 1];
      var w, log := Run(setup, prefix), BreakerLog(Run(setup, prefix), provider);
      BreakerCountsTheBusy(setup, prefix, provider);
      hide Heard, Busy, Next, BreakerLoad.InFlight, Breakers.Run, Breakers.Admits;
      NextIsHeard(setup, w, l, provider);
      HeardIsOneStep(w, l, provider);
      BusyAfter(setup, w, l, provider);
      if Heard(w, l, provider) != [] {
        assert Heard(w, l, provider) == [Heard(w, l, provider)[0]];
        InFlightAfter(setup.breaker(provider), log, Heard(w, l, provider)[0]);
      } else {
        assert log + [] == log;
      }
    }
  }

  // ---------------------------------------------------------------------------------------------
  // Counting requests call by call
  // ---------------------------------------------------------------------------------------------

  function Tally(f: CallId -> nat, n: nat): nat {
    if n == 0 then 0 else Tally(f, n - 1) + f(n - 1)
  }

  lemma {:induction false} TallyAfter(f: CallId -> nat, g: CallId -> nat, n: nat, id: CallId)
    requires forall i: CallId :: i != id ==> g(i) == f(i)
    ensures Tally(g, n) == Tally(f, n) + if id < n then g(id) - f(id) else 0
  {
    if n > 0 {
      TallyAfter(f, g, n - 1, id);
    }
  }

  lemma {:induction false} TallyBound(f: CallId -> nat, g: CallId -> nat, n: nat, most: nat)
    requires forall i: CallId :: f(i) <= most * g(i)
    ensures Tally(f, n) <= most * Tally(g, n)
  {
    if n > 0 {
      TallyBound(f, g, n - 1, most);
      assert most * Tally(g, n) == most * Tally(g, n - 1) + most * g(n - 1);
    }
  }

  lemma {:induction false} TallyExact(f: CallId -> nat, g: CallId -> nat, n: nat, each: nat)
    requires forall i: CallId :: f(i) == each * g(i)
    ensures Tally(f, n) == each * Tally(g, n)
  {
    if n > 0 {
      TallyExact(f, g, n - 1, each);
      assert each * Tally(g, n) == each * Tally(g, n - 1) + each * g(n - 1);
    }
  }

  function SentTo(w: World, provider: string): CallId -> nat {
    (id: CallId) => if id in w.calls && w.calls[id].provider == provider then w.calls[id].sent else 0
  }

  function AdmittedTo(w: World, provider: string): CallId -> nat {
    (id: CallId) => if id in w.calls && WasAdmitted(w.calls[id], provider) then 1 else 0
  }

  /** Whether a label sends an HTTP request to the provider. */
  predicate IsRequest(w: World, l: Label, provider: string) {
    l.Send? && l.id in w.calls && w.calls[l.id].provider == provider && w.calls[l.id].phase == InFlight
  }

  /** The HTTP requests sent to a provider during a run, whether or not a reply ever came. */
  function Requests(setup: Setup, labels: seq<Label>, provider: string): nat {
    if labels == [] then 0
    else
      var prefix := labels[..|labels| - 1];
      Requests(setup, prefix, provider) + if IsRequest(Run(setup, prefix), labels[|labels| - 1], provider) then 1 else 0
  }

  function Subject(l: Label): CallId { if l.Foreign? then 0 else l.id }

  lemma SentAfter(setup: Setup, w: World, l: Label, provider: string)
    ensures
      var f, g := SentTo(w, provider), SentTo(Next(setup, w, l), provider);
      && (forall i: CallId :: i != Subject(l) ==> g(i) == f(i))
      && g(Subject(l)) == f(Subject(l)) + if IsRequest(w, l, provider) then 1 else 0
  {
    NextMovesOneCall(setup, w, l);
    hide Next;
    if Subject(l) in Next(setup, w, l).calls {
      CallGrows(setup, w, l, Subject(l));
    }
  }

  lemma AdmittedAfter(setup: Setup, w: World, l: Label, provider: string)
    ensures
      var f, g := AdmittedTo(w, provider), AdmittedTo(Next(setup, w, l), provider);
      && (forall i: CallId :: i != Subject(l) ==> g(i) == f(i))
      && g(Subject(l)) == f(Subject(l)) + if LetsThrough(setup, w, l, provider) then 1 else 0
  {
    hide LetsThrough, IsBusy, WasAdmitted, Heard, Next;
    NextMovesOneCall(setup, w, l);
    LetsThroughIsHeard(setup, w, l, provider);
    HeardOfOwnCall(setup, w, l, provider);
    if !l.Foreign? && l.id in Next(setup, w, l).calls {
      NextMovesItsCall(setup, w, l, provider);
    }
  }

  lemma LetsThroughIsHeard(setup: Setup, w: World, l: Label, provider: string)
    ensures LetsThrough(setup, w, l, provider) ==>
              Heard(w, l, provider) == [Breakers.Begin(l.at)] && !l.Foreign? && l.id in Next(setup, w, l).calls
  {
    hide Next;
    HeardOfOwnCall(setup, w, l, provider);
  }

  ghost predicate Below(w: World, n: nat) { forall id :: id in w.calls ==> id < n }

  /** The two tallies are the requests sent and the calls the breaker admitted. */
  lemma {:induction false} TalliesCount(setup: Setup, labels: seq<Label>, provider: string, n: nat)
    requires Below(Run(setup, labels), n)
    ensures
      var w := Run(setup, labels);
      && Tally(SentTo(w, provider), n) == Requests(setup, labels, provider)
      && Tally(AdmittedTo(w, provider), n) == BreakerLoad.Admitted(setup.breaker(provider), BreakerLog(w, provider))
  {
    if labels == [] {
      NobodyYet(provider, n);
    } else {
      var prefix, l := labels[..|labels| - 1], labels[|labels| - 1];
      var w, w' := Run(setup, prefix), Run(setup, labels);
      NextMovesOneCall(setup, w, l);
      TalliesCount(setup, prefix, provider, n);
      NextTallies(setup, w, l, provider, n);
    }
  }

  lemma {:induction false} NobodyYet(provider: string, n: nat)
    ensures Tally(SentTo(EMPTY, provider), n) == 0 && Tally(AdmittedTo(EMPTY, provider), n) == 0
  {
    if n > 0 {
      NobodyYet(provider, n - 1);
    }
  }

  lemma NextTallies(setup: Setup, w: World, l: Label, provider: string, n: nat)
    requires Below(w, n) && Below(Next(setup, w, l), n)
    ensures
      var w', cfg := Next(setup, w, l), setup.breaker(provider);
      && Tally(SentTo(w', provider), n) == Tally(SentTo(w, provider), n) + (if IsRequest(w, l, provider) then 1 else 0)
      && Tally(AdmittedTo(w', provider), n) - Tally(AdmittedTo(w, provider), n)
         == BreakerLoad.Admitted(cfg, BreakerLog(w', provider)) - BreakerLoad.Admitted(cfg, BreakerLog(w, provider))
  {
    SentAfter(setup, w, l, provider);
    AdmittedAfter(setup, w, l, provider);
    LetsThroughIsHeard(setup, w, l, provider);
    AdmittedIsLetThrough(setup, w, l, provider);
    hide Next, BreakerLoad.Admitted, BreakerLog, LetsThrough, SentTo, AdmittedTo;
    TallyAfter(SentTo(w, provider), SentTo(Next(setup, w, l), provider), n, Subject(l));
    TallyAfter(AdmittedTo(w, provider), AdmittedTo(Next(setup, w, l), provider), n, Subject(l));
  }

  lemma AdmittedIsLetThrough(setup: Setup, w: World, l: Label, provider: string)
    ensures
      var cfg := setup.breaker(provider);
      BreakerLoad.Admitted(cfg, BreakerLog(Next(setup, w, l), provider))
      == BreakerLoad.Admitted(cfg, BreakerLog(w, provider)) + if LetsThrough(setup, w, l, provider) then 1 else 0
  {
    hide Heard, Next, BreakerLoad.Admitted, Breakers.Run, Breakers.Admits, BreakerLog;
    var log, heard := BreakerLog(w, provider), Heard(w, l, provider);
    NextIsHeard(setup, w, l, provider);
    HeardIsOneStep(w, l, provider);
    if heard != [] {
      assert heard == [heard[0]];
      InFlightAfter(setup.breaker(provider), log, heard[0]);
    } else {
      assert log + heard == log;
    }
  }

  lemma CallWithinBudget(setup: Setup, labels: seq<Label>, provider: string, id: CallId)
    ensures SentTo(Run(setup, labels), provider)(id)
            <= Budget(setup.maxRetries(provider)) * AdmittedTo(Run(setup, labels), provider)(id)
  {
    hide Run, Budget, Ends, WasAdmitted, FollowsTheLoop;
    var w := Run(setup, labels);
    if id in w.calls && w.calls[id].provider == provider {
      RunFollowsTheLoop(setup, labels, id);
      LoopBounds(w.calls[id], setup.maxRetries(provider));
      NothingSentBeforeAdmission(w.calls[id], setup.maxRetries(provider), provider);
    }
  }

  lemma NothingSentBeforeAdmission(c: Call, maxRetries: int, provider: string)
    requires FollowsTheLoop(c, maxRetries) && c.provider == provider
    ensures !WasAdmitted(c, provider) ==> c.sent == 0
  {
    hide Ends;
  }

  /** Every call spends at most its budget, and only if it was let through. */
  lemma RequestsPerAdmission(setup: Setup, labels: seq<Label>, provider: string)
    ensures Requests(setup, labels, provider)
            <= Budget(setup.maxRetries(provider))
               * BreakerLoad.Admitted(setup.breaker(provider), BreakerLog(Run(setup, labels), provider))
  {
    hide Run, Next, SentTo, AdmittedTo, Tally, Requests, BreakerLoad.Admitted, BreakerLog;
    var w := Run(setup, labels);
    var n := Bounded(setup, labels);
    TalliesCount(setup, labels, provider, n);
    forall id: CallId
      ensures SentTo(w, provider)(id) <= Budget(setup.maxRetries(provider)) * AdmittedTo(w, provider)(id)
    {
      CallWithinBudget(setup, labels, provider, id);
    }
    TallyBound(SentTo(w, provider), AdmittedTo(w, provider), n, Budget(setup.maxRetries(provider)));
  }

  lemma {:induction false} Bounded(setup: Setup, labels: seq<Label>) returns (n: nat)
    ensures Below(Run(setup, labels), n)
  {
    n := 0;
    if labels != [] {
      var prefix, l := labels[..|labels| - 1], labels[|labels| - 1];
      n := Bounded(setup, prefix);
      NextMovesOneCall(setup, Run(setup, prefix), l);
      if !l.Foreign? && l.id >= n {
        n := l.id + 1;
      }
    }
  }

  // ---------------------------------------------------------------------------------------------
  // The joint bound
  // ---------------------------------------------------------------------------------------------

  predicate Delivers(r: Reply) { !Caught(r) && Settled(r).Payload? }

  /** No call to the provider got a payload out of it. */
  ghost predicate NothingDelivered(w: World, provider: string) {
    forall id, k: nat :: id in w.calls && w.calls[id].provider == provider && k < |w.calls[id].replies| ==>
      !Delivers(w.calls[id].replies[k])
  }

  /** At no moment more than `capacity` calls to the provider were out. */
  ghost predicate WithinCapacity(setup: Setup, labels: seq<Label>, provider: string, capacity: nat) {
    forall n :: 0 <= n <= |labels| ==> |Busy(Run(setup, labels[..n]), provider)| <= capacity
  }

  lemma RepliesStay(setup: Setup, w: World, l: Label, id: CallId)
    requires id in w.calls
    ensures id in Next(setup, w, l).calls
    ensures w.calls[id].replies <= Next(setup, w, l).calls[id].replies
    ensures w.calls[id].provider == Next(setup, w, l).calls[id].provider
  {
    NextMovesOneCall(setup, w, l);
    CallGrows(setup, w, l, id);
  }

  lemma NothingDeliveredBefore(setup: Setup, w: World, l: Label, provider: string)
    requires NothingDelivered(Next(setup, w, l), provider)
    ensures NothingDelivered(w, provider)
  {
    hide Delivers;
    forall id, k: nat | id in w.calls && w.calls[id].provider == provider && k < |w.calls[id].replies|
      ensures !Delivers(w.calls[id].replies[k])
    {
      RepliesStay(setup, w, l, id);
      assert w.calls[id].replies[k] == Next(setup, w, l).calls[id].replies[k];
    }
  }

  /** A provider that delivers nothing never makes its breaker hear of a success. */
  lemma NoSuccessHeard(setup: Setup, labels: seq<Label>, l: Label, provider: string)
    requires NothingDelivered(Run(setup, labels), provider)
    ensures forall step :: step in Heard(Run(setup, labels), l, provider) ==> !step.Succeed?
  {
    hide Run;
    var w := Run(setup, labels);
    if !l.Foreign? && l.id in w.calls && w.calls[l.id].provider == provider {
      RunFollowsTheLoop(setup, labels, l.id);
      var c := w.calls[l.id];
      assert c.replies != [] ==> !Delivers(c.replies[|c.replies| - 1]);
    }
  }

  function EndTime(start: real, labels: seq<Label>): real {
    if labels == [] then start else labels[|labels| - 1].at
  }

  lemma {:induction false} BreakerHearsInOrder(setup: Setup, labels: seq<Label>, provider: string, start: real)
    requires Legal(labels) && (labels != [] ==> start <= labels[0].at)
    ensures
      var log := BreakerLog(Run(setup, labels), provider);
      && Breakers.Chronological(log) && Breakers.NotBefore(log, EndTime(start, labels))
      && (log != [] ==> start <= log[0].at)
  {
    hide Heard, Next;
    if labels != [] {
      var prefix, l := labels[..|labels| - 1], labels[|labels| - 1];
      BreakerHearsInOrder(setup, prefix, provider, start);
      NextIsHeard(setup, Run(setup, prefix), l, provider);
      HeardIsOneStep(Run(setup, prefix), l, provider);
    }
  }

  lemma CapacityBefore(setup: Setup, labels: seq<Label>, provider: string, capacity: nat)
    requires WithinCapacity(setup, labels, provider, capacity)
    ensures |Busy(Run(setup, labels), provider)| <= capacity
    ensures labels != [] ==> WithinCapacity(setup, labels[..|labels| - 1], provider, capacity)
  {
    hide Run, Busy;
    assert labels[..|labels|] == labels;
    if labels != [] {
      var prefix := labels[..|labels| - 1];
      forall n | 0 <= n <= |prefix|
        ensures |Busy(Run(setup, prefix[..n]), provider)| <= capacity
      {
        assert prefix[..n] == labels[..n];
      }
    }
  }

  /** What the breaker of a dead provider goes through is a dead-upstream run. */
  lemma {:induction false} BreakerSeesADeadUpstream(setup: Setup, labels: seq<Label>, provider: string, capacity: nat)
    requires NothingDelivered(Run(setup, labels), provider) && WithinCapacity(setup, labels, provider, capacity)
    ensures BreakerLoad.DeadUpstream(setup.breaker(provider), capacity, BreakerLog(Run(setup, labels), provider))
  {
    hide Heard, Next, Busy, NothingDelivered, WithinCapacity, BreakerLoad.InFlight;
    CapacityBefore(setup, labels, provider, capacity);
    BreakerCountsTheBusy(setup, labels, provider);
    if labels != [] {
      var prefix, l := labels[..|labels| - 1], labels[|labels| - 1];
      var w := Run(setup, prefix);
      NothingDeliveredBefore(setup, w, l, provider);
      BreakerSeesADeadUpstream(setup, prefix, provider, capacity);
      NextIsHeard(setup, w, l, provider);
      HeardIsOneStep(w, l, provider);
      NoSuccessHeard(setup, prefix, l, provider);
      hide BreakerLoad.DeadUpstream;
      DeadAfter(setup.breaker(provider), capacity, BreakerLog(w, provider), Heard(w, l, provider));
    }
  }

  lemma DeadAfter(cfg: Breakers.Config, capacity: nat, log: seq<Breakers.Step>, more: seq<Breakers.Step>)
    requires BreakerLoad.DeadUpstream(cfg, capacity, log)
    requires |more| <= 1 && (forall step :: step in more ==> !step.Succeed?)
    requires 0 <= BreakerLoad.InFlight(cfg, log + more) <= capacity
    ensures BreakerLoad.DeadUpstream(cfg, capacity, log + more)
  {
    hide BreakerLoad.InFlight;
    if more == [] {
      assert log + more == log;
    } else {
      assert (log + more)[..|log + more| - 1] == log;
    }
  }

  lemma ScaleDown(requests: nat, budget: nat, admitted: nat, bound: int)
    requires requests <= budget * admitted && admitted <= bound
    ensures requests <= bound * budget
  {
    assert (bound - admitted) * budget >= 0;
  }

  /** The main result.  However the calls of all clients are interleaved, the HTTP requests sent to a
      provider that delivers nothing, answered, outstanding or cut off, are at most the retry budget
      times the calls its breaker may let through: the cancelled ones, `threshold - 1`, and one
      capacity-full burst per recovery period. */
  lemma RequestsToADeadProvider(setup: Setup, labels: seq<Label>, provider: string, capacity: nat, start: real)
    requires setup.breaker(provider).recoverySeconds > 0.0
    requires Legal(labels) && (labels != [] ==> start <= labels[0].at)
    requires NothingDelivered(Run(setup, labels), provider) && WithinCapacity(setup, labels, provider, capacity)
    ensures
      var cfg, log := setup.breaker(provider), BreakerLog(Run(setup, labels), provider);
      Requests(setup, labels, provider)
      <= (BreakerLoad.Cancelled(log) + BreakerLoad.Bound(cfg, capacity, start, EndTime(start, labels)))
         * Budget(setup.maxRetries(provider))
  {
    var cfg, log := setup.breaker(provider), BreakerLog(Run(setup, labels), provider);
    BreakerSeesADeadUpstream(setup, labels, provider, capacity);
    BreakerHearsInOrder(setup, labels, provider, start);
    RequestsPerAdmission(setup, labels, provider);
    hide Run, NothingDelivered, WithinCapacity, BreakerLoad.Bound;
    BreakerLoad.LoadOnADeadUpstream(cfg, capacity, start, log);
    BreakerLoad.BoundGrows(cfg, capacity, start, BreakerLoad.EndTime(start, log), EndTime(start, labels));
    ScaleDown(Requests(setup, labels, provider), Budget(setup.maxRetries(provider)), BreakerLoad.Admitted(cfg, log),
              BreakerLoad.Cancelled(log) + BreakerLoad.Bound(cfg, capacity, start, EndTime(start, labels)));
  }
}
