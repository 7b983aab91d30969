/**
 How much traffic a circuit breaker lets through to an upstream that never recovers.

 The bound holds for every interleaving, is proved from the admission rule of `CircuitBreakers`,
 and is attained by a run built at the end.
 */
module BreakerLoad {

  import opened Wrappers
  import opened CircuitBreakers
  import opened RealArithmetic
  import opened Sequences

  predicate IsAdmission(cfg: Config, prefix: seq<Step>, step: Step) {
    step.Begin? && Admits(cfg, Run(cfg, prefix), step.at)
  }

  /** Calls that were let through. */
  function Admitted(cfg: Config, log: seq<Step>): nat {
    if log == [] then 0
    else
      var prefix, last := log[..|log| - 1], log[|log| - 1];
      Admitted(cfg, prefix) + if IsAdmission(cfg, prefix, last) then 1 else 0
  }

  function Cancelled(log: seq<Step>): nat {
    if log == [] then 0
    else Cancelled(log[..|log| - 1]) + if log[|log| - 1].Cancel? then 1 else 0
  }

  /** Calls let through and not yet finished in any way. */
  function InFlight(cfg: Config, log: seq<Step>): int {
    if log == [] then 0
    else
      var prefix, last := log[..|log| - 1], log[|log| - 1];
      InFlight(cfg, prefix)
      + if last.Begin? then (if IsAdmission(cfg, prefix, last) then 1 else 0) else -1
  }

  /** No call succeeds; only calls in flight finish; at most `capacity` are in flight at once. */
  predicate DeadUpstream(cfg: Config, capacity: nat, log: seq<Step>) {
    && 0 <= InFlight(cfg, log) <= capacity
    && (log != [] ==> !log[|log| - 1].Succeed? && DeadUpstream(cfg, capacity, log[..|log| - 1]))
  }

  /** The time of the last step, or `start` when nothing happened. */
  function EndTime(start: real, log: seq<Step>): real {
    if log == [] then start else log[|log| - 1].at
  }

  function Bound(cfg: Config, capacity: nat, start: real, end: real): int
    requires cfg.recoverySeconds > 0.0
  {
    Threshold(cfg) - 1 + capacity * (1 + WholePeriods(end - start, cfg.recoverySeconds))
  }

  lemma Products(c: nat, p: nat, d: nat)
    ensures c * (1 + p) >= c && c * (1 + (p + d)) >= c * (1 + p)
    ensures d >= 1 ==> c * (1 + (p + d)) >= c * (1 + p) + c
  {
    assert c * (1 + (p + d)) == c * (1 + p) + c * d;
    assert d >= 1 ==> c * d == c + c * (d - 1);
  }

  lemma ProductOrder(c: nat, p: int, q: int)
    requires 0 <= p <= q
    ensures c <= c * (1 + p) <= c * (1 + q)
    ensures q >= p + 1 ==> c * (1 + p) + c <= c * (1 + q)
  {
    Products(c, p, q - p);
  }

  lemma BoundGrows(cfg: Config, capacity: nat, start: real, t: real, t': real)
    requires cfg.recoverySeconds > 0.0 && start <= t <= t'
    ensures Threshold(cfg) - 1 + capacity <= Bound(cfg, capacity, start, t) <= Bound(cfg, capacity, start, t')
    ensures t' >= t + cfg.recoverySeconds
            ==> Bound(cfg, capacity, start, t) + capacity <= Bound(cfg, capacity, start, t')
  {
    var r := cfg.recoverySeconds;
    PeriodsGrow(t - start, t' - start, r);
    ProductOrder(capacity, WholePeriods(t - start, r), WholePeriods(t' - start, r));
  }

  // The current burst: what happened since the last failure.

  function BurstAdmitted(cfg: Config, log: seq<Step>): nat {
    if log == [] || log[|log| - 1].Fail? then 0
    else
      var prefix, last := log[..|log| - 1], log[|log| - 1];
      BurstAdmitted(cfg, prefix) + if IsAdmission(cfg, prefix, last) then 1 else 0
  }

  function BurstCancelled(log: seq<Step>): nat {
    if log == [] || log[|log| - 1].Fail? then 0
    else BurstCancelled(log[..|log| - 1]) + if log[|log| - 1].Cancel? then 1 else 0
  }

  /** What every step keeps: everything before the current burst is already paid for by the
      recovery periods up to the last failure, and a burst starts a full period after it. */
  ghost predicate Paid(cfg: Config, capacity: nat, start: real, log: seq<Step>)
    requires cfg.recoverySeconds > 0.0
  {
    && BurstCancelled(log) <= Cancelled(log)
    && BurstAdmitted(cfg, log) <= InFlight(cfg, log) + BurstCancelled(log)
    && Admitted(cfg, log) == TrailingFailures(log) + InFlight(cfg, log) + Cancelled(log)
    && (TrailingFailures(log) >= Threshold(cfg) ==>
          && LastFailure(log).Some? && start <= LastFailure(log).value <= EndTime(start, log)
          && Admitted(cfg, log) - BurstAdmitted(cfg, log)
             <= Cancelled(log) - BurstCancelled(log) + Bound(cfg, capacity, start, LastFailure(log).value)
          && (BurstAdmitted(cfg, log) > 0 ==>
                EndTime(start, log) >= LastFailure(log).value + cfg.recoverySeconds))
  }

  lemma {:induction false} EveryBurstIsPaid(cfg: Config, capacity: nat, start: real, log: seq<Step>)
    requires cfg.recoverySeconds > 0.0
    requires Chronological(log) && DeadUpstream(cfg, capacity, log)
    requires log != [] ==> start <= log[0].at
    ensures Paid(cfg, capacity, start, log)
  {
    if log != [] {
      var prefix, last := log[..|log| - 1], log[|log| - 1];
      EveryBurstIsPaid(cfg, capacity, start, prefix);
      assert start <= EndTime(start, prefix) <= last.at;
      match last
      case Begin(at) =>
        AdmissionFollowsTheRule(cfg, prefix, at);
      case Fail(at) =>
        if TrailingFailures(log) >= Threshold(cfg) {
          if TrailingFailures(prefix) < Threshold(cfg) {
            BoundGrows(cfg, capacity, start, start, at);
          } else {
            BoundGrows(cfg, capacity, start, LastFailure(prefix).value, at);
          }
        }
      case Cancel(_) =>
    }
  }

  /** The load bound: a fresh breaker in front of a dead upstream admits, besides calls that were
      cancelled, at most `threshold - 1` calls plus one capacity-full burst per recovery period. */
  lemma LoadOnADeadUpstream(cfg: Config, capacity: nat, start: real, log: seq<Step>)
    requires cfg.recoverySeconds > 0.0
    requires Chronological(log) && DeadUpstream(cfg, capacity, log)
    requires log != [] ==> start <= log[0].at
    ensures Admitted(cfg, log) <= Cancelled(log) + Bound(cfg, capacity, start, EndTime(start, log))
  {
    EveryBurstIsPaid(cfg, capacity, start, log);
    BoundGrows(cfg, capacity, start, start, EndTime(start, log));
    if TrailingFailures(log) >= Threshold(cfg) {
      BoundGrows(cfg, capacity, start, LastFailure(log).value, EndTime(start, log));
    }
  }

  // ---------------------------------------------------------------------------------------------
  // The bound is attained: fail up to the threshold one call at a time, then spend a full burst of
  // concurrent calls at once and again after each recovery period.
  // ---------------------------------------------------------------------------------------------

  function Moment(cfg: Config, k: nat): real { k as real * cfg.recoverySeconds }

  /** `threshold - 1` calls failing one after the other at time zero. */
  function WarmUp(n: nat): seq<Step> {
    if n == 0 then [] else WarmUp(n - 1) + Repeat(Begin(0.0), 1) + Repeat(Fail(0.0), 1)
  }

  function WorstRun(cfg: Config, capacity: nat, bursts: nat): seq<Step> {
    if bursts == 0 then WarmUp(Threshold(cfg) - 1)
    else
      WorstRun(cfg, capacity, bursts - 1)
      + Repeat(Begin(Moment(cfg, bursts - 1)), capacity)
      + Repeat(Fail(Moment(cfg, bursts - 1)), capacity)
  }

  /** A run of identical steps appended one at a time. */
  lemma Unroll(log: seq<Step>, step: Step, n: nat)
    requires n > 0
    ensures log + Repeat(step, n) == log + Repeat(step, n - 1) + [step]
  {
    assert Repeat(step, n) == Repeat(step, n - 1) + [step];
  }

  /** One more admitted call. */
  lemma OneMoreBegin(cfg: Config, capacity: nat, log: seq<Step>, at: real)
    requires NotBefore(log, at) && Chronological(log) && AdmitRule(cfg, log, at)
    requires DeadUpstream(cfg, capacity, log) && InFlight(cfg, log) < capacity
    ensures
      var log' := log + [Begin(at)];
      && NotBefore(log', at) && Chronological(log') && AdmitRule(cfg, log', at)
      && DeadUpstream(cfg, capacity, log')
      && Admitted(cfg, log') == Admitted(cfg, log) + 1
      && InFlight(cfg, log') == InFlight(cfg, log) + 1
      && Cancelled(log') == Cancelled(log)
      && TrailingFailures(log') == TrailingFailures(log) && LastFailure(log') == LastFailure(log)
  {
    hide Apply, Threshold;
    AdmissionFollowsTheRule(cfg, log, at);
    assert (log + [Begin(at)])[..|log + [Begin(at)]| - 1] == log;
  }

  /** One more failure of a call in flight. */
  lemma OneMoreFailure(cfg: Config, capacity: nat, log: seq<Step>, at: real)
    requires NotBefore(log, at) && Chronological(log)
    requires DeadUpstream(cfg, capacity, log) && InFlight(cfg, log) > 0
    ensures
      var log' := log + [Fail(at)];
      && NotBefore(log', at) && Chronological(log') && DeadUpstream(cfg, capacity, log')
      && Admitted(cfg, log') == Admitted(cfg, log)
      && InFlight(cfg, log') == InFlight(cfg, log) - 1
      && Cancelled(log') == Cancelled(log)
      && TrailingFailures(log') == TrailingFailures(log) + 1 && LastFailure(log') == Some(at)
  {
    hide Apply, Threshold;
    assert (log + [Fail(at)])[..|log + [Fail(at)]| - 1] == log;
  }

  lemma {:induction false} BeginsPileUp(cfg: Config, capacity: nat, log: seq<Step>, at: real, n: nat)
    requires NotBefore(log, at) && Chronological(log) && AdmitRule(cfg, log, at)
    requires DeadUpstream(cfg, capacity, log) && InFlight(cfg, log) + n <= capacity
    ensures
      var log' := log + Repeat(Begin(at), n);
      && NotBefore(log', at) && Chronological(log') && AdmitRule(cfg, log', at)
      && DeadUpstream(cfg, capacity, log')
      && Admitted(cfg, log') == Admitted(cfg, log) + n
      && InFlight(cfg, log') == InFlight(cfg, log) + n
      && Cancelled(log') == Cancelled(log)
      && TrailingFailures(log') == TrailingFailures(log) && LastFailure(log') == LastFailure(log)
  {
    hide Admitted, InFlight, Cancelled, DeadUpstream, TrailingFailures, LastFailure;
    hide NotBefore, Chronological, AdmitRule;
    if n == 0 {
      assert log + Repeat(Begin(at), 0) == log;
    } else {
      BeginsPileUp(cfg, capacity, log, at, n - 1);
      Unroll(log, Begin(at), n);
      OneMoreBegin(cfg, capacity, log + Repeat(Begin(at), n - 1), at);
    }
  }

  lemma {:induction false} FailuresDrain(cfg: Config, capacity: nat, log: seq<Step>, at: real, n: nat)
    requires NotBefore(log, at) && Chronological(log)
    requires DeadUpstream(cfg, capacity, log) && InFlight(cfg, log) >= n
    ensures
      var log' := log + Repeat(Fail(at), n);
      && NotBefore(log', at) && Chronological(log')
      && DeadUpstream(cfg, capacity, log')
      && Admitted(cfg, log') == Admitted(cfg, log)
      && InFlight(cfg, log') == InFlight(cfg, log) - n
      && Cancelled(log') == Cancelled(log)
      && TrailingFailures(log') == TrailingFailures(log) + n
      && (n > 0 ==> LastFailure(log') == Some(at))
  {
    hide Admitted, InFlight, Cancelled, DeadUpstream, TrailingFailures, LastFailure, NotBefore, Chronological;
    if n == 0 {
      assert log + Repeat(Fail(at), 0) == log;
    } else {
      FailuresDrain(cfg, capacity, log, at, n - 1);
      Unroll(log, Fail(at), n);
      OneMoreFailure(cfg, capacity, log + Repeat(Fail(at), n - 1), at);
    }
  }

  /** `n` more concurrent calls after `log`, all of them failing. */
  lemma OneMoreBurst(cfg: Config, capacity: nat, log: seq<Step>, at: real, n: nat)
    requires NotBefore(log, at) && Chronological(log) && AdmitRule(cfg, log, at) && 0 < n <= capacity
    requires DeadUpstream(cfg, capacity, log) && InFlight(cfg, log) == 0
    ensures
      var log' := log + Repeat(Begin(at), n) + Repeat(Fail(at), n);
      && NotBefore(log', at) && Chronological(log') && DeadUpstream(cfg, capacity, log')
      && InFlight(cfg, log') == 0 && Cancelled(log') == Cancelled(log)
      && Admitted(cfg, log') == Admitted(cfg, log) + n
      && TrailingFailures(log') == TrailingFailures(log) + n && LastFailure(log') == Some(at)
      && EndTime(0.0, log') == at
  {
    BeginsPileUp(cfg, capacity, log, at, n);
    FailuresDrain(cfg, capacity, log + Repeat(Begin(at), n), at, n);
  }

  ghost predicate WarmedUp(cfg: Config, capacity: nat, log: seq<Step>, n: nat) {
    && Chronological(log) && NotBefore(log, 0.0) && (log != [] ==> 0.0 <= log[0].at)
    && DeadUpstream(cfg, capacity, log) && InFlight(cfg, log) == 0 && Cancelled(log) == 0
    && TrailingFailures(log) == n && Admitted(cfg, log) == n
  }

  lemma NothingYet(cfg: Config, capacity: nat)
    ensures WarmedUp(cfg, capacity, [], 0)
  {
  }

  lemma {:induction false} WarmUpFails(cfg: Config, capacity: nat, n: nat)
    requires n < Threshold(cfg) && capacity > 0
    ensures WarmedUp(cfg, capacity, WarmUp(n), n)
  {
    hide Admitted, InFlight, Cancelled, DeadUpstream, TrailingFailures, LastFailure;
    hide NotBefore, Chronological, Bound, Threshold;
    if n == 0 {
      NothingYet(cfg, capacity);
    } else {
      WarmUpFails(cfg, capacity, n - 1);
      OneMoreBurst(cfg, capacity, WarmUp(n - 1), 0.0, 1);
    }
  }

  lemma MomentArithmetic(cfg: Config, capacity: nat, k: nat)
    requires cfg.recoverySeconds > 0.0
    ensures Moment(cfg, k + 1) == Moment(cfg, k) + cfg.recoverySeconds && Moment(cfg, k) >= 0.0
    ensures Bound(cfg, capacity, 0.0, Moment(cfg, k)) == Threshold(cfg) - 1 + capacity * (k + 1)
    ensures capacity * (k + 1) == capacity * k + capacity
  {
    var r := cfg.recoverySeconds;
    assert (k + 1) as real * r == k as real * r + r;
    Quotient(k as real, Moment(cfg, k) - 0.0, r);
    assert WholePeriods(Moment(cfg, k) - 0.0, r) == k;
    assert capacity * (1 + k) == capacity * (k + 1);
  }

  /** The worst run is a legal dead-upstream run without a cancellation, and it spends all of it. */
  lemma {:induction false} TheBoundIsAttained(cfg: Config, capacity: nat, bursts: nat)
    requires cfg.recoverySeconds > 0.0 && capacity > 0
    ensures
      var log := WorstRun(cfg, capacity, bursts);
      && Chronological(log) && NotBefore(log, if bursts == 0 then 0.0 else Moment(cfg, bursts - 1))
      && (log != [] ==> 0.0 <= log[0].at)
      && DeadUpstream(cfg, capacity, log) && InFlight(cfg, log) == 0 && Cancelled(log) == 0
      && TrailingFailures(log) == Admitted(cfg, log) == Threshold(cfg) - 1 + capacity * bursts
      && (bursts > 0 ==> Admitted(cfg, log) == Bound(cfg, capacity, 0.0, EndTime(0.0, log)))
      && (bursts > 0 ==> LastFailure(log) == Some(Moment(cfg, bursts - 1)))
  {
    hide Admitted, InFlight, Cancelled, DeadUpstream, TrailingFailures, LastFailure, Bound;
    if bursts == 0 {
      WarmUpFails(cfg, capacity, Threshold(cfg) - 1);
    } else {
      var k := bursts - 1;
      TheBoundIsAttained(cfg, capacity, k);
      MomentArithmetic(cfg, capacity, k);
      if k > 0 {
        MomentArithmetic(cfg, capacity, k - 1);
      }
      OneMoreBurst(cfg, capacity, WorstRun(cfg, capacity, k), Moment(cfg, k), capacity);
    }
  }
}
