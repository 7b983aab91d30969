/**
 The circuit breaker of app/resilience/circuit_breaker.py as an interleaved step system.

 `call` gives up control while the upstream call is awaited, and no locked section contains an
 await.  A run is therefore any interleaving of four atomic steps: a caller enters, a call in
 progress succeeds, fails, or is cancelled (a cancellation skips both completion handlers).
 */
module CircuitBreakers {

  import opened Wrappers

  datatype CircuitState = Closed | Open | HalfOpen

  datatype Config = Config(failureThreshold: int, recoverySeconds: real)

  /** The fields of a breaker object at one moment. */
  datatype Breaker = Breaker(state: CircuitState, failures: nat, openedAt: real)

  /** One atomic step; `at` is the clock while its locked section runs. */
  datatype Step =
    | Begin(at: real)
    | Succeed(at: real)
    | Fail(at: real)
    | Cancel(at: real)

  const FRESH := Breaker(Closed, 0, 0.0)

  function MaybeHalfOpen(cfg: Config, b: Breaker, now: real): Breaker {
    if b.state == Open && now - b.openedAt >= cfg.recoverySeconds then b.(state := HalfOpen) else b
  }

  predicate Admits(cfg: Config, b: Breaker, now: real) {
    MaybeHalfOpen(cfg, b, now).state != Open
  }

  function AfterFailure(cfg: Config, b: Breaker, now: real): Breaker {
    var failures := b.failures + 1;
    if b.state == HalfOpen || failures >= cfg.failureThreshold then Breaker(Open, failures, now)
    else b.(failures := failures)
  }

  function Apply(cfg: Config, b: Breaker, step: Step): Breaker {
    match step
    case Begin(at) => MaybeHalfOpen(cfg, b, at)
    case Succeed(_) => b.(failures := 0, state := Closed)
    case Fail(at) => AfterFailure(cfg, b, at)
    case Cancel(_) => b
  }

  /** The breaker after a whole log of steps, starting from construction. */
  function Run(cfg: Config, log: seq<Step>): Breaker {
    if log == [] then FRESH
    else Apply(cfg, Run(cfg, log[..|log| - 1]), log[|log| - 1])
  }

  predicate Chronological(log: seq<Step>) {
    forall i, j :: 0 <= i < j < |log| ==> log[i].at <= log[j].at
  }

  /** `now` is no earlier than anything in the log. */
  predicate NotBefore(log: seq<Step>, now: real) {
    forall i :: 0 <= i < |log| ==> log[i].at <= now
  }

  // ---------------------------------------------------------------------------------------------
  // The rule the breaker is meant to implement, read off the log of completions alone.
  // ---------------------------------------------------------------------------------------------

  /** Failures, in completion order, since the last success. */
  function TrailingFailures(log: seq<Step>): nat {
    if log == [] then 0
    else
      var before := TrailingFailures(log[..|log| - 1]);
      match log[|log| - 1]
      case Fail(_) => before + 1
      case Succeed(_) => 0
      case _ => before
  }

  function LastFailure(log: seq<Step>): Option<real> {
    if log == [] then None
    else if log[|log| - 1].Fail? then Some(log[|log| - 1].at)
    else LastFailure(log[..|log| - 1])
  }

  /** A threshold below one behaves as one: the first failure already reaches it. */
  function Threshold(cfg: Config): (n: nat)
    ensures n >= 1 && n >= cfg.failureThreshold
    ensures n == 1 || n == cfg.failureThreshold
  {
    if cfg.failureThreshold >= 1 then cfg.failureThreshold else 1
  }

  /** Too few consecutive failures, or the last one is old enough. */
  predicate AdmitRule(cfg: Config, log: seq<Step>, now: real) {
    || TrailingFailures(log) < Threshold(cfg)
    || (LastFailure(log).Some? && now - LastFailure(log).value >= cfg.recoverySeconds)
  }

  /** The meaning of every field of the breaker, in terms of the log that led to it. */
  ghost predicate Explains(cfg: Config, log: seq<Step>, b: Breaker) {
    && b.failures == TrailingFailures(log)
    && (b.state == Closed <==> b.failures < Threshold(cfg))
    && (b.failures > 0 ==> LastFailure(log).Some?)
    && (b.state != Closed ==> LastFailure(log) == Some(b.openedAt))
    && (b.state == HalfOpen ==>
          exists i :: 0 <= i < |log| && log[i].Begin? && log[i].at - b.openedAt >= cfg.recoverySeconds)
  }

  lemma {:induction false} RunIsExplained(cfg: Config, log: seq<Step>)
    ensures Explains(cfg, log, Run(cfg, log))
  {
    if log != [] {
      var prefix, last := log[..|log| - 1], log[|log| - 1];
      RunIsExplained(cfg, prefix);
      var b, b' := Run(cfg, prefix), Run(cfg, log);
      if b'.state == HalfOpen {
        if b.state == HalfOpen {
          var i :| 0 <= i < |prefix| && prefix[i].Begin? && prefix[i].at - b.openedAt >= cfg.recoverySeconds;
          assert log[i] == prefix[i];
        } else {
          assert log[|log| - 1].Begin?;
        }
      }
    }
  }

  /** Over every interleaving, the mutable machine admits a call exactly when the rule says so. */
  lemma AdmissionFollowsTheRule(cfg: Config, log: seq<Step>, now: real)
    requires NotBefore(log, now)
    ensures Admits(cfg, Run(cfg, log), now) <==> AdmitRule(cfg, log, now)
  {
    RunIsExplained(cfg, log);
  }

  /** The completion steps of a log, in order. */
  function Completions(log: seq<Step>): seq<Step> {
    if log == [] then []
    else
      var last := log[|log| - 1];
      Completions(log[..|log| - 1]) + if last.Succeed? || last.Fail? then [last] else []
  }

  lemma {:induction false} CompletionsDecide(log: seq<Step>, now: real)
    ensures TrailingFailures(log) == TrailingFailures(Completions(log))
    ensures LastFailure(log) == LastFailure(Completions(log))
    ensures NotBefore(log, now) ==> NotBefore(Completions(log), now)
  {
    if log != [] {
      var prefix, last := log[..|log| - 1], log[|log| - 1];
      CompletionsDecide(prefix, now);
      if last.Succeed? || last.Fail? {
        assert Completions(log)[..|Completions(log)| - 1] == Completions(prefix);
      } else {
        assert Completions(log) == Completions(prefix);
      }
    }
  }

  /** Only completions matter: whatever callers were waiting, rejected or cancelled, the machine admits
      exactly as if none of them had been there. */
  lemma OnlyCompletionsMatter(cfg: Config, log: seq<Step>, now: real)
    requires NotBefore(log, now)
    ensures Admits(cfg, Run(cfg, log), now) <==> Admits(cfg, Run(cfg, Completions(log)), now)
  {
    CompletionsDecide(log, now);
    AdmissionFollowsTheRule(cfg, log, now);
    AdmissionFollowsTheRule(cfg, Completions(log), now);
  }

  lemma {:induction false} WaitingChangesNothing(log: seq<Step>, more: seq<Step>)
    requires forall i :: 0 <= i < |more| ==> more[i].Begin? || more[i].Cancel?
    ensures TrailingFailures(log + more) == TrailingFailures(log) && LastFailure(log + more) == LastFailure(log)
  {
    if more == [] {
      assert log + more == log;
    } else {
      WaitingChangesNothing(log, more[..|more| - 1]);
      assert (log + more)[..|log + more| - 1] == log + more[..|more| - 1];
    }
  }

  /** A tripped breaker lets in, until some call completes, exactly the callers that come a recovery
      time after the last failure: not one probe but all of them, however many there are. */
  lemma EveryCallerProbes(cfg: Config, log: seq<Step>, more: seq<Step>, n: nat)
    requires Run(cfg, log).state != Closed
    requires forall i :: 0 <= i < |more| ==> more[i].Begin? || more[i].Cancel?
    requires n < |more| && more[n].Begin? && NotBefore(log + more[..n], more[n].at)
    ensures LastFailure(log).Some?
    ensures Admits(cfg, Run(cfg, log + more[..n]), more[n].at) <==>
            more[n].at - LastFailure(log).value >= cfg.recoverySeconds
  {
    RunIsExplained(cfg, log);
    WaitingChangesNothing(log, more[..n]);
    AdmissionFollowsTheRule(cfg, log + more[..n], more[n].at);
  }

  /** Two probes at once: one call trips the breaker at one, two callers come at thirty-one. */
  lemma TwoProbesAtOnce()
    ensures
      var cfg := Config(1, 30.0);
      var log := [Begin(0.0), Fail(1.0)];
      && !Admits(cfg, Run(cfg, log), 30.0)
      && Admits(cfg, Run(cfg, log), 31.0) && Admits(cfg, Run(cfg, log + [Begin(31.0)]), 31.0)
  {
    var cfg := Config(1, 30.0);
    OneMoreStep(cfg, [], Begin(0.0));
    OneMoreStep(cfg, [Begin(0.0)], Fail(1.0));
    OneMoreStep(cfg, [Begin(0.0), Fail(1.0)], Begin(31.0));
  }

  // ---------------------------------------------------------------------------------------------
  // What closes a breaker
  // ---------------------------------------------------------------------------------------------

  lemma OneMoreStep(cfg: Config, log: seq<Step>, step: Step)
    ensures Run(cfg, log + [step]) == Apply(cfg, Run(cfg, log), step)
  {
    hide Apply;
    assert (log + [step])[..|log + [step]| - 1] == log;
  }

  /** A breaker that has tripped closes again at the first success of any call, and at nothing else. */
  lemma {:induction false} OnlySuccessCloses(cfg: Config, log: seq<Step>, more: seq<Step>)
    requires Run(cfg, log).state != Closed
    ensures (exists n :: 0 <= n <= |more| && Run(cfg, log + more[..n]).state == Closed)
            <==> exists i :: 0 <= i < |more| && more[i].Succeed?
  {
    assert log + more[..0] == log;
    if i :| 0 <= i < |more| && more[i].Succeed? {
      OneMoreStep(cfg, log + more[..i], more[i]);
      assert log + more[..i] + [more[i]] == log + more[..i + 1];
    }
    if n :| 0 <= n <= |more| && Run(cfg, log + more[..n]).state == Closed {
      FirstClosing(cfg, log, more, n);
    }
  }

  lemma {:induction false} FirstClosing(cfg: Config, log: seq<Step>, more: seq<Step>, n: nat)
    requires Run(cfg, log).state != Closed && n <= |more| && Run(cfg, log + more[..n]).state == Closed
    ensures exists i :: 0 <= i < |more| && more[i].Succeed?
  {
    assert log + more[..0] == log;
    if n > 0 {
      OneMoreStep(cfg, log + more[..n - 1], more[n - 1]);
      assert log + more[..n - 1] + [more[n - 1]] == log + more[..n];
      if Run(cfg, log + more[..n - 1]).state == Closed {
        FirstClosing(cfg, log, more, n - 1);
      }
    }
  }

  /** Some caller has come in since the last completion, a recovery time after the last failure. */
  predicate Probed(cfg: Config, log: seq<Step>) {
    log != [] &&
    var prefix, last := log[..|log| - 1], log[|log| - 1];
    match last
    case Begin(at) =>
      || Probed(cfg, prefix)
      || (LastFailure(prefix).Some? && at - LastFailure(prefix).value >= cfg.recoverySeconds)
    case Cancel(_) => Probed(cfg, prefix)
    case _ => false
  }

  /** HALF_OPEN means tripped and probed. */
  lemma {:induction false} HalfOpenMeansProbed(cfg: Config, log: seq<Step>)
    ensures Run(cfg, log).state == HalfOpen <==> TrailingFailures(log) >= Threshold(cfg) && Probed(cfg, log)
  {
    if log != [] {
      HalfOpenMeansProbed(cfg, log[..|log| - 1]);
      RunIsExplained(cfg, log[..|log| - 1]);
    }
  }

  /** Exactly when an OPEN breaker closes, no probe having turned it HALF_OPEN: at a success that
      arrives while the breaker is tripped and no caller has come in after the recovery time. */
  lemma ClosesUnprobedIff(cfg: Config, log: seq<Step>, step: Step)
    ensures Run(cfg, log).state == Open && Run(cfg, log + [step]).state == Closed <==>
            step.Succeed? && TrailingFailures(log) >= Threshold(cfg) && !Probed(cfg, log)
  {
    OneMoreStep(cfg, log, step);
    RunIsExplained(cfg, log);
    HalfOpenMeansProbed(cfg, log);
  }

  /** It happens: two calls are admitted at zero, one fails at one and trips the breaker, the other
      succeeds at two, long before the recovery time is over. */
  lemma LateSuccessCloses()
    ensures
      var cfg := Config(1, 30.0);
      var log := [Begin(0.0), Begin(0.0), Fail(1.0)];
      && Admits(cfg, Run(cfg, []), 0.0) && Admits(cfg, Run(cfg, log[..1]), 0.0)
      && Run(cfg, log).state == Open && !Admits(cfg, Run(cfg, log), 2.0)
      && Run(cfg, log + [Succeed(2.0)]).state == Closed && Admits(cfg, Run(cfg, log + [Succeed(2.0)]), 2.0)
  {
    var cfg := Config(1, 30.0);
    OneMoreStep(cfg, [], Begin(0.0));
    OneMoreStep(cfg, [Begin(0.0)], Begin(0.0));
    OneMoreStep(cfg, [Begin(0.0), Begin(0.0)], Fail(1.0));
    OneMoreStep(cfg, [Begin(0.0), Begin(0.0), Fail(1.0)], Succeed(2.0));
    assert [Begin(0.0), Begin(0.0), Fail(1.0)][..1] == [] + [Begin(0.0)];
  }

  /** The object itself.  `log` records its steps; the fields are always what the log makes them. */
  class CircuitBreaker {
    const cfg: Config
    var state: CircuitState
    var failures: nat
    var openedAt: real
    ghost var log: seq<Step>

    ghost function Snapshot(): Breaker
      reads this
    {
      Breaker(state, failures, openedAt)
    }

    ghost predicate Valid()
      reads this
    {
      Chronological(log) && Snapshot() == Run(cfg, log)
    }

    constructor (cfg: Config)
      ensures Valid() && log == [] && this.cfg == cfg
    {
      this.cfg := cfg;
      state, failures, openedAt, log := Closed, 0, 0.0, [];
    }

    /** The locked section at the start of `call`. */
    method Enter(now: real) returns (admitted: bool)
      requires Valid() && NotBefore(log, now)
      modifies this
      ensures Valid() && log == old(log) + [Begin(now)]
      ensures admitted <==> AdmitRule(cfg, old(log), now)
      ensures !admitted ==> Snapshot() == old(Snapshot())
    {
      AdmissionFollowsTheRule(cfg, log, now);
      if state == Open && now - openedAt >= cfg.recoverySeconds {
        state := HalfOpen;
      }
      admitted := state != Open;
      log := log + [Begin(now)];
      assert log[..|log| - 1] == old(log);
    }

    method OnSuccess(now: real)
      requires Valid() && NotBefore(log, now)
      modifies this
      ensures Valid() && log == old(log) + [Succeed(now)]
      ensures state == Closed
    {
      failures := 0;
      state := Closed;
      log := log + [Succeed(now)];
      assert log[..|log| - 1] == old(log);
    }

    method OnFailure(now: real)
      requires Valid() && NotBefore(log, now)
      modifies this
      ensures Valid() && log == old(log) + [Fail(now)]
      ensures state == Open <==> TrailingFailures(log) >= Threshold(cfg)
    {
      hide Run;
      OneMoreStep(cfg, log, Fail(now));
      RunIsExplained(cfg, log + [Fail(now)]);
      failures := failures + 1;
      if state == HalfOpen || failures >= cfg.failureThreshold {
        state := Open;
        openedAt := now;
      }
      log := log + [Fail(now)];
    }
  }
}
