/**
 The price monitor (app/services/price_monitor.py) and the database session around one run of it
 (app/workers/tasks.py).

 A run checks every active alert in turn and changes the alert objects of its session; only the
 commit at the very end makes the changes durable, while notifications cannot be taken back.
 */
module PriceMonitors {

  import opened Wrappers
  import opened FanOuts
  import opened Aggregation
  import Pagination

  /** The part of an alert the monitor looks at; `validDate` says that its date text parses. */
  datatype AlertRow = AlertRow(target: int, validDate: bool, active: bool, triggeredAt: Option<real>)

  datatype Notice = Notice(alertId: nat, email: string, price: int)

  /** Looking up the owner can find one, find none, or raise. */
  datatype Owner = Found(email: string) | NoOwner | LookupRaises

  /** Sending can succeed, raise before the message is out, or raise after it. */
  datatype Delivery = Delivered | RaisesBefore | RaisesAfter

  /** What the world answers while one alert is being checked. */
  datatype CheckEnv = CheckEnv(answers: seq<Answer<NormalizedFlight>>, owner: Owner, delivery: Delivery, now: real)

  /** `str.lower` and the lenient cursor parsers, on which nothing here depends. */
  datatype Python = Python(lower: string -> string, lenient: string -> int)

  datatype CheckResult = CheckResult(row: AlertRow, notices: seq<Notice>, fired: bool, aborted: bool)

  /** `_cheapest_price`: the first item of a price-sorted page of one. */
  ghost function CheapestPrice(py: Python, row: AlertRow, env: CheckEnv): Option<int> {
    if !row.validDate then None
    else
      var page := Pagination.PageOf(Ordered(py.lower, env.answers, NO_FILTERS, Price), 1, None, py.lenient);
      if page.items == [] then None else Some(PriceOf(page.items[0].flight))
  }

  function SwitchedOff(row: AlertRow, env: CheckEnv): AlertRow {
    row.(active := false, triggeredAt := Some(env.now))
  }

  /** The rest of `_check`, once the cheapest price is known. */
  function Decide(cheapest: Option<int>, id: nat, row: AlertRow, env: CheckEnv): CheckResult {
    if cheapest.None? || cheapest.value > row.target then CheckResult(row, [], false, false)
    else
      match env.owner
      case LookupRaises => CheckResult(row, [], false, true)
      case NoOwner => CheckResult(SwitchedOff(row, env), [], true, false)
      case Found(email) =>
        var notice := Notice(id, email, cheapest.value);
        match env.delivery
        case Delivered => CheckResult(SwitchedOff(row, env), [notice], true, false)
        case RaisesBefore => CheckResult(row, [], false, true)
        case RaisesAfter => CheckResult(row, [notice], false, true)
  }

  ghost function CheckRow(py: Python, id: nat, row: AlertRow, env: CheckEnv): CheckResult {
    Decide(CheapestPrice(py, row, env), id, row, env)
  }

  /** An alert should fire when some offer of an answering provider meets its target. */
  ghost predicate TargetMet(row: AlertRow, env: CheckEnv) {
    row.validDate && exists x :: Offered(env.answers, x) && PriceOf(x) <= row.target
  }

  /** The first item of the price-sorted page of one is the true minimum: sorting, de-duplicating and
      paging lose nothing. */
  lemma CheapestIsLowest(py: Python, row: AlertRow, env: CheckEnv)
    ensures CheapestPrice(py, row, env).None? <==> !row.validDate || forall x :: !Offered(env.answers, x)
    ensures CheapestPrice(py, row, env).Some? ==> IsLowestFare(CheapestPrice(py, row, env).value, env.answers)
  {
    FirstByPriceIsLowest(py.lower, py.lenient, env.answers);
  }

  lemma TargetMetMeans(py: Python, row: AlertRow, env: CheckEnv)
    ensures TargetMet(row, env) <==>
            CheapestPrice(py, row, env).Some? && CheapestPrice(py, row, env).value <= row.target
  {
    CheapestIsLowest(py, row, env);
  }

  /** Finding the owner and telling them goes through without an exception. */
  predicate TellingSucceeds(env: CheckEnv) {
    env.owner == NoOwner || (env.owner.Found? && env.delivery == Delivered)
  }

  /** A message leaves although telling the owner may still raise after it. */
  predicate MessageLeaves(env: CheckEnv) {
    env.owner.Found? && env.delivery != RaisesBefore
  }

  lemma DecisionMeans(cheapest: Option<int>, id: nat, row: AlertRow, env: CheckEnv)
    ensures
      var r, met := Decide(cheapest, id, row, env), cheapest.Some? && cheapest.value <= row.target;
      && (r.fired <==> met && TellingSucceeds(env))
      && (r.aborted <==> met && !TellingSucceeds(env))
      && r.row == (if r.fired then SwitchedOff(row, env) else row)
      && r.notices == if met && MessageLeaves(env) then [Notice(id, env.owner.email, cheapest.value)] else []
  {
  }

  /** An alert fires exactly when its target is met and telling its owner does not raise, and the run
      is aborted exactly when it does raise.  A notice leaves in both cases, unless there is no owner or
      the exception comes before the message is out, and it quotes the lowest price. */
  lemma FiresOnTheLowestPrice(py: Python, id: nat, row: AlertRow, env: CheckEnv)
    ensures
      var r := CheckRow(py, id, row, env);
      && (r.fired <==> TargetMet(row, env) && TellingSucceeds(env))
      && (r.aborted <==> TargetMet(row, env) && !TellingSucceeds(env))
      && r.row == (if r.fired then AlertRow(row.target, row.validDate, false, Some(env.now)) else row)
      && |r.notices| == (if TargetMet(row, env) && MessageLeaves(env) then 1 else 0)
      && (r.notices != [] ==> r.notices[0].alertId == id && r.notices[0].email == env.owner.email
                              && IsLowestFare(r.notices[0].price, env.answers))
  {
    TargetMetMeans(py, row, env);
    CheapestIsLowest(py, row, env);
    DecisionMeans(CheapestPrice(py, row, env), id, row, env);
  }

  // ---------------------------------------------------------------------------------------------
  // One run
  // ---------------------------------------------------------------------------------------------

  /** The session after the first `n` alerts; an exception ends the run where it happens. */
  datatype Session = Session(rows: seq<AlertRow>, sent: seq<Notice>, triggered: nat, aborted: bool)

  /** The cheapest fares of the alerts, as each check will see them. */
  ghost function Quotes(py: Python, ids: seq<nat>, rows: seq<AlertRow>,
                        env: nat -> CheckEnv): (quotes: seq<Option<int>>)
    requires |ids| == |rows|
    ensures |quotes| == |ids| && forall i :: 0 <= i < |ids| ==> quotes[i] == CheapestPrice(py, rows[i], env(ids[i]))
  {
    seq(|ids|, i requires 0 <= i < |ids| => CheapestPrice(py, rows[i], env(ids[i])))
  }

  function NextCheck(s: Session, i: nat, cheapest: Option<int>, id: nat, env: CheckEnv): (s': Session)
    requires i < |s.rows|
    ensures |s'.rows| == |s.rows|
  {
    if s.aborted then s
    else
      var r := Decide(cheapest, id, s.rows[i], env);
      Session(s.rows[i := r.row], s.sent + r.notices, s.triggered + (if r.fired then 1 else 0), r.aborted)
  }

  function RunRows(quotes: seq<Option<int>>, ids: seq<nat>, rows: seq<AlertRow>, env: nat -> CheckEnv,
                   sent: seq<Notice>, n: nat): (s: Session)
    requires |quotes| == |ids| == |rows| && n <= |ids|
    ensures |s.rows| == |rows|
  {
    if n == 0 then Session(rows, sent, 0, false)
    else NextCheck(RunRows(quotes, ids, rows, env, sent, n - 1), n - 1, quotes[n - 1], ids[n - 1], env(ids[n - 1]))
  }

  /** How many rows a run switched off. */
  function Deactivated(before: seq<AlertRow>, after: seq<AlertRow>): nat
    requires |before| == |after|
  {
    if before == [] then 0
    else
      var n := |before| - 1;
      Deactivated(before[..n], after[..n]) + if before[n].active && !after[n].active then 1 else 0
  }

  /** The owner, if there is one, was told the lowest price by one of the notices from `base` on. */
  ghost predicate Told(id: nat, env: CheckEnv, base: nat, sent: seq<Notice>) {
    env.owner == NoOwner
    || exists m :: base <= m < |sent| && sent[m].alertId == id && IsLowestFare(sent[m].price, env.answers)
  }

  /** An alert was left alone, or switched off because its target is met and its owner was told. */
  ghost predicate Justified(id: nat, row: AlertRow, row': AlertRow, env: CheckEnv, base: nat, sent: seq<Notice>) {
    row' == row || (row' == SwitchedOff(row, env) && TargetMet(row, env) && Told(id, env, base, sent))
  }

  lemma ToldStaysTold(id: nat, env: CheckEnv, base: nat, sent: seq<Notice>, more: seq<Notice>)
    requires Told(id, env, base, sent)
    ensures Told(id, env, base, sent + more)
  {
    if env.owner != NoOwner {
      var m :| base <= m < |sent| && sent[m].alertId == id && IsLowestFare(sent[m].price, env.answers);
      assert (sent + more)[m] == sent[m];
    }
  }

  lemma CheckIsJustified(py: Python, id: nat, row: AlertRow, env: CheckEnv, base: nat, sent: seq<Notice>)
    requires base <= |sent|
    ensures
      var r := CheckRow(py, id, row, env);
      && Justified(id, row, r.row, env, base, sent + r.notices)
      && (!r.aborted && row.active ==> (TargetMet(row, env) <==> !r.row.active))
  {
    FiresOnTheLowestPrice(py, id, row, env);
    var r := CheckRow(py, id, row, env);
    if r.fired && env.owner != NoOwner {
      assert (sent + r.notices)[|sent|] == r.notices[0];
    }
  }

  /** What every moment of a run satisfies, wherever it may end: rows not reached are untouched, every
      change is justified by what was already sent, and as long as nothing was raised exactly the
      alerts whose target is met have fired. */
  ghost predicate JustifiedUpTo(ids: seq<nat>, rows: seq<AlertRow>, env: nat -> CheckEnv, base: nat, s: Session, n: nat)
    requires |ids| == |rows| == |s.rows| && n <= |ids|
  {
    && base <= |s.sent|
    && (forall i :: 0 <= i < n ==> Justified(ids[i], rows[i], s.rows[i], env(ids[i]), base, s.sent))
    && (forall i :: n <= i < |rows| ==> s.rows[i] == rows[i])
    && (!s.aborted ==> forall i :: 0 <= i < n ==> (TargetMet(rows[i], env(ids[i])) <==> !s.rows[i].active))
  }

  lemma NextCheckIsJustified(py: Python, ids: seq<nat>, rows: seq<AlertRow>, env: nat -> CheckEnv, base: nat,
                             s: Session, n: nat)
    requires |ids| == |rows| == |s.rows| && n < |ids| && rows[n].active
    requires JustifiedUpTo(ids, rows, env, base, s, n)
    ensures JustifiedUpTo(ids, rows, env, base,
                          NextCheck(s, n, CheapestPrice(py, rows[n], env(ids[n])), ids[n], env(ids[n])), n + 1)
  {
    if !s.aborted {
      var r := CheckRow(py, ids[n], rows[n], env(ids[n]));
      CheckIsJustified(py, ids[n], rows[n], env(ids[n]), base, s.sent);
      OthersStayJustified(ids, rows, env, base, s, n, r.notices);
    }
  }

  lemma OthersStayJustified(ids: seq<nat>, rows: seq<AlertRow>, env: nat -> CheckEnv, base: nat, s: Session, n: nat,
                            notices: seq<Notice>)
    requires |ids| == |rows| == |s.rows| && n <= |ids| && JustifiedUpTo(ids, rows, env, base, s, n)
    ensures forall i :: 0 <= i < n ==> Justified(ids[i], rows[i], s.rows[i], env(ids[i]), base, s.sent + notices)
  {
    forall i | 0 <= i < n
      ensures Justified(ids[i], rows[i], s.rows[i], env(ids[i]), base, s.sent + notices)
    {
      if s.rows[i] != rows[i] {
        ToldStaysTold(ids[i], env(ids[i]), base, s.sent, notices);
      }
    }
  }

  lemma {:induction false} EveryMomentIsJustified(py: Python, ids: seq<nat>, rows: seq<AlertRow>,
                                                  env: nat -> CheckEnv, sent: seq<Notice>, n: nat)
    requires |ids| == |rows| && n <= |ids| && forall i :: 0 <= i < |rows| ==> rows[i].active
    ensures
      var s := RunRows(Quotes(py, ids, rows, env), ids, rows, env, sent, n);
      JustifiedUpTo(ids, rows, env, |sent|, s, n) && sent <= s.sent
  {
    hide CheapestPrice, Decide, Justified, TargetMet, Quotes;
    if n > 0 {
      hide JustifiedUpTo;
      EveryMomentIsJustified(py, ids, rows, env, sent, n - 1);
      NextCheckIsJustified(py, ids, rows, env, |sent|,
                           RunRows(Quotes(py, ids, rows, env), ids, rows, env, sent, n - 1), n - 1);
    }
  }

  lemma {:induction false} LaterRowsWait(quotes: seq<Option<int>>, ids: seq<nat>, rows: seq<AlertRow>,
                                         env: nat -> CheckEnv, sent: seq<Notice>, n: nat)
    requires |quotes| == |ids| == |rows| && n <= |ids|
    ensures forall i :: n <= i < |rows| ==> RunRows(quotes, ids, rows, env, sent, n).rows[i] == rows[i]
  {
    if n > 0 {
      LaterRowsWait(quotes, ids, rows, env, sent, n - 1);
    }
  }

  /** `triggered` is the number of alerts the run has switched off. */
  lemma {:induction false} TriggeredCounts(quotes: seq<Option<int>>, ids: seq<nat>, rows: seq<AlertRow>,
                                           env: nat -> CheckEnv, sent: seq<Notice>, n: nat)
    requires |quotes| == |ids| == |rows| && n <= |ids| && forall i :: 0 <= i < |rows| ==> rows[i].active
    ensures
      var s := RunRows(quotes, ids, rows, env, sent, n);
      s.triggered == Deactivated(rows[..n], s.rows[..n])
  {
    if n > 0 {
      TriggeredCounts(quotes, ids, rows, env, sent, n - 1);
      LaterRowsWait(quotes, ids, rows, env, sent, n - 1);
      var s, s' := RunRows(quotes, ids, rows, env, sent, n - 1), RunRows(quotes, ids, rows, env, sent, n);
      DecisionMeans(quotes[n - 1], ids[n - 1], rows[n - 1], env(ids[n - 1]));
      assert rows[..n][..n - 1] == rows[..n - 1] && s'.rows[..n][..n - 1] == s.rows[..n - 1];
    }
  }

  /** Which notices a run sends: at most one per alert, to alerts it has reached, and of an alert that was
      notified nothing stays active unless the run was aborted. */
  ghost predicate NoticesOfARun(ids: seq<nat>, s: Session, base: nat, n: nat)
    requires |s.rows| == |ids| && n <= |ids|
  {
    && (forall m :: base <= m < |s.sent| ==> s.sent[m].alertId in ids[..n])
    && (forall l, m :: base <= l < m < |s.sent| ==> s.sent[l].alertId != s.sent[m].alertId)
    && (!s.aborted ==>
          forall m, i :: base <= m < |s.sent| && 0 <= i < n && s.sent[m].alertId == ids[i] ==> !s.rows[i].active)
  }

  lemma {:induction false} RunsNotifyOnce(
      quotes: seq<Option<int>>, ids: seq<nat>, rows: seq<AlertRow>, env: nat -> CheckEnv, sent: seq<Notice>, n: nat)
    requires |quotes| == |ids| == |rows| && n <= |ids|
    requires forall i, j :: 0 <= i < j < |ids| ==> ids[i] != ids[j]
    ensures
      var s := RunRows(quotes, ids, rows, env, sent, n);
      NoticesOfARun(ids, s, |sent|, n) && sent <= s.sent
  {
    hide NextCheck, Decide;
    if n > 0 {
      hide NoticesOfARun;
      RunsNotifyOnce(quotes, ids, rows, env, sent, n - 1);
      var s := RunRows(quotes, ids, rows, env, sent, n - 1);
      NextNotifiesOnce(ids, s, |sent|, n - 1, quotes[n - 1], env(ids[n - 1]));
    }
  }

  lemma NextNotifiesOnce(ids: seq<nat>, s: Session, base: nat, n: nat, cheapest: Option<int>, env: CheckEnv)
    requires |s.rows| == |ids| && n < |ids| && base <= |s.sent| && NoticesOfARun(ids, s, base, n)
    requires forall i, j :: 0 <= i < j < |ids| ==> ids[i] != ids[j]
    ensures NoticesOfARun(ids, NextCheck(s, n, cheapest, ids[n], env), base, n + 1)
    ensures s.sent <= NextCheck(s, n, cheapest, ids[n], env).sent
  {
    var s' := NextCheck(s, n, cheapest, ids[n], env);
    assert ids[..n + 1] == ids[..n] + [ids[n]];
    assert ids[n] !in ids[..n];
    if !s.aborted {
      DecisionMeans(cheapest, ids[n], s.rows[n], env);
      hide Decide;
      var r := Decide(cheapest, ids[n], s.rows[n], env);
      assert s'.sent == s.sent + r.notices && |r.notices| <= 1;
      assert r.notices != [] ==> r.notices[0].alertId == ids[n];
    }
  }

  // ---------------------------------------------------------------------------------------------
  // The objects
  // ---------------------------------------------------------------------------------------------

  /** An alert as loaded into a session. */
  class PriceAlert {
    const id: nat
    const target: int
    const validDate: bool
    var isActive: bool
    var triggeredAt: Option<real>

    constructor (id: nat, row: AlertRow)
      ensures this.id == id && Row() == row
    {
      this.id, target, validDate, isActive, triggeredAt := id, row.target, row.validDate, row.active, row.triggeredAt;
    }

    function Row(): AlertRow
      reads this
    {
      AlertRow(target, validDate, isActive, triggeredAt)
    }
  }

  class Notifier {
    var sent: seq<Notice>

    constructor ()
      ensures sent == []
    {
      sent := [];
    }
  }

  datatype MonitorReport = MonitorReport(checked: nat, triggered: nat)

  function IdsOf(alerts: seq<PriceAlert>): (ids: seq<nat>)
    ensures |ids| == |alerts|
  {
    seq(|alerts|, i requires 0 <= i < |alerts| => alerts[i].id)
  }

  function RowsOf(alerts: seq<PriceAlert>): (rows: seq<AlertRow>)
    reads alerts
    ensures |rows| == |alerts|
  {
    seq(|alerts|, i requires 0 <= i < |alerts| reads alerts => alerts[i].Row())
  }

  class PriceMonitor {
    const py: Python
    const notifier: Notifier

    constructor (py: Python, notifier: Notifier)
      ensures this.py == py && this.notifier == notifier
    {
      this.py, this.notifier := py, notifier;
    }

    /** `_check`; an exception of any collaborator shows as `aborted`. */
    method Check(alert: PriceAlert, env: CheckEnv) returns (fired: bool, aborted: bool)
      modifies alert, notifier
      ensures
        var r := CheckRow(py, alert.id, old(alert.Row()), env);
        && alert.Row() == r.row && notifier.sent == old(notifier.sent) + r.notices
        && fired == r.fired && aborted == r.aborted
    {
      var cheapest := LowestFare(alert, env);
      if cheapest.None? || cheapest.value > alert.target {
        return false, false;
      }
      if env.owner.LookupRaises? {
        return false, true;
      }
      if env.owner.Found? {
        if env.delivery != RaisesBefore {
          notifier.sent := notifier.sent + [Notice(alert.id, env.owner.email, cheapest.value)];
        }
        if env.delivery != Delivered {
          return false, true;
        }
      }
      alert.isActive := false;
      alert.triggeredAt := Some(env.now);
      return true, false;
    }

    method LowestFare(alert: PriceAlert, env: CheckEnv) returns (cheapest: Option<int>)
      ensures cheapest == CheapestPrice(py, alert.Row(), env)
    {
      if !alert.validDate {
        return None;
      }
      var result := Search(py.lower, py.lenient, env.answers, Price, NO_FILTERS, 1, None);
      if result.page.items == [] {
        return None;
      }
      return Some(PriceOf(result.page.items[0].flight));
    }

    /** The process may be cut off after the first `until` checks.  No report then, and none when an
        exception ends the run. */
    method RunOnce(active: seq<PriceAlert>, env: nat -> CheckEnv, until: nat) returns (report: Option<MonitorReport>)
      requires until <= |active| && forall i, j :: 0 <= i < j < |active| ==> active[i] != active[j]
      modifies notifier, active
      ensures
        var ids, rows := IdsOf(active), old(RowsOf(active));
        var s := RunRows(Quotes(py, ids, rows, env), ids, rows, env, old(notifier.sent), until);
        && RowsOf(active) == s.rows && notifier.sent == s.sent
        && report == if s.aborted || until < |active| then None else Some(MonitorReport(|active|, s.triggered))
    {
      hide CheapestPrice, Decide, Quotes;
      var triggered := 0;
      ghost var ids, rows, sent := IdsOf(active), RowsOf(active), notifier.sent;
      ghost var quotes := Quotes(py, ids, rows, env);
      for n := 0 to until
        invariant RunRows(quotes, ids, rows, env, sent, n) == Session(RowsOf(active), notifier.sent, triggered, false)
      {
        ghost var before := RowsOf(active);
        LaterRowsWait(quotes, ids, rows, env, sent, n);
        var fired, aborted := Check(active[n], env(active[n].id));
        assert RowsOf(active) == before[n := active[n].Row()];
        if aborted {
          StoppedEarly(quotes, ids, rows, env, sent, n + 1, until);
          return None;
        }
        if fired {
          triggered := triggered + 1;
        }
      }
      if until < |active| {
        return None;
      }
      return Some(MonitorReport(|active|, triggered));
    }
  }

  lemma {:induction false} StoppedEarly(quotes: seq<Option<int>>, ids: seq<nat>, rows: seq<AlertRow>,
                                        env: nat -> CheckEnv, sent: seq<Notice>, n: nat, m: nat)
    requires |quotes| == |ids| == |rows| && n <= m <= |ids| && RunRows(quotes, ids, rows, env, sent, n).aborted
    ensures RunRows(quotes, ids, rows, env, sent, m) == RunRows(quotes, ids, rows, env, sent, n)
  {
    if n < m {
      StoppedEarly(quotes, ids, rows, env, sent, n, m - 1);
    }
  }
}
