/**
 The database session around a monitor run (`_monitor_prices` in app/workers/tasks.py), and whole
 histories of serialized runs, each committed or abandoned at any point, among alerts that come and go.
 */
module Workers {

  import opened Wrappers
  import opened PriceMonitors
  import opened Sequences
  import opened FanOuts
  import opened Aggregation

  /** The durable rows by alert id, and every notification that ever left. */
  datatype World = World(rows: map<nat, AlertRow>, sent: seq<Notice>)

  /** What `list_active` returns: every active alert once, in any order. */
  ghost predicate ListsActive(order: seq<nat>, rows: map<nat, AlertRow>) {
    && (forall i, j :: 0 <= i < j < |order| ==> order[i] != order[j])
    && (forall id :: id in order <==> id in rows && rows[id].active)
  }

  function RowsAt(rows: map<nat, AlertRow>, order: seq<nat>): (at: seq<AlertRow>)
    requires forall id :: id in order ==> id in rows
    ensures |at| == |order| && forall i :: 0 <= i < |order| ==> at[i] == rows[order[i]]
  {
    seq(|order|, i requires 0 <= i < |order| => rows[order[i]])
  }

  /** The commit, row by row. */
  function WriteBack(rows: map<nat, AlertRow>, order: seq<nat>, changed: seq<AlertRow>, n: nat): map<nat, AlertRow>
    requires n <= |order| == |changed|
  {
    if n == 0 then rows else WriteBack(rows, order, changed, n - 1)[order[n - 1] := changed[n - 1]]
  }

  lemma {:induction false} WriteBackAt(rows: map<nat, AlertRow>, order: seq<nat>, changed: seq<AlertRow>, n: nat)
    requires n <= |order| == |changed| && forall i, j :: 0 <= i < j < |order| ==> order[i] != order[j]
    ensures
      var w := WriteBack(rows, order, changed, n);
      forall i :: 0 <= i < n ==> order[i] in w && w[order[i]] == changed[i]
  {
    if n > 0 {
      WriteBackAt(rows, order, changed, n - 1);
    }
  }

  lemma {:induction false} WriteBackElsewhere(rows: map<nat, AlertRow>, order: seq<nat>, changed: seq<AlertRow>,
                                              n: nat, id: nat)
    requires n <= |order| == |changed| && id !in order
    ensures
      var w := WriteBack(rows, order, changed, n);
      (id in w <==> id in rows) && (id in w ==> w[id] == rows[id])
  {
    if n > 0 {
      WriteBackElsewhere(rows, order, changed, n - 1, id);
      assert order[n - 1] in order;
    }
  }

  /** How a run ends in which no check raises: it returns its report, the process is cut off after some
      of the checks or after all of them, the commit raises without effect, or something raises after the
      commit, as closing the session or the container may. */
  datatype Ending = Finishes | StopsAfter(checks: nat) | CommitRaises | RaisesAfterCommit

  function Reached(order: seq<nat>, ending: Ending): (n: nat)
    ensures n <= |order|
  {
    if ending.StopsAfter? && ending.checks < |order| then ending.checks else |order|
  }

  /** The session of one run when it ends. */
  ghost function SessionOf(py: Python, w: World, order: seq<nat>, env: nat -> CheckEnv, ending: Ending): (s: Session)
    requires ListsActive(order, w.rows)
    ensures |s.rows| == |order|
  {
    var rows := RowsAt(w.rows, order);
    RunRows(Quotes(py, order, rows, env), order, rows, env, w.sent, Reached(order, ending))
  }

  predicate Committed(s: Session, ending: Ending) {
    !s.aborted && (ending.Finishes? || ending.RaisesAfterCommit?)
  }

  /** What the caller of the run gets. */
  function Returned(s: Session, ending: Ending): Option<nat> {
    if !s.aborted && ending.Finishes? then Some(s.triggered) else None
  }

  /** Rows change only by the commit; notices are out in any case. */
  ghost function AfterRun(py: Python, w: World, order: seq<nat>, env: nat -> CheckEnv, ending: Ending): World
    requires ListsActive(order, w.rows)
  {
    var s := SessionOf(py, w, order, env, ending);
    World(if Committed(s, ending) then WriteBack(w.rows, order, s.rows, |order|) else w.rows, s.sent)
  }

  /** What one run does to one alert, committed or not: it is left alone, or it is durably switched
      off because its target is met, and then its owner, if any, was told the lowest price during this
      very run.  A committed run leaves no alert active whose target is met. */
  lemma CommittedMeansTold(py: Python, w: World, order: seq<nat>, env: nat -> CheckEnv, ending: Ending, id: nat)
    requires ListsActive(order, w.rows) && id in w.rows
    ensures
      var w' := AfterRun(py, w, order, env, ending);
      && w.sent <= w'.sent && id in w'.rows
      && (w'.rows[id] != w.rows[id] ==>
            && w.rows[id].active
            && w'.rows[id] == AlertRow(w.rows[id].target, w.rows[id].validDate, false, Some(env(id).now))
            && TargetMet(w.rows[id], env(id)) && Told(id, env(id), |w.sent|, w'.sent))
      && (Committed(SessionOf(py, w, order, env, ending), ending) && w.rows[id].active ==>
            (TargetMet(w.rows[id], env(id)) <==> !w'.rows[id].active))
      && (!Committed(SessionOf(py, w, order, env, ending), ending) ==> w'.rows == w.rows)
  {
    hide Quotes, RunRows, TargetMet, Told;
    var rows, s := RowsAt(w.rows, order), SessionOf(py, w, order, env, ending);
    EveryMomentIsJustified(py, order, rows, env, w.sent, Reached(order, ending));
    WriteBackAt(w.rows, order, s.rows, |order|);
    if id !in order {
      WriteBackElsewhere(w.rows, order, s.rows, |order|, id);
    } else {
      var i :| 0 <= i < |order| && order[i] == id;
      assert Justified(order[i], rows[i], s.rows[i], env(order[i]), |w.sent|, s.sent);
    }
  }

  // ---------------------------------------------------------------------------------------------
  // Histories
  // ---------------------------------------------------------------------------------------------

  /** The alerts that were active before and are not afterwards, in the order of the run. */
  function SwitchedOffIds(before: map<nat, AlertRow>, after: map<nat, AlertRow>, order: seq<nat>): seq<nat> {
    if order == [] then []
    else
      var n := |order| - 1;
      var earlier, id := SwitchedOffIds(before, after, order[..n]), order[n];
      if id in before && id in after && before[id].active && !after[id].active then earlier + [id] else earlier
  }

  datatype Op =
    | Create(id: nat, target: int, validDate: bool)
    | Remove(id: nat)
    | Monitor(order: seq<nat>, env: nat -> CheckEnv, ending: Ending)

  /** `used` holds every id ever given out, `fired` every durable switching-off, `reported` the sum of
      what the runs returned, `unreported` that of what committed runs failed to return, and
      `durable[m]` says whether the run that sent notice `m` was committed. */
  datatype History = History(
    world: World, used: set<nat>, fired: seq<nat>, reported: nat, unreported: nat, durable: seq<bool>)

  const START := History(World(map[], []), {}, [], 0, 0, [])

  function Tagged(tags: seq<bool>, n: nat, tag: bool): seq<bool> {
    if |tags| < n then tags + Repeat(tag, n - |tags|) else tags
  }

  /** Ids are never reused; a run whose list is not the active alerts does not happen. */
  ghost function Step(py: Python, h: History, op: Op): History {
    match op
    case Create(id, target, validDate) =>
      if id in h.used then h
      else
        h.(world := h.world.(rows := h.world.rows[id := AlertRow(target, validDate, true, None)]),
           used := h.used + {id})
    case Remove(id) => h.(world := h.world.(rows := h.world.rows - {id}))
    case Monitor(order, env, ending) =>
      if !ListsActive(order, h.world.rows) then h
      else
        var s, w' := SessionOf(py, h.world, order, env, ending), AfterRun(py, h.world, order, env, ending);
        h.(world := w',
           fired := h.fired + SwitchedOffIds(h.world.rows, w'.rows, order),
           reported := h.reported + (if Returned(s, ending).Some? then s.triggered else 0),
           unreported := h.unreported + (if Committed(s, ending) && Returned(s, ending).None? then s.triggered else 0),
           durable := Tagged(h.durable, |w'.sent|, Committed(s, ending)))
  }

  ghost function Replay(py: Python, ops: seq<Op>): History {
    if ops == [] then START else Step(py, Replay(py, ops[..|ops| - 1]), ops[|ops| - 1])
  }

  lemma {:induction false} SwitchedOffMembers(before: map<nat, AlertRow>, after: map<nat, AlertRow>, order: seq<nat>)
    requires forall i, j :: 0 <= i < j < |order| ==> order[i] != order[j]
    ensures
      var ids := SwitchedOffIds(before, after, order);
      && (forall i, j :: 0 <= i < j < |ids| ==> ids[i] != ids[j])
      && (forall id :: id in ids <==>
            id in order && id in before && id in after && before[id].active && !after[id].active)
  {
    if order != [] {
      var n := |order| - 1;
      SwitchedOffMembers(before, after, order[..n]);
      assert order == order[..n] + [order[n]];
    }
  }

  lemma {:induction false} SwitchedOffCount(before: map<nat, AlertRow>, after: map<nat, AlertRow>, order: seq<nat>,
                                            rows: seq<AlertRow>, rows': seq<AlertRow>)
    requires |rows| == |rows'| == |order|
    requires forall i :: 0 <= i < |order| ==> order[i] in before && before[order[i]] == rows[i]
    requires forall i :: 0 <= i < |order| ==> order[i] in after && after[order[i]] == rows'[i]
    ensures |SwitchedOffIds(before, after, order)| == Deactivated(rows, rows')
  {
    if order != [] {
      var n := |order| - 1;
      SwitchedOffCount(before, after, order[..n], rows[..n], rows'[..n]);
    }
  }

  lemma {:induction false} NothingSwitchedOff(rows: map<nat, AlertRow>, order: seq<nat>)
    ensures SwitchedOffIds(rows, rows, order) == []
  {
    if order != [] {
      NothingSwitchedOff(rows, order[..|order| - 1]);
    }
  }

  /** What a run returns is what it durably switched off; a run that returns nothing switched something
      off only if something raised after its commit. */
  lemma ReportCountsTheFired(py: Python, w: World, order: seq<nat>, env: nat -> CheckEnv, ending: Ending)
    requires ListsActive(order, w.rows)
    ensures
      var s, w' := SessionOf(py, w, order, env, ending), AfterRun(py, w, order, env, ending);
      var fired := |SwitchedOffIds(w.rows, w'.rows, order)|;
      && fired == (if Committed(s, ending) then s.triggered else 0)
      && (Returned(s, ending).Some? ==> Returned(s, ending).value == fired)
      && (Returned(s, ending).None? && fired > 0 ==> ending == RaisesAfterCommit)
  {
    hide Quotes, RunRows;
    var rows, s, w' := RowsAt(w.rows, order), SessionOf(py, w, order, env, ending), AfterRun(py, w, order, env, ending);
    if Committed(s, ending) {
      assert Reached(order, ending) == |order|;
      TriggeredCounts(Quotes(py, order, rows, env), order, rows, env, w.sent, |order|);
      assert rows[..|order|] == rows && s.rows[..|order|] == s.rows;
      WriteBackAt(w.rows, order, s.rows, |order|);
      SwitchedOffCount(w.rows, w'.rows, order, rows, s.rows);
    } else {
      NothingSwitchedOff(w.rows, order);
    }
  }

  ghost predicate Distinct(s: seq<nat>) {
    forall i, j :: 0 <= i < j < |s| ==> s[i] != s[j]
  }

  /** What every operation keeps. */
  ghost predicate Tidy(h: History) {
    && h.world.rows.Keys <= h.used
    && (forall id :: id in h.fired ==> id in h.used && (id in h.world.rows ==> !h.world.rows[id].active))
    && Distinct(h.fired)
    && h.reported + h.unreported == |h.fired|
  }

  /** The notices sent: none for an alert that was switched off by the run that sent an earlier one. */
  ghost predicate NoticesAreTidy(h: History) {
    && |h.durable| == |h.world.sent|
    && (forall n :: n in h.world.sent ==> n.alertId in h.used)
    && (forall m, id :: 0 <= m < |h.durable| && h.durable[m] && id == h.world.sent[m].alertId && id in h.world.rows ==>
          !h.world.rows[id].active)
    && (forall l, m :: 0 <= l < m < |h.world.sent| && h.world.sent[l].alertId == h.world.sent[m].alertId ==>
          !h.durable[l])
  }

  lemma DistinctConcat(a: seq<nat>, b: seq<nat>)
    requires Distinct(a) && Distinct(b) && forall x :: x in b ==> x !in a
    ensures Distinct(a + b)
  {
    forall i, j | 0 <= i < j < |a + b|
      ensures (a + b)[i] != (a + b)[j]
    {
      if i < |a| <= j {
        assert a[i] in a && b[j - |a|] in b;
      }
    }
  }

  lemma RunKeepsTidy(py: Python, h: History, order: seq<nat>, env: nat -> CheckEnv, ending: Ending)
    requires Tidy(h) && ListsActive(order, h.world.rows)
    ensures Tidy(Step(py, h, Monitor(order, env, ending)))
  {
    hide SessionOf, AfterRun, TargetMet, Told;
    var w, w' := h.world, AfterRun(py, h.world, order, env, ending);
    var off := SwitchedOffIds(w.rows, w'.rows, order);
    ReportCountsTheFired(py, w, order, env, ending);
    SwitchedOffMembers(w.rows, w'.rows, order);
    RunKeepsKeys(py, w, order, env, ending);
    forall id | id in w.rows && id in h.fired
      ensures !w'.rows[id].active
    {
      CommittedMeansTold(py, w, order, env, ending, id);
    }
    DistinctConcat(h.fired, off);
  }

  lemma RunKeepsKeys(py: Python, w: World, order: seq<nat>, env: nat -> CheckEnv, ending: Ending)
    requires ListsActive(order, w.rows)
    ensures AfterRun(py, w, order, env, ending).rows.Keys == w.rows.Keys
  {
    hide RunRows, Quotes;
    var s := SessionOf(py, w, order, env, ending);
    WriteBackAt(w.rows, order, s.rows, |order|);
    forall id
      ensures id in AfterRun(py, w, order, env, ending).rows <==> id in w.rows
    {
      if id !in order {
        WriteBackElsewhere(w.rows, order, s.rows, |order|, id);
      }
    }
  }

  lemma {:induction false} HistoriesAreTidy(py: Python, ops: seq<Op>)
    ensures Tidy(Replay(py, ops))
  {
    hide SessionOf, AfterRun, Tagged, SwitchedOffIds;
    if ops != [] {
      var h, op := Replay(py, ops[..|ops| - 1]), ops[|ops| - 1];
      HistoriesAreTidy(py, ops[..|ops| - 1]);
      if op.Monitor? && ListsActive(op.order, h.world.rows) {
        RunKeepsTidy(py, h, op.order, op.env, op.ending);
      }
    }
  }

  /** Over any history of serialized runs, committed or abandoned, every alert is switched off at most
      once, and the runs together report as many triggered alerts as were switched off, save those of
      runs in which something raised after the commit. */
  lemma EachAlertFiresOnce(py: Python, ops: seq<Op>)
    ensures Distinct(Replay(py, ops).fired)
    ensures Replay(py, ops).reported + Replay(py, ops).unreported == |Replay(py, ops).fired|
    ensures (forall op :: op in ops && op.Monitor? ==> op.ending != RaisesAfterCommit) ==>
              Replay(py, ops).reported == |Replay(py, ops).fired|
  {
    HistoriesAreTidy(py, ops);
    if forall op :: op in ops && op.Monitor? ==> op.ending != RaisesAfterCommit {
      EverythingReported(py, ops);
    }
  }

  lemma {:induction false} EverythingReported(py: Python, ops: seq<Op>)
    requires forall op :: op in ops && op.Monitor? ==> op.ending != RaisesAfterCommit
    ensures Replay(py, ops).unreported == 0
  {
    hide SessionOf, AfterRun, ListsActive;
    if ops != [] {
      assert ops[|ops| - 1] in ops;
      EverythingReported(py, ops[..|ops| - 1]);
    }
  }

  // ---------------------------------------------------------------------------------------------
  // How often an owner is notified
  // ---------------------------------------------------------------------------------------------

  lemma TaggedAt(tags: seq<bool>, n: nat, tag: bool)
    requires |tags| <= n
    ensures |Tagged(tags, n, tag)| == n && tags <= Tagged(tags, n, tag)
    ensures forall m :: |tags| <= m < n ==> Tagged(tags, n, tag)[m] == tag
  {
  }

  /** The notices of one run: at most one per alert, to active alerts only, and when the run is committed
      none of them is active afterwards. */
  lemma RunNotifies(py: Python, w: World, order: seq<nat>, env: nat -> CheckEnv, ending: Ending)
    requires ListsActive(order, w.rows)
    ensures
      var w' := AfterRun(py, w, order, env, ending);
      && w.sent <= w'.sent
      && (forall m :: |w.sent| <= m < |w'.sent| ==> w'.sent[m].alertId in order)
      && (forall l, m :: |w.sent| <= l < m < |w'.sent| ==> w'.sent[l].alertId != w'.sent[m].alertId)
      && (Committed(SessionOf(py, w, order, env, ending), ending) ==>
            forall m, id :: |w.sent| <= m < |w'.sent| && id == w'.sent[m].alertId && id in w'.rows ==>
              !w'.rows[id].active)
  {
    hide Quotes, RunRows;
    var rows, s, n := RowsAt(w.rows, order), SessionOf(py, w, order, env, ending), Reached(order, ending);
    RunsNotifyOnce(Quotes(py, order, rows, env), order, rows, env, w.sent, n);
    assert order[..n] <= order;
    if Committed(s, ending) {
      WriteBackAt(w.rows, order, s.rows, |order|);
    }
  }

  lemma RunKeepsNotices(py: Python, h: History, order: seq<nat>, env: nat -> CheckEnv, ending: Ending)
    requires Tidy(h) && NoticesAreTidy(h) && ListsActive(order, h.world.rows)
    ensures NoticesAreTidy(Step(py, h, Monitor(order, env, ending)))
  {
    hide SessionOf, AfterRun, TargetMet, Told, SwitchedOffIds, Tagged;
    var h', w := Step(py, h, Monitor(order, env, ending)), h.world;
    var w', committed := h'.world, Committed(SessionOf(py, w, order, env, ending), ending);
    RunNotifies(py, w, order, env, ending);
    RunKeepsKeys(py, w, order, env, ending);
    TaggedAt(h.durable, |w'.sent|, committed);
    forall m, id | 0 <= m < |h'.durable| && h'.durable[m] && id == w'.sent[m].alertId && id in w'.rows
      ensures !w'.rows[id].active
    {
      if m < |w.sent| {
        CommittedMeansTold(py, w, order, env, ending, id);
      }
    }
    forall l, m | 0 <= l < m < |w'.sent| && w'.sent[l].alertId == w'.sent[m].alertId
      ensures !h'.durable[l]
    {
      if l < |w.sent| <= m {
        assert w'.sent[m].alertId in order && w'.sent[l] == w.sent[l];
      }
    }
    forall n | n in w'.sent
      ensures n.alertId in h'.used
    {
      var m :| 0 <= m < |w'.sent| && w'.sent[m] == n;
      assert m < |w.sent| ==> w.sent[m] in w.sent;
    }
  }

  lemma {:induction false} NoticesStayTidy(py: Python, ops: seq<Op>)
    ensures NoticesAreTidy(Replay(py, ops))
  {
    hide SessionOf, AfterRun, Tagged, SwitchedOffIds;
    if ops != [] {
      var h, op := Replay(py, ops[..|ops| - 1]), ops[|ops| - 1];
      NoticesStayTidy(py, ops[..|ops| - 1]);
      HistoriesAreTidy(py, ops[..|ops| - 1]);
      if op.Monitor? && ListsActive(op.order, h.world.rows) {
        RunKeepsNotices(py, h, op.order, op.env, op.ending);
      } else if op.Create? && op.id !in h.used {
        assert forall m :: 0 <= m < |h.world.sent| ==> h.world.sent[m] in h.world.sent;
      }
    }
  }

  ghost predicate NoRepeats(sent: seq<Notice>) {
    forall l, m :: 0 <= l < m < |sent| ==> sent[l].alertId != sent[m].alertId
  }

  /** Over any history, a second notice for an alert leaves only if every run that sent one before was
      abandoned: a committed run has the last word on the alerts it notifies about. */
  lemma RepeatsFollowAbandonedRuns(py: Python, ops: seq<Op>, l: nat, m: nat)
    requires l < m < |Replay(py, ops).world.sent|
    requires Replay(py, ops).world.sent[l].alertId == Replay(py, ops).world.sent[m].alertId
    ensures l < |Replay(py, ops).durable| && !Replay(py, ops).durable[l]
  {
    NoticesStayTidy(py, ops);
  }

  /** Every run that takes place in the history is committed. */
  ghost predicate AllCommitted(py: Python, ops: seq<Op>) {
    forall n :: 0 <= n < |ops| ==> CommittedAt(py, Replay(py, ops[..n]), ops[n])
  }

  ghost predicate CommittedAt(py: Python, h: History, op: Op) {
    op.Monitor? && ListsActive(op.order, h.world.rows) ==>
      Committed(SessionOf(py, h.world, op.order, op.env, op.ending), op.ending)
  }

  lemma {:induction false} CommittedRunsAreDurable(py: Python, ops: seq<Op>)
    requires AllCommitted(py, ops)
    ensures forall tag :: tag in Replay(py, ops).durable ==> tag
  {
    hide SessionOf, AfterRun, SwitchedOffIds;
    if ops != [] {
      var prefix := ops[..|ops| - 1];
      assert forall n :: 0 <= n < |prefix| ==> prefix[..n] == ops[..n];
      CommittedRunsAreDurable(py, prefix);
      assert CommittedAt(py, Replay(py, prefix), ops[|ops| - 1]);
    }
  }

  /** Where every run is committed, every owner is notified at most once per alert. */
  lemma OneNoticePerAlert(py: Python, ops: seq<Op>)
    requires AllCommitted(py, ops)
    ensures NoRepeats(Replay(py, ops).world.sent)
  {
    hide AllCommitted;
    NoticesStayTidy(py, ops);
    CommittedRunsAreDurable(py, ops);
    var h := Replay(py, ops);
    hide Replay;
    forall l, m | 0 <= l < m < |h.world.sent|
      ensures h.world.sent[l].alertId != h.world.sent[m].alertId
    {
      assert h.durable[l] in h.durable;
    }
  }

  /** A day on which one flight at this price is on offer and mail goes through. */
  function Quiet(price: nat): nat -> CheckEnv {
    _ => CheckEnv([Offers([Flight("OS", 0, price)])], Found("owner"), Delivered, 0.0)
  }

  lemma QuietPrice(py: Python, row: AlertRow, id: nat, price: nat)
    requires row.validDate
    ensures CheapestPrice(py, row, Quiet(price)(id)) == Some(price)
  {
    var answers, flight := Quiet(price)(id).answers, Flight("OS", 0, price);
    assert answers[0].offers[0] == flight && Offered(answers, flight);
    assert forall x :: Offered(answers, x) ==> x == flight;
    CheapestIsLowest(py, row, Quiet(price)(id));
  }

  /** A run over one alert on such a day, when its price meets the target. */
  lemma QuietRun(py: Python, w: World, id: nat, price: nat, ending: Ending)
    requires ListsActive([id], w.rows) && w.rows[id].validDate && price <= w.rows[id].target
    requires ending == Finishes || ending == CommitRaises
    ensures SessionOf(py, w, [id], Quiet(price), ending)
            == Session([SwitchedOff(w.rows[id], Quiet(price)(id))], w.sent + [Notice(id, "owner", price)], 1, false)
  {
    hide CheapestPrice, Decide, Quiet;
    var rows := RowsAt(w.rows, [id]);
    assert rows == [w.rows[id]];
    hide ListsActive, RowsAt;
    var quotes := Quotes(py, [id], rows, Quiet(price));
    QuietPrice(py, w.rows[id], id, price);
    QuietDecision(w.rows[id], id, price);
    RunOneRow(quotes, [id], rows, Quiet(price), w.sent);
    hide RunRows, Quotes;
  }

  lemma QuietDecision(row: AlertRow, id: nat, price: nat)
    requires price <= row.target
    ensures Decide(Some(price), id, row, Quiet(price)(id))
            == CheckResult(SwitchedOff(row, Quiet(price)(id)), [Notice(id, "owner", price)], true, false)
  {
  }

  lemma RunOneRow(quotes: seq<Option<int>>, ids: seq<nat>, rows: seq<AlertRow>, env: nat -> CheckEnv, sent: seq<Notice>)
    requires |quotes| == |ids| == |rows| == 1
    ensures RunRows(quotes, ids, rows, env, sent, 1)
            == NextCheck(Session(rows, sent, 0, false), 0, quotes[0], ids[0], env(ids[0]))
  {
    hide NextCheck;
    assert RunRows(quotes, ids, rows, env, sent, 0) == Session(rows, sent, 0, false);
  }

  lemma WriteBackOne(rows: map<nat, AlertRow>, id: nat, row: AlertRow)
    ensures WriteBack(rows, [id], [row], 1) == rows[id := row]
  {
    assert WriteBack(rows, [id], [row], 0) == rows;
  }

  lemma SwitchedOffOne(before: map<nat, AlertRow>, after: map<nat, AlertRow>, id: nat)
    requires id in before && id in after && before[id].active && !after[id].active
    ensures SwitchedOffIds(before, after, [id]) == [id]
  {
    assert SwitchedOffIds(before, after, [id][..0]) == [];
  }

  lemma TaggedOnce(tags: seq<bool>, tag: bool)
    ensures Tagged(tags, |tags| + 1, tag) == tags + [tag]
  {
  }

  lemma OnlyOneActive(rows: map<nat, AlertRow>, id: nat, row: AlertRow)
    requires rows == map[id := row] && row.active
    ensures ListsActive([id], rows)
  {
  }

  /** The same run as a step of a history in which there is no other alert: abandoned. */
  lemma QuietAbandoned(py: Python, h: History, id: nat, row: AlertRow, price: nat)
    requires h.world.rows == map[id := row] && |h.durable| == |h.world.sent|
    requires row.active && row.validDate && price <= row.target
    ensures Step(py, h, Monitor([id], Quiet(price), CommitRaises))
            == h.(world := h.world.(sent := h.world.sent + [Notice(id, "owner", price)]),
                  durable := h.durable + [false])
  {
    hide ListsActive, SessionOf, Quiet, SwitchedOffIds, WriteBack, Tagged;
    OnlyOneActive(h.world.rows, id, row);
    QuietRun(py, h.world, id, price, CommitRaises);
    NothingSwitchedOff(h.world.rows, [id]);
    TaggedOnce(h.durable, false);
  }

  /** And committed. */
  lemma QuietCommitted(py: Python, h: History, id: nat, row: AlertRow, price: nat)
    requires h.world.rows == map[id := row] && |h.durable| == |h.world.sent|
    requires row.active && row.validDate && price <= row.target
    ensures
      var h' := Step(py, h, Monitor([id], Quiet(price), Finishes));
      && h'.world.sent == h.world.sent + [Notice(id, "owner", price)] && h'.durable == h.durable + [true]
      && h'.fired == h.fired + [id] && h'.reported == h.reported + 1
  {
    hide ListsActive, SessionOf, Quiet, SwitchedOffIds, WriteBack, Tagged;
    OnlyOneActive(h.world.rows, id, row);
    QuietRun(py, h.world, id, price, Finishes);
    var off := SwitchedOff(row, Quiet(price)(id));
    WriteBackOne(h.world.rows, id, off);
    SwitchedOffOne(h.world.rows, h.world.rows[id := off], id);
    TaggedOnce(h.durable, true);
  }

  lemma ReplayThree(py: Python, a: Op, b: Op, c: Op)
    ensures Replay(py, [a, b, c]) == Step(py, Step(py, Step(py, START, a), b), c)
  {
    hide Step;
    assert [a, b, c][..2] == [a, b] && [a, b][..1] == [a] && [a][..0] == [];
    assert Replay(py, [a][..0]) == START;
    assert Replay(py, [a]) == Step(py, START, a);
    assert Replay(py, [a, b]) == Step(py, Step(py, START, a), b);
  }

  lemma FirstAlert(py: Python, id: nat, target: int)
    ensures Step(py, START, Create(id, target, true))
            == History(World(map[id := AlertRow(target, true, true, None)], []), {id}, [], 0, 0, [])
  {
  }

  /** An abandoned run and a repeated notice: when the commit of the first run fails, the second run tells
      the owner again. */
  lemma AbandonedRunRepeats(py: Python, id: nat, target: int, price: nat)
    requires price <= target
    ensures
      var first, second := Monitor([id], Quiet(price), CommitRaises), Monitor([id], Quiet(price), Finishes);
      var h, notice := Replay(py, [Create(id, target, true), first, second]), Notice(id, "owner", price);
      h.world.sent == [notice, notice] && h.durable == [false, true] && h.fired == [id] && h.reported == 1
  {
    hide Replay, Step, Quiet;
    var first, second := Monitor([id], Quiet(price), CommitRaises), Monitor([id], Quiet(price), Finishes);
    var h, row := Step(py, START, Create(id, target, true)), AlertRow(target, true, true, None);
    ReplayThree(py, Create(id, target, true), first, second);
    FirstAlert(py, id, target);
    QuietAbandoned(py, h, id, row, price);
    QuietCommitted(py, Step(py, h, first), id, row, price);
  }

  // ---------------------------------------------------------------------------------------------
  // The task
  // ---------------------------------------------------------------------------------------------

  class Database {
    var rows: map<nat, AlertRow>

    constructor (rows: map<nat, AlertRow>)
      ensures this.rows == rows
    {
      this.rows := rows;
    }

    /** Loads the rows as objects of a fresh session. */
    method Load(order: seq<nat>) returns (alerts: seq<PriceAlert>)
      requires forall id :: id in order ==> id in rows
      ensures |alerts| == |order| && fresh(alerts)
      ensures forall i, j :: 0 <= i < j < |alerts| ==> alerts[i] != alerts[j]
      ensures forall i :: 0 <= i < |alerts| ==> alerts[i].id == order[i] && alerts[i].Row() == rows[order[i]]
    {
      alerts := [];
      for n := 0 to |order|
        invariant |alerts| == n && fresh(alerts)
        invariant forall i, j :: 0 <= i < j < n ==> alerts[i] != alerts[j]
        invariant forall i :: 0 <= i < n ==> alerts[i].id == order[i] && alerts[i].Row() == rows[order[i]]
      {
        assert order[n] in order;
        var alert := new PriceAlert(order[n], rows[order[n]]);
        alerts := alerts + [alert];
      }
    }

    method Commit(alerts: seq<PriceAlert>)
      modifies this
      ensures rows == WriteBack(old(rows), IdsOf(alerts), RowsOf(alerts), |alerts|)
    {
      for n := 0 to |alerts|
        invariant rows == WriteBack(old(rows), IdsOf(alerts), RowsOf(alerts), n)
      {
        rows := rows[alerts[n].id := alerts[n].Row()];
      }
    }

    /** `_monitor_prices`: nothing is returned when an exception or the end of the process gets in the way. */
    method MonitorPrices(monitor: PriceMonitor, order: seq<nat>, env: nat -> CheckEnv, ending: Ending)
      returns (triggered: Option<nat>)
      requires ListsActive(order, rows)
      modifies this, monitor.notifier
      ensures
        var w := World(old(rows), old(monitor.notifier.sent));
        var s := SessionOf(monitor.py, w, order, env, ending);
        && World(rows, monitor.notifier.sent) == AfterRun(monitor.py, w, order, env, ending)
        && triggered == Returned(s, ending)
    {
      hide Quotes, RunRows;
      var alerts := Load(order);
      assert IdsOf(alerts) == order && RowsOf(alerts) == RowsAt(rows, order);
      var report := monitor.RunOnce(alerts, env, Reached(order, ending));
      if report.None? || ending.StopsAfter? || ending.CommitRaises? {
        return None;
      }
      Commit(alerts);
      if ending.RaisesAfterCommit? {
        return None;
      }
      return Some(report.value.triggered);
    }
  }
}
