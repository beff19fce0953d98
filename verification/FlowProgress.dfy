/** What follows from soundness: confluence, progress, and the order of completion stamps. */
module FlowProgress {
  import opened Wrappers
  import opened Decimal
  import opened Json
  import opened DepGraph
  import opened FlowLedger
  import opened FanOut
  import opened FlowSystem
  import opened FlowSoundness

  // ---- the verdict of a whole flow ----------------------------------------------------------

  ghost predicate Finished(rows: Ledger) {
    forall id :: id in rows ==> rows[id].status.Succeeded? || rows[id].status.Skipped?
  }

  /** When no row is active or failed, every step has the status and output the flow means. */
  lemma FinishedIsMeaning(f: Flow, v: Verdicts, m: Plan, rows: Ledger, id: string)
    requires PlanOf(f, v, m) && Sound(f.init, m, rows) && Finished(rows) && id in f.init
    ensures v[id] == if rows[id].status.Skipped? then Skips else Yields(rows[id].output)
  {
    assert RowOk(f.init, m, rows, id) && MeantBy(f, v, m, id);
  }

  /** A failed row is only ever found in a flow that means to fail. */
  lemma FailureIsMeant(f: Flow, v: Verdicts, m: Plan, rows: Ledger, id: string)
    requires PlanOf(f, v, m) && Sound(f.init, m, rows) && id in rows && rows[id].status.Failed?
    ensures exists s :: s in f.init && v[s].Fails?
  {
    assert RowOk(f.init, m, rows, id);
    var s := if id in f.init then id else ParentOf(id);
    assert MeantBy(f, v, m, s);
    if id !in f.init { FailedChildFailsParent(f, v, m, rows, id); }
    assert v[s].Fails?;
  }

  lemma FailedChildFailsParent(f: Flow, v: Verdicts, m: Plan, rows: Ledger, id: string)
    requires PlanOf(f, v, m) && Sound(f.init, m, rows) && id in rows && id !in f.init && rows[id].status.Failed?
    ensures ParentOf(id) in m && m[ParentOf(id)].verdict.Fails?
  {
    assert RowOk(f.init, m, rows, id);
    var p, i := ParentOf(id), IndexOf(id);
    assert MeantBy(f, v, m, p);
    assert m[p].starts;
    ExpandedVerdict(f, v, m, p);
    assert m[p].outcomes[i] == ChildOutcome(f, f.init[p], m[p].deps, m[p].items[i]);
  }

  lemma FinishedChildIsDetermined(init: Ledger, m: Plan, rows: Ledger, rows': Ledger, id: string)
    requires Sound(init, m, rows) && Sound(init, m, rows') && Finished(rows) && Finished(rows')
    requires id in rows && id !in init
    ensures id in rows' && rows'[id].status == rows[id].status == Succeeded
    ensures rows'[id].output == rows[id].output && Static(rows'[id]) == Static(rows[id])
  {
    var p := ParentOf(id);
    assert RowOk(init, m, rows, id);
    assert RowOk(init, m, rows, p) && RowOk(init, m, rows', p);
    assert Complete(m, rows', p);
    assert RowOk(init, m, rows', id);
  }

  /** Confluence: however the steps interleave, and wherever the driver is interrupted and resumed,
      two finished ledgers agree on every row, children included, up to the completion stamps. */
  lemma FinishedLedgersAgree(init: Ledger, m: Plan, rows: Ledger, rows': Ledger)
    requires Sound(init, m, rows) && Sound(init, m, rows') && Finished(rows) && Finished(rows')
    ensures rows.Keys == rows'.Keys
    ensures forall id :: id in rows ==> rows[id].status == rows'[id].status && Static(rows[id]) == Static(rows'[id])
    ensures forall id :: id in rows && rows[id].status.Succeeded? ==> rows[id].output == rows'[id].output
  {
    forall id | id in rows
      ensures id in rows' && rows[id].status == rows'[id].status && Static(rows[id]) == Static(rows'[id])
      ensures rows[id].status.Succeeded? ==> rows[id].output == rows'[id].output
    {
      if id in init {
        assert RowOk(init, m, rows, id) && RowOk(init, m, rows', id);
      } else {
        FinishedChildIsDetermined(init, m, rows, rows', id);
      }
    }
    forall id | id in rows' ensures id in rows {
      if id !in init { FinishedChildIsDetermined(init, m, rows', rows, id); }
    }
  }

  /** In every reachable ledger, whatever has started, map children included, has all its dependencies
      succeeded. */
  lemma StartedDepsSucceeded(f: Flow, st: State, id: string)
    requires ValidFlow(f) && Reachable(f, st) && id in st.rows
    requires st.rows[id].status.Running? || Opened(st.rows[id].status)
    ensures AllSucceeded(st.rows, st.rows[id])
  {
    var order :| TopoOrder(GraphOf(f.init), order);
    MeaningExists(f, order);
    var m := PlanExists(f, Evaluate(f, order));
    ReachableIsSound(f, Evaluate(f, order), m, st);
    StartedInSound(f.init, m, st.rows, id);
  }

  lemma StartedInSound(init: Ledger, m: Plan, rows: Ledger, id: string)
    requires Sound(init, m, rows) && id in rows && (rows[id].status.Running? || Opened(rows[id].status))
    ensures AllSucceeded(rows, rows[id])
  {
    assert RowOk(init, m, rows, id);
    DepsOfRow(init, m, rows, id);
  }

  // ---- progress -----------------------------------------------------------------------------

  ghost predicate Quiet(rows: Ledger) {
    forall id :: id in rows ==> !rows[id].status.Running? && !rows[id].status.Failed?
  }

  /** Something the driver can do with a row, whatever order it reads the rows in. */
  ghost predicate Actionable(rows: Ledger, id: string)
    requires id in rows
  {
    (rows[id].status.Pending? && Ready(rows, rows[id]))
    || (rows[id].status.Expanded? && forall steps :: Enumerates(steps, rows) ==> AggregateChildren(steps, id).Some?)
  }

  lemma ChildIsReady(init: Ledger, m: Plan, rows: Ledger, id: string)
    requires Sound(init, m, rows) && id in rows && id !in init
    ensures Ready(rows, rows[id]) && !rows[id].status.Expanded?
  {
    DepsOfRow(init, m, rows, id);
    assert RowOk(init, m, rows, id);
  }

  lemma ExpandedIsActionable(init: Ledger, m: Plan, rows: Ledger, p: string)
    requires Sound(init, m, rows) && Quiet(rows) && p in rows && rows[p].status.Expanded?
    ensures exists id :: id in rows && Actionable(rows, id)
  {
    if p !in init { ChildIsReady(init, m, rows, p); }
    assert RowOk(init, m, rows, p);
    var n := |m[p].items|;
    OpenedHasChildren(init, m, rows, p);
    if SomeChild(rows, p, n, Active) {
      var i :| 0 <= i < n && Active(rows[ChildId(p, i)].status);
      ChildRowOfIndex(init, m, rows, p, i);
      ChildIsReady(init, m, rows, ChildId(p, i));
      assert Actionable(rows, ChildId(p, i));
    } else {
      forall steps | Enumerates(steps, rows) ensures AggregateChildren(steps, p).Some? {
        FanInAnyOrder(steps, rows, p, n);
      }
      assert Actionable(rows, p);
    }
  }

  /** The first pending step of an order, if there is one. */
  lemma {:induction false} FirstPending(order: seq<string>, rows: Ledger, n: nat) returns (k: nat)
    requires n <= |order|
    ensures k <= n && forall i :: 0 <= i < k && order[i] in rows ==> !rows[order[i]].status.Pending?
    ensures k < n ==> order[k] in rows && rows[order[k]].status.Pending?
  {
    if n == 0 {
      k := 0;
    } else {
      k := FirstPending(order, rows, n - 1);
      if k == n - 1 && !(order[k] in rows && rows[order[k]].status.Pending?) { k := n; }
    }
  }

  lemma PendingIsActionable(init: Ledger, m: Plan, rows: Ledger, id: string)
    requires Sound(init, m, rows) && Quiet(rows) && id in rows && rows[id].status.Pending?
    requires exists order :: TopoOrder(GraphOf(init), order)
    requires forall k :: k in rows ==> !rows[k].status.Expanded?
    ensures exists k :: k in rows && Actionable(rows, k)
  {
    if id !in init {
      ChildIsReady(init, m, rows, id);
      assert Actionable(rows, id);
    } else {
      var order :| TopoOrder(GraphOf(init), order);
      assert id in GraphOf(init);
      assert id in order;
      var k := FirstPending(order, rows, |order|);
      var s := order[k];
      DepsOfRow(init, m, rows, s);
      if s in init {
        assert RowOk(init, m, rows, s);
        forall d | d in rows[s].dependsOn ensures DepIs(rows, d, Succeeded) || DepIs(rows, d, Skipped) {
          assert Edge(GraphOf(init), order[k], d);
          var j :| 0 <= j < k && order[j] == d;
        }
      } else {
        ChildIsReady(init, m, rows, s);
      }
      assert Actionable(rows, s);
    }
  }

  /** The driver never has to sleep: while work remains and nothing failed, there is something to do. */
  lemma Progress(init: Ledger, m: Plan, rows: Ledger, id: string)
    requires Sound(init, m, rows) && Quiet(rows) && id in rows && Active(rows[id].status)
    requires exists order :: TopoOrder(GraphOf(init), order)
    ensures exists k :: k in rows && Actionable(rows, k)
  {
    if p :| p in rows && rows[p].status.Expanded? {
      ExpandedIsActionable(init, m, rows, p);
    } else {
      PendingIsActionable(init, m, rows, id);
    }
  }

  // ---- completion stamps --------------------------------------------------------------------

  /** Finished rows are stamped, no two alike, and after everything they depend on. */
  ghost predicate Stamped(st: State) {
    && (forall id :: id in st.rows ==> StampFits(st.rows[id], st.now)) && StampsDiffer(st.rows)
    && (forall id {:trigger DepsStamped(st.rows, id)} :: id in st.rows ==> DepsStamped(st.rows, id))
  }

  ghost predicate StampFits(r: FlowStep, now: int) {
    (Terminal(r.status) <==> r.finishedAt.Some?) && (r.finishedAt.Some? ==> r.finishedAt.value < now)
  }

  ghost predicate StampsDiffer(rows: Ledger) {
    forall a, b :: a in rows && b in rows && a != b && rows[a].finishedAt.Some? ==> rows[a].finishedAt != rows[b].finishedAt
  }

  ghost predicate DepsStamped(rows: Ledger, id: string)
    requires id in rows
  {
    forall d :: d in rows[id].dependsOn && !rows[id].status.Pending? ==>
                  && d in rows && Terminal(rows[d].status)
                  && (rows[id].finishedAt.Some? ==>
                        rows[d].finishedAt.Some? && rows[d].finishedAt.value < rows[id].finishedAt.value)
  }

  ghost predicate DepsFinished(rows: Ledger, r: FlowStep) {
    forall d :: d in r.dependsOn ==> d in rows && Terminal(rows[d].status)
  }

  /** One row changes, to a stamp taken now if it is finished and to none if it is not. */
  ghost predicate RowStamped(st: State, st': State, id: string) {
    && id in st.rows && st'.rows.Keys == st.rows.Keys
    && (forall k :: k in st.rows && k != id ==> st'.rows[k] == st.rows[k])
    && st'.rows[id].dependsOn == st.rows[id].dependsOn && !st'.rows[id].status.Pending?
    && (if Terminal(st'.rows[id].status)
        then st'.rows[id].finishedAt == Some(st.now) && st'.now == st.now + 1
        else st'.rows[id].finishedAt == st.rows[id].finishedAt && st'.now == st.now)
  }

  lemma RowStampedKeeps(st: State, st': State, id: string)
    requires Stamped(st) && RowStamped(st, st', id) && !Terminal(st.rows[id].status)
    requires DepsFinished(st.rows, st.rows[id])
    ensures Stamped(st')
  {
    forall k | k in st'.rows ensures DepsStamped(st'.rows, k) {
      RowStampedDeps(st, st', id, k);
    }
    RowStampDiffers(st, st', id);
  }

  lemma RowStampDiffers(st: State, st': State, id: string)
    requires StampsDiffer(st.rows) && (forall k :: k in st.rows ==> StampFits(st.rows[k], st.now))
    requires RowStamped(st, st', id) && !Terminal(st.rows[id].status)
    ensures StampsDiffer(st'.rows) && forall k :: k in st'.rows ==> StampFits(st'.rows[k], st'.now)
  {
  }

  lemma RowStampedDeps(st: State, st': State, id: string, k: string)
    requires Stamped(st) && RowStamped(st, st', id) && !Terminal(st.rows[id].status) && k in st.rows
    requires DepsFinished(st.rows, st.rows[id])
    ensures DepsStamped(st'.rows, k)
  {
    assert DepsStamped(st.rows, k);
  }

  lemma FinishKeepsStamps(st: State, id: string, status: Status, output: Option<string>)
    requires Stamped(st) && id in st.rows && !Terminal(st.rows[id].status) && Terminal(status)
    requires DepsFinished(st.rows, st.rows[id])
    ensures Stamped(FinishStep(st, id, status, output))
    ensures Stamped(MarkStepSkipped(st, id))
  {
    RowStampedKeeps(st, FinishStep(st, id, status, output), id);
    RowStampedKeeps(st, MarkStepSkipped(st, id), id);
  }

  lemma RunningKeepsStamps(st: State, id: string)
    requires Stamped(st) && id in st.rows && st.rows[id].status.Pending?
    requires DepsFinished(st.rows, st.rows[id])
    ensures Stamped(SetStepRunning(st, id))
  {
    RowStampedKeeps(st, SetStepRunning(st, id), id);
  }

  lemma ExpandKeepsStamps(st: State, id: string, items: seq<Value>)
    requires Stamped(st) && id in st.rows && st.rows[id].status.Pending? && st.rows[id].stepId == id
    requires DepsFinished(st.rows, st.rows[id])
    ensures Stamped(ExpandMapStep(st, id, items))
  {
    ExpandShape(st, id, items);
    var rows, rows' := st.rows, ExpandMapStep(st, id, items).rows;
    forall k | k in rows'
      ensures k !in rows ==> rows'[k].status.Pending? && rows'[k].finishedAt.None?
      ensures k in rows && k != id ==> rows'[k] == rows[k]
    {
    }
    forall k | k in rows' ensures DepsStamped(rows', k) {
      assert k in rows ==> DepsStamped(rows, k);
    }
  }

  lemma StartedDepsFinished(rows: Ledger, id: string)
    requires id in rows && DepsStamped(rows, id)
    requires Ready(rows, rows[id]) || !rows[id].status.Pending?
    ensures DepsFinished(rows, rows[id])
  {
    if Ready(rows, rows[id]) {
      forall d | d in rows[id].dependsOn ensures d in rows && Terminal(rows[d].status) {
        assert DepIs(rows, d, Succeeded) || DepIs(rows, d, Skipped);
      }
    }
  }

  ghost predicate OwnIds(rows: Ledger) {
    forall id :: id in rows ==> rows[id].stepId == id
  }

  lemma NextKeepsStamps(f: Flow, st: State, e: Event, st': State)
    requires Stamped(st) && OwnIds(st.rows) && Next(f, st, e, st')
    ensures Stamped(st')
  {
    var id, r := e.id, st.rows[e.id];
    assert DepsStamped(st.rows, id);
    StartedDepsFinished(st.rows, id);
    match e
    case Skipping(_) => FinishKeepsStamps(st, id, Skipped, None);
    case Expanding(_) =>
      match MapItems(f, r, BuildDeps(r.dependsOn, Outputs(st.rows))) {
        case None => FinishKeepsStamps(st, id, Failed, Some("map_ref_not_array"));
        case Some(items) =>
          if items == [] {
            FinishKeepsStamps(st, id, Succeeded, Some("[]"));
          } else if |items| > MAX_MAP_FANOUT {
            FinishKeepsStamps(st, id, Failed, Some("map_fanout_too_large"));
          } else {
            ExpandKeepsStamps(st, id, items);
          }
      }
    case Launching(_) =>
      if !f.w.script(r.scriptId).Runnable? || AttemptBudget(r.retries) == 0 {
        SettleKeepsStamps(st, id, RunOutcome(f.w, r.scriptId, Null, r.retries));
      } else {
        RunningKeepsStamps(st, id);
      }
    case Finishing(_) => SettleKeepsStamps(st, id, RunOutcome(f.w, r.scriptId, InputOf(f, st.rows, r), r.retries));
    case Aggregating(_) =>
      var steps :| Enumerates(steps, st.rows) && AggregateChildren(steps, id).Some?
                   && st' == SettleAgg(st, id, AggregateChildren(steps, id).value);
      match AggregateChildren(steps, id).value {
        case AggFailed => FinishKeepsStamps(st, id, Failed, Some("map_child_failed"));
        case AggSucceeded(output) => FinishKeepsStamps(st, id, Succeeded, Some(output));
      }
  }

  lemma SettleKeepsStamps(st: State, id: string, o: Outcome)
    requires Stamped(st) && id in st.rows && !Terminal(st.rows[id].status)
    requires DepsFinished(st.rows, st.rows[id])
    ensures Stamped(Settle(st, id, o))
  {
    match o
    case Done(output) => FinishKeepsStamps(st, id, Succeeded, output);
    case Fail(reason) => FinishKeepsStamps(st, id, Failed, Some(reason));
  }

  /** Soundness gives every row its own id. */
  lemma SoundOwnIds(init: Ledger, m: Plan, rows: Ledger)
    requires Sound(init, m, rows)
    ensures OwnIds(rows)
  {
    forall id | id in rows ensures rows[id].stepId == id {
      assert RowOk(init, m, rows, id);
      assert Static(rows[id]).stepId == rows[id].stepId;
    }
  }

  lemma {:induction false} ExecutionIsStamped(f: Flow, v: Verdicts, m: Plan, trace: seq<State>)
    requires PlanOf(f, v, m) && Execution(f, trace) && Sound(f.init, m, trace[0].rows) && Stamped(trace[0])
    ensures Stamped(trace[|trace| - 1])
  {
    if |trace| > 1 {
      var before, k := trace[..|trace| - 1], |trace| - 2;
      assert forall i {:trigger before[i]} :: 0 <= i < |before| - 1 ==> before[i] == trace[i] && before[i + 1] == trace[i + 1];
      ExecutionIsStamped(f, v, m, before);
      ExecutionIsSound(f, v, m, before);
      SoundOwnIds(f.init, m, before[k].rows);
      assert CanStep(f, trace[k], trace[k + 1]);
      var e :| Next(f, trace[k], e, trace[k + 1]);
      NextKeepsStamps(f, trace[k], e, trace[k + 1]);
    }
  }

  lemma ReachableIsStamped(f: Flow, st: State)
    requires ValidFlow(f) && Reachable(f, st)
    ensures Stamped(st) && OwnIds(st.rows)
  {
    var v, m := SomePlan(f);
    ReachableIsSound(f, v, m, st);
    SoundOwnIds(f.init, m, st.rows);
    var trace :| Execution(f, trace) && trace[0] == State(f.init, 0) && trace[|trace| - 1] == st;
    ExecutionIsStamped(f, v, m, trace);
  }

  lemma SomePlan(f: Flow) returns (v: Verdicts, m: Plan)
    requires ValidFlow(f)
    ensures Meaning(f, v) && PlanOf(f, v, m) && Sound(f.init, m, f.init) && Stamped(State(f.init, 0))
  {
    var order :| TopoOrder(GraphOf(f.init), order);
    MeaningExists(f, order);
    v := Evaluate(f, order);
    m := PlanExists(f, v);
    InitialIsSound(f, v, m);
  }

  lemma ReachableStep(f: Flow, st: State, e: Event, st': State)
    requires Reachable(f, st) && Next(f, st, e, st')
    ensures Reachable(f, st')
  {
    var trace :| Execution(f, trace) && trace[0] == State(f.init, 0) && trace[|trace| - 1] == st;
    var longer := trace + [st'];
    forall i {:trigger longer[i]} | 0 <= i < |longer| - 1 ensures CanStep(f, longer[i], longer[i + 1]) {
      if i < |trace| - 1 { assert CanStep(f, trace[i], trace[i + 1]); }
    }
    assert Execution(f, longer);
  }

  /** Along dependencies, completion goes back in time: a step that succeeded finished after every
      step it transitively depends on, each of which succeeded too. */
  lemma {:induction false} DependencyFinishedEarlier(init: Ledger, m: Plan, st: State, p: seq<string>)
    requires Sound(init, m, st.rows) && Stamped(st) && Walk(GraphOf(init), p) && |p| > 1
    requires p[0] in init && st.rows[p[0]].status.Succeeded?
    ensures var d := p[|p| - 1];
            d in init && st.rows[d].status.Succeeded?
            && st.rows[d].finishedAt.Some? && st.rows[p[0]].finishedAt.Some?
            && st.rows[d].finishedAt.value < st.rows[p[0]].finishedAt.value
  {
    var rows := st.rows;
    assert Edge(GraphOf(init), p[0], p[1]);
    assert RowOk(init, m, rows, p[0]);
    assert rows[p[0]].dependsOn == init[p[0]].dependsOn;
    DepsOfRow(init, m, rows, p[0]);
    assert DepIs(rows, p[1], Succeeded);
    assert DepsStamped(rows, p[0]);
    if |p| > 2 {
      var rest := p[1..];
      forall i {:trigger rest[i]} | 0 <= i < |rest| - 1 ensures Edge(GraphOf(init), rest[i], rest[i + 1]) {
        assert Edge(GraphOf(init), p[i + 1], p[i + 2]);
      }
      DependencyFinishedEarlier(init, m, st, rest);
    }
  }
}
