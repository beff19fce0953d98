/** The driver of one flow run (`drive_inner`, `expand`, `run_step`, `compensate` of flow.rs), pass by
    pass over the ledger it updates. Every ledger write is a transition of FlowSystem. */
module FlowDriver {
  import opened Wrappers
  import opened Decimal
  import opened Json
  import opened DepGraph
  import opened FlowLedger
  import opened FanOut
  import opened FlowSystem
  import opened FlowSoundness
  import opened FlowProgress
  import opened FlowMeaning
  import opened Saga

  datatype RunStatus = Driving | FlowSucceeded | FlowFailed | CompensationFailed

  /** A step queued for a container run in this pass, with the inputs built for it. */
  datatype Task = Task(step: FlowStep, deps: Value)

  // ---- measure of the remaining work ----------------------------------------------------------

  ghost function UnexpandedMaps(rows: Ledger): set<string> {
    set id | id in rows && rows[id].status.Pending? && rows[id].mapRef.Some?
  }

  ghost function PendingRows(rows: Ledger): set<string> {
    set id | id in rows && rows[id].status.Pending?
  }

  ghost function ExpandedRows(rows: Ledger): set<string> {
    set id | id in rows && rows[id].status.Expanded?
  }

  /** Less work remains: unexpanded maps, then pending rows, then expanded parents. */
  ghost predicate Less(rows': Ledger, rows: Ledger) {
    var u, u', p, p' := |UnexpandedMaps(rows)|, |UnexpandedMaps(rows')|, |PendingRows(rows)|, |PendingRows(rows')|;
    u' < u || (u' == u && (p' < p || (p' == p && |ExpandedRows(rows')| < |ExpandedRows(rows)|)))
  }

  lemma SmallerSet(a: set<string>, b: set<string>)
    ensures a <= b ==> |a| <= |b|
    ensures a < b ==> |a| < |b|
  {
    if a <= b { SubsetCardinality(a, b); }
    if a < b {
      var x :| x in b && x !in a;
      SubsetSize(a, b, x);
    }
  }

  lemma LessTransitive(a: Ledger, b: Ledger, c: Ledger)
    requires Less(a, b) && Less(b, c)
    ensures Less(a, c)
  {
  }

  // ---- stability of what a pass read ------------------------------------------------------------

  /** Finished rows stay as they are. */
  ghost predicate Keeps(rows0: Ledger, rows: Ledger) {
    rows0.Keys <= rows.Keys && forall id :: id in rows0 && Terminal(rows0[id].status) ==> rows[id] == rows0[id]
  }

  lemma ReadyStays(f: Flow, rows0: Ledger, rows: Ledger, r: FlowStep)
    requires Keeps(rows0, rows) && Ready(rows0, r)
    ensures Ready(rows, r)
    ensures BuildDeps(r.dependsOn, Outputs(rows0)) == BuildDeps(r.dependsOn, Outputs(rows))
    ensures ShouldSkip(f, rows0, r) == ShouldSkip(f, rows, r)
  {
    forall d | d in r.dependsOn
      ensures d in rows0 && d in rows && rows[d] == rows0[d] && Terminal(rows0[d].status)
    {
      assert DepIs(rows0, d, Succeeded) || DepIs(rows0, d, Skipped);
    }
    BuildDepsAgree(r.dependsOn, Outputs(rows0), Outputs(rows));
  }

  /** Outputs of succeeded steps, as a pass collects them from the rows it read. */
  function OutputsOf(steps: seq<FlowStep>): map<string, string> {
    if steps == [] then map[]
    else
      var s := steps[|steps| - 1];
      var rest := OutputsOf(steps[..|steps| - 1]);
      if s.status.Succeeded? then rest[s.stepId := s.output.GetOr("")] else rest
  }

  function SkippedOf(steps: seq<FlowStep>): set<string> {
    set s | s in steps && s.status.Skipped? :: s.stepId
  }

  lemma {:induction false} OutputsOfRead(steps: seq<FlowStep>)
    requires DistinctIds(steps)
    ensures forall id :: id in OutputsOf(steps) <==> exists s :: s in steps && s.stepId == id && s.status.Succeeded?
    ensures forall s :: s in steps && s.status.Succeeded? ==>
                          s.stepId in OutputsOf(steps) && OutputsOf(steps)[s.stepId] == s.output.GetOr("")
  {
    if steps != [] {
      var n := |steps| - 1;
      OutputsOfRead(steps[..n]);
      OutputsMore(steps, steps[..n], steps[n]);
    }
  }

  lemma OutputsMore(steps: seq<FlowStep>, front: seq<FlowStep>, last: FlowStep)
    requires steps == front + [last] && DistinctIds(steps)
    requires forall id :: id in OutputsOf(front) <==> exists s :: s in front && s.stepId == id && s.status.Succeeded?
    requires forall s :: s in front && s.status.Succeeded? ==>
                           s.stepId in OutputsOf(front) && OutputsOf(front)[s.stepId] == s.output.GetOr("")
    ensures forall id :: id in OutputsOf(steps) <==> exists s :: s in steps && s.stepId == id && s.status.Succeeded?
    ensures forall s :: s in steps && s.status.Succeeded? ==>
                          s.stepId in OutputsOf(steps) && OutputsOf(steps)[s.stepId] == s.output.GetOr("")
  {
    assert steps[..|steps| - 1] == front && steps[|steps| - 1] == last;
    assert forall s :: s in steps <==> s in front || s == last;
    assert forall s :: s in front ==> s.stepId != last.stepId;
  }

  lemma OutputsAsRead(steps: seq<FlowStep>, rows: Ledger)
    requires Enumerates(steps, rows)
    ensures OutputsOf(steps) == Outputs(rows)
    ensures forall d :: d in SkippedOf(steps) <==> DepIs(rows, d, Skipped)
  {
    OutputsOfRead(steps);
    forall id ensures id in OutputsOf(steps) <==> id in Outputs(rows) {
      assert id in rows ==> rows[id] in steps && rows[id].stepId == id;
    }
    forall id | id in Outputs(rows) ensures OutputsOf(steps)[id] == Outputs(rows)[id] {
      assert rows[id] in steps && rows[id].stepId == id;
    }
    forall d | DepIs(rows, d, Skipped) ensures d in SkippedOf(steps) {
      assert rows[d] in steps && rows[d].stepId == d;
    }
  }

  /** Settling other parents does not change what a parent's children add up to. */
  lemma AggregateStays(init: Ledger, m: Plan, rows0: Ledger, rows: Ledger, steps0: seq<FlowStep>, p: string)
    requires Sound(init, m, rows0) && Sound(init, m, rows) && Enumerates(steps0, rows0)
    requires p in rows0 && rows0[p].status.Expanded? && p in rows && rows[p].status.Expanded?
    requires rows.Keys == rows0.Keys
    requires forall id :: id in rows0 ==> rows[id] == rows0[id] || rows0[id].status.Expanded?
    ensures exists steps :: Enumerates(steps, rows) && AggregateChildren(steps, p) == AggregateChildren(steps0, p)
  {
    var n := SameChildren(init, m, rows0, rows, p);
    SoundOwnIds(init, m, rows);
    var steps := ReadAgain(steps0, rows0, rows);
    AggregateSame(steps0, rows0, steps, rows, p, n);
  }

  /** The rows of another ledger with the same ids, in the same order. */
  lemma ReadAgain(steps0: seq<FlowStep>, rows0: Ledger, rows: Ledger) returns (steps: seq<FlowStep>)
    requires Enumerates(steps0, rows0) && rows.Keys == rows0.Keys && OwnIds(rows)
    ensures Enumerates(steps, rows)
  {
    steps := seq(|steps0|, i requires 0 <= i < |steps0| => rows[steps0[i].stepId]);
    EnumeratesAgain(steps0, rows0, steps, rows);
  }

  lemma SameChildren(init: Ledger, m: Plan, rows0: Ledger, rows: Ledger, p: string) returns (n: nat)
    requires Sound(init, m, rows0) && Sound(init, m, rows)
    requires p in rows0 && rows0[p].status.Expanded? && p in rows && rows[p].status.Expanded?
    requires forall id :: id in rows0 ==> id in rows && (rows[id] == rows0[id] || rows0[id].status.Expanded?)
    ensures HasChildren(rows0, p, n) && HasChildren(rows, p, n)
    ensures forall i :: 0 <= i < n ==> rows[ChildId(p, i)] == rows0[ChildId(p, i)]
  {
    assert RowOk(init, m, rows0, p);
    n := |m[p].items|;
    OpenedHasChildren(init, m, rows0, p);
    OpenedHasChildren(init, m, rows, p);
    forall i | 0 <= i < n ensures rows[ChildId(p, i)] == rows0[ChildId(p, i)] {
      ChildRowOfIndex(init, m, rows0, p, i);
    }
  }

  lemma AggregateSame(steps0: seq<FlowStep>, rows0: Ledger, steps: seq<FlowStep>, rows: Ledger, p: string, n: nat)
    requires Enumerates(steps0, rows0) && Enumerates(steps, rows)
    requires HasChildren(rows0, p, n) && HasChildren(rows, p, n)
    requires forall i :: 0 <= i < n ==> rows[ChildId(p, i)] == rows0[ChildId(p, i)]
    ensures AggregateChildren(steps, p) == AggregateChildren(steps0, p)
  {
    FanInAnyOrder(steps0, rows0, p, n);
    FanInAnyOrder(steps, rows, p, n);
    assert ChildSlots(rows, p, n) == ChildSlots(rows0, p, n);
  }

  lemma EnumeratesAgain(steps0: seq<FlowStep>, rows0: Ledger, steps: seq<FlowStep>, rows: Ledger)
    requires Enumerates(steps0, rows0) && rows.Keys == rows0.Keys && OwnIds(rows) && |steps| == |steps0|
    requires forall i :: 0 <= i < |steps| ==> steps0[i] in steps0 && steps[i] == rows[steps0[i].stepId]
    ensures Enumerates(steps, rows)
  {
    forall id | id in rows ensures rows[id].stepId == id && rows[id] in steps {
      assert rows0[id] in steps0 && rows0[id].stepId == id;
      var i :| 0 <= i < |steps0| && steps0[i] == rows0[id];
      assert steps[i] == rows[id];
    }
    forall s | s in steps ensures s.stepId in rows && rows[s.stepId] == s {
      var i :| 0 <= i < |steps| && steps[i] == s;
      assert steps0[i] in steps0;
    }
    forall i, j | 0 <= i < j < |steps| ensures steps[i].stepId != steps[j].stepId {
      assert steps0[i] in steps0 && steps0[j] in steps0;
    }
  }

  // ---- what each part of a pass achieves --------------------------------------------------------

  ghost predicate NoneRunning(rows: Ledger) {
    forall id :: id in rows ==> !rows[id].status.Running?
  }

  /** The tasks of a pass: distinct pending plain steps that may start, with the inputs they get. */
  ghost predicate TasksReady(f: Flow, rows: Ledger, tasks: seq<Task>) {
    && (forall i, j :: 0 <= i < j < |tasks| ==> tasks[i].step.stepId != tasks[j].step.stepId)
    && forall i {:trigger TaskReady(f, rows, tasks[i])} :: 0 <= i < |tasks| ==> TaskReady(f, rows, tasks[i])
  }

  ghost predicate TaskReady(f: Flow, rows: Ledger, t: Task) {
    var id := t.step.stepId;
    && Startable(f, rows, id) && rows[id] == t.step && t.step.mapRef.None?
    && t.deps == BuildDeps(t.step.dependsOn, Outputs(rows))
  }

  lemma TaskStays(f: Flow, rows0: Ledger, rows: Ledger, t: Task)
    requires TaskReady(f, rows0, t) && Keeps(rows0, rows) && rows[t.step.stepId] == t.step
    ensures TaskReady(f, rows, t)
  {
    ReadyStays(f, rows0, rows, t.step);
  }

  /** Some expanded parents were settled, nothing else changed. */
  ghost predicate ParentsSettled(rows0: Ledger, rows: Ledger) {
    && rows.Keys == rows0.Keys
    && forall id :: id in rows0 ==>
         rows[id] == rows0[id] || (rows0[id].status.Expanded? && Terminal(rows[id].status))
  }

  lemma SettlingIsLess(rows0: Ledger, rows: Ledger, p: string)
    requires ParentsSettled(rows0, rows) && p in rows0 && rows0[p].status.Expanded? && Terminal(rows[p].status)
    ensures Less(rows, rows0)
  {
    assert UnexpandedMaps(rows) == UnexpandedMaps(rows0);
    assert PendingRows(rows) == PendingRows(rows0);
    assert p in ExpandedRows(rows0) && p !in ExpandedRows(rows);
    SmallerSet(ExpandedRows(rows), ExpandedRows(rows0));
  }

  lemma SettlingIsAStep(f: Flow, m: Plan, rows0: Ledger, st: State, steps: seq<FlowStep>, id: string, agg: Agg)
    requires Sound(f.init, m, rows0) && Sound(f.init, m, st.rows) && Enumerates(steps, rows0)
    requires ParentsSettled(rows0, st.rows) && id in rows0 && st.rows[id] == rows0[id] && rows0[id].status.Expanded?
    requires AggregateChildren(steps, id) == Some(agg)
    ensures Next(f, st, Aggregating(id), SettleAgg(st, id, agg))
  {
    AggregateStays(f.init, m, rows0, st.rows, steps, id);
    var again :| Enumerates(again, st.rows) && AggregateChildren(again, id) == Some(agg);
  }

  lemma SettlesOneParent(rows0: Ledger, st: State, id: string, agg: Agg)
    requires ParentsSettled(rows0, st.rows) && id in rows0 && st.rows[id] == rows0[id] && rows0[id].status.Expanded?
    ensures var rows' := SettleAgg(st, id, agg).rows;
            ParentsSettled(rows0, rows') && Terminal(rows'[id].status) && forall k :: k in st.rows && k != id ==> rows'[k] == st.rows[k]
  {
  }

  /** The tasks were run to their end, nothing else changed. */
  ghost predicate TasksRun(rows0: Ledger, rows: Ledger, tasks: seq<Task>) {
    && rows.Keys == rows0.Keys
    && (forall k :: 0 <= k < |tasks| ==> tasks[k].step.stepId in rows && Terminal(rows[tasks[k].step.stepId].status))
    && forall id :: id in rows0 && (forall k :: 0 <= k < |tasks| ==> tasks[k].step.stepId != id) ==> rows[id] == rows0[id]
  }

  lemma RunningIsLess(f: Flow, rows0: Ledger, rows: Ledger, tasks: seq<Task>)
    requires TasksReady(f, rows0, tasks) && tasks != [] && TasksRun(rows0, rows, tasks)
    ensures Less(rows, rows0)
  {
    forall k | 0 <= k < |tasks| ensures tasks[k].step.stepId !in UnexpandedMaps(rows0) {
      assert TaskReady(f, rows0, tasks[k]);
    }
    forall id | id in rows0 ensures id in UnexpandedMaps(rows) <==> id in UnexpandedMaps(rows0) {
      if k :| 0 <= k < |tasks| && tasks[k].step.stepId == id {
        assert id !in UnexpandedMaps(rows);
      } else {
        assert rows[id] == rows0[id];
      }
    }
    assert UnexpandedMaps(rows) == UnexpandedMaps(rows0);
    assert TaskReady(f, rows0, tasks[0]);
    assert tasks[0].step.stepId in PendingRows(rows0) - PendingRows(rows);
    forall id | id in PendingRows(rows) ensures id in PendingRows(rows0) {
      assert forall k :: 0 <= k < |tasks| ==> tasks[k].step.stepId != id;
    }
    SmallerSet(PendingRows(rows), PendingRows(rows0));
  }

  /** What resolving pending steps may do: settle or expand them; new rows are plain and pending. */
  ghost predicate Resolves(rows0: Ledger, rows: Ledger) {
    && Keeps(rows0, rows)
    && (forall id :: id in rows0 ==> rows[id] == rows0[id] || (rows0[id].status.Pending? && !rows[id].status.Pending?))
    && (forall id :: id in rows && id !in rows0 ==> rows[id].status.Pending? && rows[id].mapRef.None?)
    && (rows.Keys == rows0.Keys || UnexpandedMaps(rows) != UnexpandedMaps(rows0))
  }

  lemma ResolvingIsLess(rows0: Ledger, rows: Ledger, id: string)
    requires Resolves(rows0, rows) && id in rows0 && rows[id] != rows0[id]
    ensures Less(rows, rows0)
  {
    assert UnexpandedMaps(rows) <= UnexpandedMaps(rows0);
    if UnexpandedMaps(rows) == UnexpandedMaps(rows0) {
      assert id in PendingRows(rows0) - PendingRows(rows);
      assert PendingRows(rows) <= PendingRows(rows0);
      SmallerSet(PendingRows(rows), PendingRows(rows0));
    } else {
      SmallerSet(UnexpandedMaps(rows), UnexpandedMaps(rows0));
    }
  }

  /** The pending row `id` is settled or expanded; rows that appear are plain and pending. */
  ghost predicate ResolvesOne(rows: Ledger, rows': Ledger, id: string) {
    && id in rows && rows.Keys <= rows'.Keys
    && rows[id].status.Pending? && !rows'[id].status.Pending? && !rows'[id].status.Running?
    && (forall k :: k in rows && k != id ==> rows'[k] == rows[k])
    && (forall k :: k in rows' && k !in rows ==> rows'[k].status.Pending? && rows'[k].mapRef.None?)
    && (rows'.Keys == rows.Keys || rows[id].mapRef.Some?)
  }

  lemma ResolveMore(rows0: Ledger, rows: Ledger, rows': Ledger, id: string)
    requires Resolves(rows0, rows) && ResolvesOne(rows, rows', id) && id in rows0 && rows[id] == rows0[id]
    ensures Resolves(rows0, rows')
  {
    assert UnexpandedMaps(rows') <= UnexpandedMaps(rows) <= UnexpandedMaps(rows0);
    assert rows[id].mapRef.Some? ==> id in UnexpandedMaps(rows0) && id !in UnexpandedMaps(rows');
  }

  lemma ExpandResolvesOne(f: Flow, st: State, id: string, deps: Value)
    requires id in st.rows && st.rows[id].stepId == id && st.rows[id].status.Pending? && st.rows[id].mapRef.Some?
    ensures ResolvesOne(st.rows, Expand(f, st, id, deps).rows, id)
  {
    match MapItems(f, st.rows[id], deps) {
      case None =>
      case Some(items) =>
        if 0 < |items| <= MAX_MAP_FANOUT {
          ExpandShape(st, id, items);
          ExpandsResolvesOne(st.rows, ExpandMapStep(st, id, items).rows, id, items);
        }
    }
  }

  lemma ExpandsResolvesOne(rows: Ledger, rows': Ledger, id: string, items: seq<Value>)
    requires Expands(rows, rows', id, items) && rows[id].status.Pending? && rows[id].mapRef.Some?
    ensures ResolvesOne(rows, rows', id)
  {
  }

  /** A row of the ledger a pass read that the pass has not come to. */
  ghost predicate Unresolved(rows0: Ledger, rows: Ledger, s: FlowStep) {
    s.stepId in rows0 && rows0[s.stepId] == s && s.stepId in rows && rows[s.stepId] == s
  }

  lemma TasksStay(f: Flow, rows0: Ledger, rows: Ledger, tasks: seq<Task>, id: string)
    requires TasksReady(f, rows0, tasks) && Keeps(rows0, rows)
    requires forall k :: k in rows0 && k != id ==> rows[k] == rows0[k]
    requires forall k :: 0 <= k < |tasks| ==> tasks[k].step.stepId != id
    ensures TasksReady(f, rows, tasks)
  {
    forall k | 0 <= k < |tasks| ensures TaskReady(f, rows, tasks[k]) {
      assert TaskReady(f, rows0, tasks[k]);
      TaskStays(f, rows0, rows, tasks[k]);
    }
  }

  datatype Resolution = NotReady | Resolved | Queued(task: Task)

  /** Part-way through resolving the pending rows of `rows0`, with `tasks` queued. */
  ghost predicate Resolving(f: Flow, rows0: Ledger, rows: Ledger, tasks: seq<Task>) {
    NoneRunning(rows) && Resolves(rows0, rows) && TasksReady(f, rows, tasks)
  }

  lemma ResolvedOne(f: Flow, rows0: Ledger, rows: Ledger, rows': Ledger, id: string, tasks: seq<Task>)
    requires Resolving(f, rows0, rows, tasks) && ResolvesOne(rows, rows', id)
    requires id in rows0 && rows[id] == rows0[id] && NotATask(tasks, id)
    ensures Resolving(f, rows0, rows', tasks)
  {
    ResolveMore(rows0, rows, rows', id);
    TasksStay(f, rows, rows', tasks, id);
  }

  lemma QueueTask(f: Flow, rows0: Ledger, rows: Ledger, tasks: seq<Task>, t: Task)
    requires Resolving(f, rows0, rows, tasks) && TaskReady(f, rows, t) && NotATask(tasks, t.step.stepId)
    ensures Resolving(f, rows0, rows, tasks + [t])
  {
    forall k | 0 <= k < |tasks + [t]| ensures TaskReady(f, rows, (tasks + [t])[k]) {
      if k < |tasks| { assert TaskReady(f, rows, tasks[k]); }
    }
  }

  lemma ExpandingIsAStep(f: Flow, st: State, id: string)
    requires Startable(f, st.rows, id) && st.rows[id].mapRef.Some?
    ensures Next(f, st, Expanding(id), Expand(f, st, id, BuildDeps(st.rows[id].dependsOn, Outputs(st.rows))))
  {
  }

  lemma LaunchingIsAStep(f: Flow, st: State, id: string)
    requires Startable(f, st.rows, id) && st.rows[id].mapRef.None?
    ensures Next(f, st, Launching(id), Launch(f, st, id))
  {
  }

  lemma FinishingIsAStep(f: Flow, st: State, t: Task, o: Outcome)
    requires t.step.stepId in st.rows && st.rows[t.step.stepId] == t.step.(status := Running)
    requires f.w.script(t.step.scriptId).Runnable?
    requires InputOf(f, st.rows, st.rows[t.step.stepId]) == StepInput(f.input, t.deps, t.step.input)
    requires o == FirstSuccess(f.w, t.step.scriptId, StepInput(f.input, t.deps, t.step.input), 1, AttemptBudget(t.step.retries))
    ensures Next(f, st, Finishing(t.step.stepId), Settle(st, t.step.stepId, o))
  {
    var r := st.rows[t.step.stepId];
    assert RunOutcome(f.w, r.scriptId, InputOf(f, st.rows, r), r.retries) == o;
  }

  /** The task numbers 0, ..., n-1. */
  function Below(n: nat): (ks: set<nat>)
    ensures forall k: nat :: k in ks <==> k < n
  {
    if n == 0 then {} else Below(n - 1) + {n - 1}
  }

  /** The rows from place `i` on have not been come to. */
  ghost predicate Ahead(rows0: Ledger, rows: Ledger, steps: seq<FlowStep>, i: nat, tasks: seq<Task>) {
    DistinctIds(steps) && forall j :: i <= j < |steps| ==> Unresolved(rows0, rows, steps[j]) && NotATask(tasks, steps[j].stepId)
  }

  /** Every pending row that was ready has been settled, expanded or queued. */
  ghost predicate AllHandled(rows0: Ledger, rows: Ledger, steps: seq<FlowStep>, tasks: seq<Task>) {
    forall s {:trigger Handled(rows0, rows, s, tasks)} :: s in steps ==> Handled(rows0, rows, s, tasks)
  }

  ghost predicate Handled(rows0: Ledger, rows: Ledger, s: FlowStep, tasks: seq<Task>) {
    s.status.Pending? && Ready(rows0, s) ==> (s.stepId in rows && rows[s.stepId] != s) || !NotATask(tasks, s.stepId)
  }

  lemma HandledSoFar(rows0: Ledger, rows: Ledger, steps: seq<FlowStep>, i: nat, tasks: seq<Task>)
    requires i < |steps| && AllHandled(rows0, rows, steps[..i], tasks) && Handled(rows0, rows, steps[i], tasks)
    ensures AllHandled(rows0, rows, steps[..i + 1], tasks)
  {
    assert steps[..i + 1] == steps[..i] + [steps[i]];
  }

  lemma HandledAfter(rows0: Ledger, rows: Ledger, rows': Ledger, steps: seq<FlowStep>, i: nat, tasks: seq<Task>, r: Resolution)
    requires i < |steps| && DistinctIds(steps) && AllHandled(rows0, rows, steps[..i], tasks)
    requires forall k :: k in rows && k != steps[i].stepId ==> k in rows' && rows'[k] == rows[k]
    requires r.NotReady? ==> !Ready(rows0, steps[i])
    requires r.Resolved? ==> steps[i].stepId in rows' && rows'[steps[i].stepId] != steps[i]
    requires r.Queued? ==> r.task.step == steps[i]
    ensures AllHandled(rows0, rows', steps[..i + 1], if r.Queued? then tasks + [r.task] else tasks)
  {
    var tasks' := if r.Queued? then tasks + [r.task] else tasks;
    if r.Queued? { assert tasks'[|tasks|].step == steps[i]; }
    forall s | s in steps[..i] ensures Handled(rows0, rows', s, tasks') {
      assert Handled(rows0, rows, s, tasks) && s.stepId != steps[i].stepId;
      StillATask(tasks, tasks', s.stepId);
    }
    HandledSoFar(rows0, rows', steps, i, tasks');
  }

  lemma StillATask(tasks: seq<Task>, tasks': seq<Task>, id: string)
    requires tasks <= tasks'
    ensures NotATask(tasks', id) ==> NotATask(tasks, id)
  {
    assert forall k :: 0 <= k < |tasks| ==> tasks'[k] == tasks[k];
  }

  /** Of the first `n` rows read, every expanded parent whose children are done has been settled. */
  ghost predicate AllSettled(rows: Ledger, steps: seq<FlowStep>, n: nat) {
    forall j :: 0 <= j < n && j < |steps| && steps[j].status.Expanded? ==>
      AggregateChildren(steps, steps[j].stepId).None?
      || (steps[j].stepId in rows && Terminal(rows[steps[j].stepId].status))
  }

  /** A pass that changed and queued nothing found nothing to do. */
  lemma NothingFound(rows: Ledger, steps: seq<FlowStep>)
    requires Enumerates(steps, rows) && AllSettled(rows, steps, |steps|) && AllHandled(rows, rows, steps, [])
    ensures !exists s :: s in steps && ((s.status.Expanded? && AggregateChildren(steps, s.stepId).Some?)
                                        || (s.status.Pending? && Ready(rows, s)))
  {
    forall s | s in steps
      ensures !(s.status.Expanded? && AggregateChildren(steps, s.stepId).Some?) && !(s.status.Pending? && Ready(rows, s))
    {
      assert Handled(rows, rows, s, []) && rows[s.stepId] == s;
      var j :| 0 <= j < |steps| && steps[j] == s;
    }
  }

  lemma SettledSoFar(rows: Ledger, steps: seq<FlowStep>, i: nat)
    requires i < |steps| && AllSettled(rows, steps, i)
    ensures !steps[i].status.Expanded? || AggregateChildren(steps, steps[i].stepId).None? ==> AllSettled(rows, steps, i + 1)
  {
  }

  lemma SettledStay(rows: Ledger, rows': Ledger, steps: seq<FlowStep>, i: nat)
    requires i < |steps| && AllSettled(rows, steps, i)
    requires forall k :: k in rows && k != steps[i].stepId ==> k in rows' && rows'[k] == rows[k]
    requires steps[i].stepId in rows' && Terminal(rows'[steps[i].stepId].status)
    ensures AllSettled(rows', steps, i + 1)
  {
  }

  lemma NextAhead(rows0: Ledger, rows: Ledger, steps: seq<FlowStep>, i: nat, tasks: seq<Task>)
    requires Ahead(rows0, rows, steps, i, tasks) && i < |steps|
    ensures Unresolved(rows0, rows, steps[i]) && NotATask(tasks, steps[i].stepId) && Ahead(rows0, rows, steps, i + 1, tasks)
  {
  }

  lemma AheadAfter(rows0: Ledger, rows: Ledger, rows': Ledger, steps: seq<FlowStep>, i: nat, tasks: seq<Task>, r: Resolution)
    requires Ahead(rows0, rows, steps, i, tasks) && i < |steps|
    requires forall k :: k in rows && k != steps[i].stepId ==> k in rows' && rows'[k] == rows[k]
    ensures Ahead(rows0, rows', steps, i + 1, tasks)
    ensures r.Queued? && r.task.step == steps[i] ==> Ahead(rows0, rows', steps, i + 1, tasks + [r.task])
  {
  }

  // ---- a batch of tasks in flight ------------------------------------------------------------------

  ghost predicate TaskState(f: Flow, rows0: Ledger, rows: Ledger, t: Task, waits: bool, runs: bool) {
    var id := t.step.stepId;
    && id in rows && id in rows0
    && if waits then rows[id] == rows0[id]
       else if runs then rows[id] == rows0[id].(status := Running) && f.w.script(t.step.scriptId).Runnable?
       else Terminal(rows[id].status)
  }

  /** Each task of the batch waits, runs or is done; no other row has changed. */
  ghost predicate InBatch(f: Flow, rows0: Ledger, rows: Ledger, tasks: seq<Task>, waiting: set<nat>, running: set<nat>) {
    && NoneRunning(rows0) && TasksReady(f, rows0, tasks) && rows.Keys == rows0.Keys
    && (forall k {:trigger tasks[k]} :: 0 <= k < |tasks| ==> TaskState(f, rows0, rows, tasks[k], k in waiting, k in running))
    && (forall id :: id in rows0 && NotATask(tasks, id) ==> rows[id] == rows0[id])
  }

  ghost predicate NotATask(tasks: seq<Task>, id: string) {
    forall k :: 0 <= k < |tasks| ==> tasks[k].step.stepId != id
  }

  lemma BatchBegins(f: Flow, rows: Ledger, tasks: seq<Task>, waiting: set<nat>)
    requires NoneRunning(rows) && TasksReady(f, rows, tasks) && forall k: nat :: k < |tasks| ==> k in waiting
    ensures InBatch(f, rows, rows, tasks, waiting, {})
  {
    forall k {:trigger tasks[k]} | 0 <= k < |tasks| ensures TaskState(f, rows, rows, tasks[k], k in waiting, false) {
      assert TaskReady(f, rows, tasks[k]);
    }
  }

  lemma BatchEnds(f: Flow, rows0: Ledger, rows: Ledger, tasks: seq<Task>)
    requires InBatch(f, rows0, rows, tasks, {}, {})
    ensures TasksRun(rows0, rows, tasks) && NoneRunning(rows)
  {
    forall k | 0 <= k < |tasks| ensures tasks[k].step.stepId in rows && Terminal(rows[tasks[k].step.stepId].status) {
      assert TaskState(f, rows0, rows, tasks[k], false, false);
    }
    forall id | id in rows ensures !rows[id].status.Running? {
      if NotATask(tasks, id) { assert rows[id] == rows0[id]; }
    }
  }

  lemma BatchKeeps(f: Flow, rows0: Ledger, rows: Ledger, tasks: seq<Task>, waiting: set<nat>, running: set<nat>)
    requires InBatch(f, rows0, rows, tasks, waiting, running)
    ensures Keeps(rows0, rows)
  {
    forall id | id in rows0 && Terminal(rows0[id].status) ensures NotATask(tasks, id) {
      forall k | 0 <= k < |tasks| ensures tasks[k].step.stepId != id {
        assert TaskReady(f, rows0, tasks[k]);
      }
    }
  }

  lemma WaitingTask(f: Flow, rows0: Ledger, rows: Ledger, tasks: seq<Task>, waiting: set<nat>, running: set<nat>, k: nat)
    requires InBatch(f, rows0, rows, tasks, waiting, running) && k < |tasks| && k in waiting
    ensures TaskReady(f, rows, tasks[k])
  {
    BatchKeeps(f, rows0, rows, tasks, waiting, running);
    assert TaskReady(f, rows0, tasks[k]) && TaskState(f, rows0, rows, tasks[k], true, k in running);
    TaskStays(f, rows0, rows, tasks[k]);
  }

  lemma RunningTask(f: Flow, rows0: Ledger, rows: Ledger, tasks: seq<Task>, waiting: set<nat>, running: set<nat>, k: nat)
    requires InBatch(f, rows0, rows, tasks, waiting, running) && k < |tasks| && k in running && k !in waiting
    ensures var t := tasks[k]; var id := t.step.stepId;
            && id in rows && rows[id] == t.step.(status := Running) && f.w.script(t.step.scriptId).Runnable?
            && InputOf(f, rows, rows[id]) == StepInput(f.input, t.deps, t.step.input)
  {
    BatchKeeps(f, rows0, rows, tasks, waiting, running);
    assert TaskReady(f, rows0, tasks[k]) && TaskState(f, rows0, rows, tasks[k], false, true);
    ReadyStays(f, rows0, rows, tasks[k].step);
  }

  lemma BatchMoves(f: Flow, rows0: Ledger, rows: Ledger, rows': Ledger, tasks: seq<Task>, waiting: set<nat>,
                   running: set<nat>, k: nat, waiting': set<nat>, running': set<nat>)
    requires InBatch(f, rows0, rows, tasks, waiting, running) && k < |tasks|
    requires rows'.Keys == rows.Keys && forall id :: id in rows && id != tasks[k].step.stepId ==> rows'[id] == rows[id]
    requires forall j :: j != k ==> (j in waiting' <==> j in waiting) && (j in running' <==> j in running)
    requires TaskState(f, rows0, rows', tasks[k], k in waiting', k in running')
    ensures InBatch(f, rows0, rows', tasks, waiting', running')
  {
    forall j {:trigger tasks[j]} | 0 <= j < |tasks|
      ensures TaskState(f, rows0, rows', tasks[j], j in waiting', j in running')
    {
      assert TaskState(f, rows0, rows, tasks[j], j in waiting, j in running);
      assert j < k ==> tasks[j].step.stepId != tasks[k].step.stepId;
      assert k < j ==> tasks[k].step.stepId != tasks[j].step.stepId;
    }
  }

  // ---- the driver -----------------------------------------------------------------------------

  class Driver {
    const f: Flow
    var rows: Ledger
    var now: nat
    var status: RunStatus
    var rollbacks: seq<Rollback> // the compensation runs, in the order they were started

    /** Take up a flow run: from its first ledger, or from whatever ledger an earlier driver left. */
    constructor (f: Flow, st: State)
      ensures this.f == f && St() == st && status == Driving && rollbacks == []
    {
      this.f := f;
      rows, now := st.rows, st.now;
      status, rollbacks := Driving, [];
    }

    function St(): State
      reads this
    {
      State(rows, now)
    }

    ghost predicate Valid()
      reads this
    {
      ValidFlow(f) && Reachable(f, St())
    }

    lemma Stepped(st: State, e: Event, st': State)
      requires ValidFlow(f) && Reachable(f, st) && Next(f, st, e, st') && St() == st'
      ensures Valid()
    {
      ReachableStep(f, st, e, st');
    }

    /** `flow_steps`: all rows, in some order. */
    method ReadSteps() returns (steps: seq<FlowStep>)
      requires Valid()
      ensures Enumerates(steps, rows)
    {
      ReachableIsStamped(f, St());
      steps := [];
      var rest := rows.Keys;
      while rest != {}
        invariant rest <= rows.Keys
        invariant DistinctIds(steps)
        invariant forall s :: s in steps ==> s.stepId in rows && s.stepId !in rest && rows[s.stepId] == s
        invariant forall id :: id in rows && id !in rest ==> rows[id] in steps
        decreases rest
      {
        var id :| id in rest;
        rest := rest - {id};
        ghost var before := steps;
        steps := steps + [rows[id]];
        assert forall i :: 0 <= i < |before| ==> before[i] in before;
      }
    }

    /** Part 1 of a pass: settle the map parents whose children have all finished. */
    method AggregateExpanded(steps: seq<FlowStep>) returns (progressed: bool)
      requires Valid() && Enumerates(steps, rows)
      modifies this`rows, this`now
      ensures Valid() && ParentsSettled(old(rows), rows)
      ensures progressed ==> Less(rows, old(rows))
      ensures !progressed ==> St() == old(St())
      ensures AllSettled(rows, steps, |steps|)
    {
      ghost var rows0 := rows;
      ghost var m := PlanForRun();
      progressed := false;
      ghost var settled := "";
      for i := 0 to |steps|
        invariant Planned(m) && ParentsSettled(rows0, rows)
        invariant forall j :: i <= j < |steps| ==> steps[j].stepId in rows && rows[steps[j].stepId] == steps[j]
        invariant !progressed ==> St() == old(St())
        invariant progressed ==> settled in rows0 && rows0[settled].status.Expanded? && Terminal(rows[settled].status)
        invariant AllSettled(rows, steps, i)
      {
        var parent := steps[i];
        SettledSoFar(rows, steps, i);
        if parent.status.Expanded? {
          match AggregateChildren(steps, parent.stepId) {
            case None =>
            case Some(agg) =>
              assert parent in steps;
              ghost var before := rows;
              SettleParent(steps, rows0, m, parent.stepId, agg);
              SettledStay(before, rows, steps, i);
              progressed, settled := true, parent.stepId;
          }
        }
      }
      if progressed { SettlingIsLess(rows0, rows, settled); }
    }

    /** `finish_step` */
    method RecordFinish(id: string, finalStatus: Status, output: Option<string>)
      requires id in rows
      modifies this`rows, this`now
      ensures St() == FinishStep(old(St()), id, finalStatus, output)
    {
      rows := rows[id := rows[id].(status := finalStatus, output := output, finishedAt := Some(now))];
      now := now + 1;
    }

    /** `finish_step` on a map parent, by what the rows read at the start of the pass say. */
    method SettleParent(steps: seq<FlowStep>, ghost rows0: Ledger, ghost m: Plan, id: string, agg: Agg)
      requires Planned(m) && Sound(f.init, m, rows0) && Enumerates(steps, rows0) && ParentsSettled(rows0, rows)
      requires id in rows0 && rows[id] == rows0[id] && rows[id].status.Expanded?
      requires AggregateChildren(steps, id) == Some(agg)
      modifies this`rows, this`now
      ensures Planned(m) && ParentsSettled(rows0, rows) && Terminal(rows[id].status)
      ensures forall k :: k in old(rows) && k != id ==> rows[k] == old(rows)[k]
    {
      ghost var st := St();
      SettlingIsAStep(f, m, rows0, st, steps, id, agg);
      SettlesOneParent(rows0, st, id, agg);
      match agg {
        case AggFailed => RecordFinish(id, Failed, Some("map_child_failed"));
        case AggSucceeded(output) => RecordFinish(id, Succeeded, Some(output));
      }
      Stepped(st, Aggregating(id), SettleAgg(st, id, agg));
      KeepsPlan(m);
    }

    ghost predicate Planned(m: Plan)
      reads this
    {
      Valid() && (exists v :: PlanOf(f, v, m)) && Sound(f.init, m, rows)
    }

    /** What the flow means, for the steps of this run. */
    ghost method PlanForRun() returns (m: Plan)
      requires Valid()
      ensures Planned(m)
    {
      var order :| TopoOrder(GraphOf(f.init), order);
      MeaningExists(f, order);
      var v := Evaluate(f, order);
      m := PlanExists(f, v);
      ReachableIsSound(f, v, m, St());
    }

    lemma KeepsPlan(m: Plan)
      requires Valid() && exists v :: PlanOf(f, v, m)
      ensures Planned(m)
    {
      var v :| PlanOf(f, v, m);
      ReachableIsSound(f, v, m, St());
    }

    /** Part 2 of a pass: skip dead branches and closed gates, expand maps, and queue the rest. */
    method ResolvePending(steps: seq<FlowStep>) returns (progressed: bool, toRun: seq<Task>)
      requires Valid() && Enumerates(steps, rows) && NoneRunning(rows)
      modifies this`rows, this`now
      ensures Valid() && NoneRunning(rows) && TasksReady(f, rows, toRun)
      ensures !progressed ==> St() == old(St())
      ensures progressed ==> Less(rows, old(rows))
      ensures AllHandled(old(rows), rows, steps, toRun)
    {
      ghost var rows0 := rows;
      var outputs, skipped := OutputsOf(steps), SkippedOf(steps);
      OutputsAsRead(steps, rows);
      progressed, toRun := false, [];
      ghost var resolved := "";
      for i := 0 to |steps|
        invariant Valid()
        invariant Resolving(f, rows0, rows, toRun)
        invariant Ahead(rows0, rows, steps, i, toRun)
        invariant !progressed ==> St() == old(St())
        invariant progressed ==> resolved in rows0 && rows[resolved] != rows0[resolved]
        invariant AllHandled(rows0, rows, steps[..i], toRun)
      {
        var step := steps[i];
        NextAhead(rows0, rows, steps, i, toRun);
        if step.status.Pending? {
          ghost var before := rows;
          var r := ResolveStep(step, outputs, skipped, rows0, toRun);
          AheadAfter(rows0, before, rows, steps, i, toRun, r);
          HandledAfter(rows0, before, rows, steps, i, toRun, r);
          match r {
            case NotReady =>
            case Resolved => progressed, resolved := true, step.stepId;
            case Queued(task) => toRun := toRun + [task];
          }
        } else {
          HandledSoFar(rows0, rows, steps, i, toRun);
        }
      }
      assert steps[..|steps|] == steps;
      if progressed { ResolvingIsLess(rows0, rows, resolved); }
    }

    /** One pending step of the pass. */
    method ResolveStep(step: FlowStep, outputs: map<string, string>, skipped: set<string>,
                       ghost rows0: Ledger, ghost tasks: seq<Task>) returns (r: Resolution)
      requires Valid() && Resolving(f, rows0, rows, tasks) && Unresolved(rows0, rows, step) && step.status.Pending?
      requires outputs == Outputs(rows0) && forall d :: d in skipped <==> DepIs(rows0, d, Skipped)
      requires NotATask(tasks, step.stepId)
      modifies this`rows, this`now
      ensures Valid() && !r.Queued? ==> Resolving(f, rows0, rows, tasks)
      ensures r.NotReady? ==> St() == old(St()) && !Ready(rows0, step)
      ensures r.Resolved? ==> step.stepId in rows && rows[step.stepId] != rows0[step.stepId]
      ensures r.Queued? ==> St() == old(St()) && r.task.step == step && Resolving(f, rows0, rows, tasks + [r.task])
      ensures forall k :: k in old(rows) && k != step.stepId ==> k in rows && rows[k] == old(rows)[k]
      ensures Valid()
    {
      var id := step.stepId;
      if !forall d :: d in step.dependsOn ==> d in outputs || d in skipped {
        return NotReady;
      }
      assert Ready(rows0, step);
      ReadyStays(f, rows0, rows, step);
      var deps := BuildDeps(step.dependsOn, outputs);
      if exists d :: d in step.dependsOn && d in skipped {
        SkipRow(id, rows0, tasks);
        return Resolved;
      }
      if step.whenCond.Some? && !EvalWhen(f.w, step.whenCond.value, f.input, deps) {
        SkipRow(id, rows0, tasks);
        return Resolved;
      }
      if step.mapRef.Some? {
        ExpandRow(id, deps, rows0, tasks);
        return Resolved;
      }
      QueueTask(f, rows0, rows, tasks, Task(step, deps));
      return Queued(Task(step, deps));
    }

    /** `mark_step_skipped` on a step that is to be skipped. */
    method SkipRow(id: string, ghost rows0: Ledger, ghost tasks: seq<Task>)
      requires Valid() && Resolving(f, rows0, rows, tasks)
      requires id in rows0 && id in rows && rows[id] == rows0[id] && rows[id].status.Pending?
      requires Ready(rows, rows[id]) && ShouldSkip(f, rows, rows[id]) && NotATask(tasks, id)
      modifies this`rows, this`now
      ensures Valid() && Resolving(f, rows0, rows, tasks)
      ensures id in rows && rows[id] != rows0[id]
      ensures forall k :: k in old(rows) && k != id ==> k in rows && rows[k] == old(rows)[k]
    {
      ghost var st := St();
      rows := rows[id := rows[id].(status := Skipped, finishedAt := Some(now))];
      now := now + 1;
      Stepped(st, Skipping(id), MarkStepSkipped(st, id));
      ResolvedOne(f, rows0, st.rows, rows, id, tasks);
    }

    /** `expand` */
    method ExpandRow(id: string, deps: Value, ghost rows0: Ledger, ghost tasks: seq<Task>)
      requires Valid() && Resolving(f, rows0, rows, tasks)
      requires id in rows0 && id in rows && rows[id] == rows0[id] && rows[id].stepId == id && rows[id].mapRef.Some?
      requires Startable(f, rows, id) && deps == BuildDeps(rows[id].dependsOn, Outputs(rows)) && NotATask(tasks, id)
      modifies this`rows, this`now
      ensures Valid() && Resolving(f, rows0, rows, tasks)
      ensures id in rows && rows[id] != rows0[id]
      ensures forall k :: k in old(rows) && k != id ==> k in rows && rows[k] == old(rows)[k]
    {
      ghost var st := St();
      ExpandResolvesOne(f, st, id, deps);
      ExpandingIsAStep(f, st, id);
      WriteExpansion(id, deps);
      Stepped(st, Expanding(id), Expand(f, st, id, deps));
      ResolvedOne(f, rows0, st.rows, rows, id, tasks);
    }

    method WriteExpansion(id: string, deps: Value)
      requires id in rows && rows[id].mapRef.Some?
      modifies this`rows, this`now
      ensures St() == Expand(f, old(St()), id, deps)
    {
      match ResolveRef(f.w, rows[id].mapRef.value, f.input, deps) {
        case Some(Arr(items)) =>
          if items == [] {
            RecordFinish(id, Succeeded, Some("[]"));
          } else if |items| > MAX_MAP_FANOUT {
            RecordFinish(id, Failed, Some("map_fanout_too_large"));
          } else {
            InsertChildren(id, items);
          }
        case _ =>
          RecordFinish(id, Failed, Some("map_ref_not_array"));
      }
    }

    /** `expand_map_step`: insert the missing children, mark the parent, commit. */
    method InsertChildren(id: string, items: seq<Value>)
      requires id in rows
      modifies this`rows
      ensures St() == ExpandMapStep(old(St()), id, items)
    {
      var children := ChildRows(rows[id], items);
      var tx := rows;
      for i := 0 to |children|
        invariant tx == InsertRows(rows, children[..i])
      {
        var c := children[i];
        assert children[..i + 1][..i] == children[..i];
        if c.stepId !in tx { tx := tx[c.stepId := c]; }
      }
      assert children[..|children|] == children;
      InsertRowsEffect(rows, children);
      rows := tx[id := tx[id].(status := Expanded)];
    }

    /** The attempts of `run_step`: at most the budget, until one succeeds. */
    method RunAttempts(step: FlowStep, deps: Value) returns (o: Outcome)
      ensures o == FirstSuccess(f.w, step.scriptId, StepInput(f.input, deps, step.input), 1, AttemptBudget(step.retries))
    {
      var input, budget := StepInput(f.input, deps, step.input), AttemptBudget(step.retries);
      var n: int := 1;
      while n <= budget
        invariant 1 <= n
        invariant FirstSuccess(f.w, step.scriptId, input, 1, budget) == FirstSuccess(f.w, step.scriptId, input, n, budget)
      {
        match f.w.attempt(step.scriptId, input, n) {
          case Ran(output) => return Done(output);
          case NotSucceeded =>
        }
        n := n + 1;
      }
      return Fail("exhausted retries");
    }

    /** Part 3 of a pass: run the queued steps side by side and wait for all of them. Which task moves
        next is arbitrary. */
    method RunBatch(tasks: seq<Task>)
      requires Valid() && NoneRunning(rows) && TasksReady(f, rows, tasks) && tasks != []
      modifies this`rows, this`now
      ensures Valid() && NoneRunning(rows) && TasksRun(old(rows), rows, tasks) && Less(rows, old(rows))
    {
      ghost var rows0 := rows;
      var waiting, running := Below(|tasks|), {};
      BatchBegins(f, rows, tasks, waiting);
      while waiting + running != {}
        invariant Valid() && waiting !! running && waiting + running <= Below(|tasks|)
        invariant InBatch(f, rows0, rows, tasks, waiting, running)
        decreases 2 * |waiting| + |running|
      {
        var k :| k in waiting + running;
        waiting, running := AdvanceTask(tasks, k, rows0, waiting, running);
      }
      BatchEnds(f, rows0, rows, tasks);
      RunningIsLess(f, rows0, rows, tasks);
    }

    /** The next write of the batch: task `k` begins or ends. */
    method AdvanceTask(tasks: seq<Task>, k: nat, ghost rows0: Ledger, waiting: set<nat>, running: set<nat>)
      returns (waiting': set<nat>, running': set<nat>)
      requires Valid() && k < |tasks| && k in waiting + running && waiting !! running
      requires InBatch(f, rows0, rows, tasks, waiting, running)
      modifies this`rows, this`now
      ensures Valid() && InBatch(f, rows0, rows, tasks, waiting', running')
      ensures waiting' !! running' && waiting' + running' <= waiting + running
      ensures 2 * |waiting'| + |running'| < 2 * |waiting| + |running|
    {
      if k in waiting {
        var started := StartTask(tasks, k, rows0, waiting, running);
        return waiting - {k}, if started then running + {k} else running;
      } else {
        FinishTask(tasks, k, rows0, waiting, running);
        return waiting, running - {k};
      }
    }

    /** A task begins: a step that cannot run fails, any other is marked running. */
    method StartTask(tasks: seq<Task>, k: nat, ghost rows0: Ledger, ghost waiting: set<nat>, ghost running: set<nat>)
      returns (started: bool)
      requires Valid() && k < |tasks| && k in waiting && waiting !! running
      requires InBatch(f, rows0, rows, tasks, waiting, running)
      modifies this`rows, this`now
      ensures Valid()
      ensures InBatch(f, rows0, rows, tasks, waiting - {k}, if started then running + {k} else running)
    {
      ghost var st := St();
      var id := tasks[k].step.stepId;
      WaitingTask(f, rows0, rows, tasks, waiting, running, k);
      LaunchingIsAStep(f, st, id);
      started := WriteLaunch(id);
      Stepped(st, Launching(id), Launch(f, st, id));
      BatchMoves(f, rows0, st.rows, rows, tasks, waiting, running, k, waiting - {k}, if started then running + {k} else running);
    }

    method WriteLaunch(id: string) returns (started: bool)
      requires id in rows
      modifies this`rows, this`now
      ensures St() == Launch(f, old(St()), id)
      ensures rows.Keys == old(rows).Keys && forall k :: k in rows && k != id ==> rows[k] == old(rows)[k]
      ensures started ==> rows[id] == old(rows)[id].(status := Running) && f.w.script(rows[id].scriptId).Runnable?
      ensures !started ==> Terminal(rows[id].status)
    {
      started := false;
      match f.w.script(rows[id].scriptId) {
        case Missing => RecordFinish(id, Failed, Some("script_not_found"));
        case UnknownRuntime => RecordFinish(id, Failed, Some("unknown_runtime"));
        case Runnable =>
          if AttemptBudget(rows[id].retries) == 0 {
            RecordFinish(id, Failed, Some("exhausted retries"));
          } else {
            rows := rows[id := rows[id].(status := Running)];
            started := true;
          }
      }
    }

    /** A running task ends. */
    method FinishTask(tasks: seq<Task>, k: nat, ghost rows0: Ledger, ghost waiting: set<nat>, ghost running: set<nat>)
      requires Valid() && k < |tasks| && k in running && waiting !! running
      requires InBatch(f, rows0, rows, tasks, waiting, running)
      modifies this`rows, this`now
      ensures Valid()
      ensures InBatch(f, rows0, rows, tasks, waiting, running - {k})
    {
      ghost var st := St();
      var id := tasks[k].step.stepId;
      RunningTask(f, rows0, rows, tasks, waiting, running, k);
      var o := RunAttempts(tasks[k].step, tasks[k].deps);
      FinishingIsAStep(f, st, tasks[k], o);
      WriteOutcome(id, o);
      Stepped(st, Finishing(id), Settle(st, id, o));
      BatchMoves(f, rows0, st.rows, rows, tasks, waiting, running, k, waiting, running - {k});
    }

    method WriteOutcome(id: string, o: Outcome)
      requires id in rows
      modifies this`rows, this`now
      ensures St() == Settle(old(St()), id, o)
      ensures rows.Keys == old(rows).Keys && forall k :: k in rows && k != id ==> rows[k] == old(rows)[k]
      ensures Terminal(rows[id].status)
    {
      match o {
        case Done(output) => RecordFinish(id, Succeeded, output);
        case Fail(reason) => RecordFinish(id, Failed, Some(reason));
      }
    }

    /** `compensate`: best-effort rollback. Returns how many compensations did not succeed. */
    method Compensate(steps: seq<FlowStep>) returns (failed: nat)
      requires Stamped(St()) && Enumerates(steps, rows) && rollbacks == []
      modifies this`rows, this`rollbacks
      ensures RolledBack(f, old(rows), rollbacks, rows)
      ensures failed == |Failures(rollbacks)|
      ensures failed > 0 <==> exists k :: 0 <= k < |rollbacks| && !rollbacks[k].ok
    {
      ghost var before := rows;
      var plan := LatestFirst(ToCompensate(steps));
      RollbackBegins(f, steps, St());
      failed := 0;
      for i := 0 to |plan|
        invariant RollingBack(f, before, plan, i, rollbacks, rows)
        invariant failed == FailedRollbacks(rollbacks)
      {
        var ok := RollBackStep(plan, i, before);
        if !ok { failed := failed + 1; }
      }
      RollbackComplete(f, before, plan, rollbacks, rows, steps);
      FailedRollbacksCount(rollbacks);
    }

    /** One step of the rollback plan. A script that is missing or has an unknown runtime is passed over
        without counting as failed. */
    method RollBackStep(plan: seq<FlowStep>, i: nat, ghost before: Ledger) returns (ok: bool)
      requires i < |plan| && GoodPlan(before, plan) && RollingBack(f, before, plan, i, rollbacks, rows)
      modifies this`rows, this`rollbacks
      ensures RollingBack(f, before, plan, i + 1, rollbacks, rows)
      ensures FailedRollbacks(rollbacks) == FailedRollbacks(old(rollbacks)) + if ok then 0 else 1
    {
      var step := plan[i];
      assert step in plan;
      if !f.w.script(step.compensate.value).Runnable? {
        RollBackNone(f, before, plan, i, rollbacks, rows);
        return true;
      }
      ok := f.w.attempt(step.compensate.value, CompensationInput(f.input, step), 1).Ran?;
      RollBackOne(f, before, plan, i, rollbacks, rows, ok);
      FailedRollbacksAppend(rollbacks, Rollback(step.stepId, ok));
      rollbacks := rollbacks + [Rollback(step.stepId, ok)];
      rows := rows[step.stepId := rows[step.stepId].(compensated := true)];
    }

    /** How a drive ends, from the ledger `before` it read last: all steps succeeded or skipped, or one
        failed and the rollback ran. */
    ghost predicate Concluded(before: State)
      reads this
    {
      && status != Driving && Reachable(f, before) && NoneRunning(before.rows)
      && (status == FlowSucceeded ==> before == St() && Finished(rows) && rollbacks == [])
      && (status != FlowSucceeded ==> exists id :: id in before.rows && before.rows[id].status.Failed?)
      && (status != FlowSucceeded ==> RolledBack(f, before.rows, rollbacks, rows))
      && (status == CompensationFailed <==> exists k :: 0 <= k < |rollbacks| && !rollbacks[k].ok)
    }

    /** `drive_inner`: pass after pass until the flow is over. */
    method DriveInner() returns (ghost before: State)
      requires Valid() && NoneRunning(rows) && status == Driving && rollbacks == []
      modifies this
      ensures Concluded(before)
    {
      while true
        invariant Valid() && NoneRunning(rows) && status == Driving && rollbacks == []
        decreases |UnexpandedMaps(rows)|, |PendingRows(rows)|, |ExpandedRows(rows)|
      {
        before := St();
        var steps := ReadSteps();
        if exists s :: s in steps && s.status.Failed? {
          ReachableIsStamped(f, St());
          RollBack(steps);
          return;
        }
        if !exists s :: s in steps && Active(s.status) {
          Succeed(steps);
          return;
        }
        Pass(steps);
      }
    }

    /** A step has failed: roll back, and tell a clean rollback from a partial one. */
    method RollBack(steps: seq<FlowStep>)
      requires Reachable(f, St()) && Stamped(St()) && NoneRunning(rows) && Enumerates(steps, rows) && rollbacks == []
      requires exists s :: s in steps && s.status.Failed?
      modifies this
      ensures Concluded(old(St()))
    {
      ghost var before := St();
      FailedRow(steps, rows);
      var failed := Compensate(steps);
      Conclude(failed, before);
    }

    /** `finish_flow_run` after a rollback. */
    method Conclude(failed: nat, ghost before: State)
      requires Reachable(f, before) && NoneRunning(before.rows) && RolledBack(f, before.rows, rollbacks, rows)
      requires exists id :: id in before.rows && before.rows[id].status.Failed?
      requires failed > 0 <==> exists k :: 0 <= k < |rollbacks| && !rollbacks[k].ok
      modifies this`status
      ensures Concluded(before)
    {
      status := if failed > 0 then CompensationFailed else FlowFailed;
    }

    method Succeed(steps: seq<FlowStep>)
      requires Valid() && NoneRunning(rows) && Enumerates(steps, rows) && rollbacks == []
      requires !exists s :: s in steps && (s.status.Failed? || Active(s.status))
      modifies this`status
      ensures Concluded(St())
    {
      ReadAll(steps, rows);
      status := FlowSucceeded;
    }

    /** What a drive comes to, for any meaning `v` of the flow: it succeeds exactly when no step's verdict
        is a failure, and then every step carries the status and output of its verdict. */
    lemma EndIsMeaning(v: Verdicts, before: State)
      requires ValidFlow(f) && Meaning(f, v) && Concluded(before)
      ensures status == FlowSucceeded <==> forall id :: id in f.init ==> !v[id].Fails?
      ensures status == FlowSucceeded ==> forall id :: id in f.init ==>
                id in rows && v[id] == if rows[id].status.Skipped? then Skips else Yields(rows[id].output)
    {
      var m := PlanExists(f, v);
      ReachableIsSound(f, v, m, before);
      if status == FlowSucceeded {
        forall id | id in f.init
          ensures id in rows && v[id] == if rows[id].status.Skipped? then Skips else Yields(rows[id].output)
        {
          FinishedIsMeaning(f, v, m, rows, id);
        }
      } else {
        var id :| id in before.rows && before.rows[id].status.Failed?;
        FailureIsMeant(f, v, m, before.rows, id);
      }
    }

    /** The outputs of a step's dependencies, as its gate, its map and its container see them. */
    ghost predicate OutputsUnder(deps: Value, dependsOn: seq<string>)
      reads this
    {
      && deps.Obj? && (forall d :: d in deps.fields <==> d in dependsOn)
      && forall d :: d in dependsOn ==> d in rows && rows[d].status.Succeeded?
                                        && deps.fields[d] == Str(if rows[d].output.Some? then rows[d].output.value else "")
    }

    /** After a drive that succeeded, a step whose dependencies succeeded was skipped if and only if it has a gate that
        does not open on their outputs. */
    lemma EndObeysGates(v: Verdicts, before: State, id: string, deps: Value)
      requires ValidFlow(f) && Meaning(f, v) && Concluded(before) && status == FlowSucceeded
      requires id in f.init && OutputsUnder(deps, f.init[id].dependsOn)
      ensures id in rows
      ensures rows[id].status.Skipped?
         <==> f.init[id].whenCond.Some? && !GateOpens(f.w, f.init[id].whenCond.value, f.input, deps)
    {
      EndIsMeaning(v, before);
      forall d | d in f.init[id].dependsOn ensures d in v && v[d] == Yields(rows[d].output) {
        assert d in f.init;
      }
      GateDecides(f, v, id, deps);
    }

    /** A failed drive ends `failed` exactly when every compensation that could run succeeded: one that could not
        run makes no difference to the status, although its step stays as it is. */
    lemma PassedOverIsSilent(before: State)
      requires Concluded(before) && status != FlowSucceeded
      ensures status == FlowFailed
         <==> forall id :: Compensable(f, before.rows, id) ==> CompensationOk(f, before.rows[id])
      ensures (forall id :: id in before.rows && NeedsRollback(before.rows[id]) ==> rows[id].compensated)
         <==> AllCanRun(f, before.rows)
      ensures forall id :: id in before.rows && NeedsRollback(before.rows[id]) && !CompensationRuns(f, before.rows[id]) ==>
                rows[id] == before.rows[id]
    {
      LogIsCleanIff(f, before.rows, rollbacks, rows);
      RollbackReachesAllIff(f, before.rows, rollbacks, rows);
    }

    /** After a failed drive, a step was compensated before everything it transitively depends on. */
    lemma EndUnwinds(before: State, p: seq<string>, i: nat, j: nat)
      requires ValidFlow(f) && Concluded(before) && status != FlowSucceeded
      requires Walk(GraphOf(f.init), p) && |p| > 1
      requires i < |rollbacks| && j < |rollbacks| && rollbacks[i].stepId == p[0] && rollbacks[j].stepId == p[|p| - 1]
      ensures i < j
    {
      ReachableIsStamped(f, before);
      var order :| TopoOrder(GraphOf(f.init), order);
      MeaningExists(f, order);
      var m := PlanExists(f, Evaluate(f, order));
      ReachableIsSound(f, Evaluate(f, order), m, before);
      DependentsRollBackFirst(f, m, before, rollbacks, p, i, j);
    }

    /** The rest of a pass, once there is work left and nothing has failed: it always gets closer to the
        end. The source sleeps when there is nothing to do; it never gets there. */
    method Pass(steps: seq<FlowStep>)
      requires Valid() && NoneRunning(rows) && Enumerates(steps, rows)
      requires !exists s :: s in steps && s.status.Failed?
      requires exists s :: s in steps && Active(s.status)
      modifies this`rows, this`now
      ensures Valid() && NoneRunning(rows) && Less(rows, old(rows))
    {
      var progressed := AggregateExpanded(steps);
      if progressed { return; }
      var toRun;
      progressed, toRun := ResolvePending(steps);
      ghost var resolved := rows;
      if toRun != [] {
        RunBatch(toRun);
        if progressed { LessTransitive(rows, resolved, old(rows)); }
        return;
      }
      if progressed { return; }
      NothingFound(rows, steps);
      NeverIdle(steps);
      assert false;
    }

    /** A pass that reads an active row and no failed or running one finds something to do. */
    lemma NeverIdle(steps: seq<FlowStep>)
      requires Valid() && Enumerates(steps, rows) && NoneRunning(rows)
      requires !exists s :: s in steps && s.status.Failed?
      requires exists s :: s in steps && Active(s.status)
      ensures exists s :: s in steps && ((s.status.Expanded? && AggregateChildren(steps, s.stepId).Some?)
                                         || (s.status.Pending? && Ready(rows, s)))
    {
      var order :| TopoOrder(GraphOf(f.init), order);
      MeaningExists(f, order);
      var m := PlanExists(f, Evaluate(f, order));
      ReachableIsSound(f, Evaluate(f, order), m, St());
      ReadAll(steps, rows);
      var s :| s in steps && Active(s.status);
      Progress(f.init, m, rows, s.stepId);
      var id :| id in rows && Actionable(rows, id);
      assert rows[id] in steps;
    }
  }

  lemma FailedRow(steps: seq<FlowStep>, rows: Ledger)
    requires Enumerates(steps, rows) && exists s :: s in steps && s.status.Failed?
    ensures exists id :: id in rows && rows[id].status.Failed?
  {
    var s :| s in steps && s.status.Failed?;
    assert s.stepId in rows;
  }

  lemma ReadAll(steps: seq<FlowStep>, rows: Ledger)
    requires Enumerates(steps, rows)
    ensures forall id :: id in rows ==> rows[id] in steps && rows[id].stepId == id
  {
  }
}
