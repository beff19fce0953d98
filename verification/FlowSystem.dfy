/** The flow engine as a transition system over its ledger, and what a flow means: the one solution
    of the equations that give each step's verdict in terms of its dependencies' verdicts. */
module FlowSystem {
  import opened Wrappers
  import opened Decimal
  import opened Text
  import opened Json
  import opened JsonText
  import opened DepGraph
  import opened FlowLedger
  import opened FanOut

  /** One flow run: the outside world, the rows `insert_flow_run` created, and the flow input. */
  datatype Flow = Flow(w: World, init: Ledger, input: Value)

  ghost predicate Untouched(r: FlowStep) {
    r.status.Pending? && r.output.None? && r.finishedAt.None? && !r.compensated
  }

  function GraphOf(init: Ledger): Graph {
    map id | id in init :: init[id].dependsOn
  }

  /** What an accepted spec gives (see FlowSpec). */
  ghost predicate ValidFlow(f: Flow) {
    && (forall id :: id in f.init ==> NoHash(id) && f.init[id].stepId == id && Untouched(f.init[id]))
    && (forall id, d :: id in f.init && d in f.init[id].dependsOn ==> d in f.init)
    && exists order :: TopoOrder(GraphOf(f.init), order)
  }

  // ---- meaning -----------------------------------------------------------------------------

  /** `Blocked`: some dependency fails or is itself blocked, so the step never runs. */
  datatype Verdict = Skips | Yields(output: Option<string>) | Fails(reason: string) | Blocked

  type Verdicts = map<string, Verdict>

  function YieldedOutputs(v: Verdicts): map<string, string> {
    map id | id in v && v[id].Yields? :: v[id].output.GetOr("")
  }

  function DepsOf(v: Verdicts, def: FlowStep): Value {
    BuildDeps(def.dependsOn, YieldedOutputs(v))
  }

  predicate GatePasses(f: Flow, def: FlowStep, deps: Value) {
    def.whenCond.None? || EvalWhen(f.w, def.whenCond.value, f.input, deps)
  }

  function MapItems(f: Flow, def: FlowStep, deps: Value): Option<seq<Value>>
    requires def.mapRef.Some?
  {
    match ResolveRef(f.w, def.mapRef.value, f.input, deps)
    case Some(Arr(items)) => Some(items)
    case _ => None
  }

  function ChildOutcome(f: Flow, def: FlowStep, deps: Value, item: Value): Outcome {
    RunOutcome(f.w, def.scriptId, StepInput(f.input, deps, item), None)
  }

  function OutcomeSlot(o: Outcome): Value {
    if o.Done? && o.output.Some? then Str(o.output.value) else Null
  }

  function MapVerdict(f: Flow, def: FlowStep, deps: Value, items: seq<Value>): Verdict {
    if items == [] then Yields(Some("[]"))
    else if |items| > MAX_MAP_FANOUT then Fails("map_fanout_too_large")
    else if exists i :: 0 <= i < |items| && ChildOutcome(f, def, deps, items[i]).Fail? then Fails("map_child_failed")
    else Yields(Some(ToText(Arr(
      seq(|items|, i requires 0 <= i < |items| => OutcomeSlot(ChildOutcome(f, def, deps, items[i])))))))
  }

  function RunVerdict(f: Flow, def: FlowStep, deps: Value): Verdict {
    match RunOutcome(f.w, def.scriptId, StepInput(f.input, deps, def.input), def.retries)
    case Done(output) => Yields(output)
    case Fail(reason) => Fails(reason)
  }

  /** The verdict of a step, given the verdicts of the steps it depends on. */
  function StepVerdict(f: Flow, v: Verdicts, def: FlowStep): Verdict {
    if exists d :: d in def.dependsOn && (d !in v || v[d].Fails? || v[d].Blocked?) then Blocked
    else if exists d :: d in def.dependsOn && v[d].Skips? then Skips
    else
      var deps := DepsOf(v, def);
      if !GatePasses(f, def, deps) then Skips
      else if def.mapRef.Some? then
        match MapItems(f, def, deps)
        case None => Fails("map_ref_not_array")
        case Some(items) => MapVerdict(f, def, deps, items)
      else RunVerdict(f, def, deps)
  }

  /** `v` assigns every step the verdict its dependencies' verdicts call for. */
  ghost predicate Meaning(f: Flow, v: Verdicts) {
    v.Keys == f.init.Keys && forall id {:trigger MeansAt(f, v, id)} :: id in f.init ==> MeansAt(f, v, id)
  }

  ghost predicate MeansAt(f: Flow, v: Verdicts, id: string)
    requires id in f.init && id in v
  {
    v[id] == StepVerdict(f, v, f.init[id])
  }

  /** Evaluate the steps of a dependencies-first order, one after the other. */
  function Evaluate(f: Flow, order: seq<string>): Verdicts {
    if order == [] then map[]
    else
      var last := order[|order| - 1];
      var v := Evaluate(f, order[..|order| - 1]);
      if last in f.init then v[last := StepVerdict(f, v, f.init[last])] else v
  }

  /** A step's verdict only reads the verdicts of its dependencies. */
  lemma VerdictIsLocal(f: Flow, v: Verdicts, u: Verdicts, def: FlowStep)
    requires forall d :: d in def.dependsOn ==> (d in v <==> d in u) && (d in v ==> v[d] == u[d])
    ensures StepVerdict(f, v, def) == StepVerdict(f, u, def)
  {
    assert DepsOf(v, def) == DepsOf(u, def) by {
      assert forall d :: d in def.dependsOn ==>
        ((d in YieldedOutputs(v) <==> d in YieldedOutputs(u))
         && (d in YieldedOutputs(v) ==> YieldedOutputs(v)[d] == YieldedOutputs(u)[d]));
      assert (map d | d in def.dependsOn && d in YieldedOutputs(v) :: Str(YieldedOutputs(v)[d]))
          == (map d | d in def.dependsOn && d in YieldedOutputs(u) :: Str(YieldedOutputs(u)[d]));
    }
  }

  lemma {:induction false} EvaluatePrefix(f: Flow, order: seq<string>)
    requires Distinct(order) && DepsFirst(GraphOf(f.init), order)
    ensures forall id :: id in Evaluate(f, order) <==> id in order && id in f.init
    ensures forall id :: id in Evaluate(f, order) ==> Evaluate(f, order)[id] == StepVerdict(f, Evaluate(f, order), f.init[id])
  {
    if order != [] {
      var n := |order| - 1;
      var last, before := order[n], order[..n];
      var v := Evaluate(f, before);
      assert DepsFirst(GraphOf(f.init), before) by {
        forall i, d | 0 <= i < |before| && Edge(GraphOf(f.init), before[i], d) ensures d in before[..i] {
          assert before[i] == order[i] && before[..i] == order[..i];
        }
      }
      EvaluatePrefix(f, before);
      assert order == before + [last];
      var u := Evaluate(f, order);
      forall id | id in u ensures u[id] == StepVerdict(f, u, f.init[id]) {
        var i :| 0 <= i <= n && order[i] == id;
        forall d | d in f.init[id].dependsOn
          ensures (d in v <==> d in u) && (d in v ==> v[d] == u[d])
        {
          assert Edge(GraphOf(f.init), order[i], d);
          assert d in order[..i];
          var j :| 0 <= j < i && order[j] == d;
          assert d != last && before[j] == d;
        }
        VerdictIsLocal(f, v, u, f.init[id]);
      }
    }
  }

  /** A valid flow has a meaning: evaluate its steps dependencies first. */
  lemma MeaningExists(f: Flow, order: seq<string>)
    requires TopoOrder(GraphOf(f.init), order)
    ensures Meaning(f, Evaluate(f, order))
  {
    EvaluatePrefix(f, order);
    assert forall id :: id in f.init <==> id in GraphOf(f.init);
    assert Evaluate(f, order).Keys == f.init.Keys;
    forall id | id in f.init ensures MeansAt(f, Evaluate(f, order), id) {
    }
  }

  lemma VerdictsAgreeAt(f: Flow, order: seq<string>, v: Verdicts, u: Verdicts, n: nat)
    requires DepsFirst(GraphOf(f.init), order) && v.Keys == u.Keys == f.init.Keys
    requires n < |order| && order[n] in f.init
    requires AgreeBefore(order, v, u, n)
    ensures StepVerdict(f, v, f.init[order[n]]) == StepVerdict(f, u, f.init[order[n]])
  {
    forall d | d in f.init[order[n]].dependsOn ensures (d in v <==> d in u) && (d in v ==> v[d] == u[d]) {
      assert Edge(GraphOf(f.init), order[n], d);
      var j :| 0 <= j < n && order[j] == d;
    }
    VerdictIsLocal(f, v, u, f.init[order[n]]);
  }

  ghost predicate AgreeBefore(order: seq<string>, v: Verdicts, u: Verdicts, n: nat) {
    forall i :: 0 <= i < n && i < |order| && order[i] in v && order[i] in u ==> v[order[i]] == u[order[i]]
  }

  /** The first place where two assignments differ, if they differ at all. */
  lemma {:induction false} FirstDifference(order: seq<string>, v: Verdicts, u: Verdicts, n: nat) returns (k: nat)
    ensures k <= n && AgreeBefore(order, v, u, k)
    ensures k < n ==> k < |order| && order[k] in v && order[k] in u && v[order[k]] != u[order[k]]
  {
    if n == 0 {
      k := 0;
    } else {
      k := FirstDifference(order, v, u, n - 1);
      if k == n - 1 && (k >= |order| || order[k] !in v || order[k] !in u || v[order[k]] == u[order[k]]) {
        k := n;
      }
    }
  }

  /** ... and only one. */
  lemma MeaningIsUnique(f: Flow, order: seq<string>, v: Verdicts, u: Verdicts)
    requires TopoOrder(GraphOf(f.init), order) && Meaning(f, v) && Meaning(f, u)
    ensures v == u
  {
    var k := FirstDifference(order, v, u, |order|);
    assert forall id :: id in f.init ==> MeansAt(f, v, id) && MeansAt(f, u, id);
    if k < |order| {
      VerdictsAgreeAt(f, order, v, u, k);
    }
    forall id | id in f.init ensures v[id] == u[id] {
      assert id in GraphOf(f.init);
      var i :| 0 <= i < |order| && order[i] == id;
    }
  }

  // ---- transitions -------------------------------------------------------------------------

  /** The ledger and the clock that stamps `finished_at`; every finish gets a later stamp. */
  datatype State = State(rows: Ledger, now: nat)

  predicate Terminal(s: Status) {
    s.Succeeded? || s.Failed? || s.Skipped?
  }

  /** `finish_step` */
  function FinishStep(st: State, id: string, status: Status, output: Option<string>): State
    requires id in st.rows
  {
    State(st.rows[id := st.rows[id].(status := status, output := output, finishedAt := Some(st.now))], st.now + 1)
  }

  /** `mark_step_skipped` */
  function MarkStepSkipped(st: State, id: string): State
    requires id in st.rows
  {
    State(st.rows[id := st.rows[id].(status := Skipped, finishedAt := Some(st.now))], st.now + 1)
  }

  /** `set_step_running` */
  function SetStepRunning(st: State, id: string): State
    requires id in st.rows
  {
    st.(rows := st.rows[id := st.rows[id].(status := Running)])
  }

  /** `expand_map_step`: one transaction. */
  function ExpandMapStep(st: State, id: string, items: seq<Value>): State
    requires id in st.rows
  {
    var rows := InsertRows(st.rows, ChildRows(st.rows[id], items));
    InsertRowsEffect(st.rows, ChildRows(st.rows[id], items));
    st.(rows := rows[id := rows[id].(status := Expanded)])
  }

  function Outputs(rows: Ledger): map<string, string> {
    map id | id in rows && rows[id].status.Succeeded? :: rows[id].output.GetOr("")
  }

  predicate DepIs(rows: Ledger, d: string, s: Status) {
    d in rows && rows[d].status == s
  }

  /** Every dependency is succeeded or skipped. */
  predicate Ready(rows: Ledger, r: FlowStep) {
    forall d :: d in r.dependsOn ==> DepIs(rows, d, Succeeded) || DepIs(rows, d, Skipped)
  }

  predicate AllSucceeded(rows: Ledger, r: FlowStep) {
    forall d :: d in r.dependsOn ==> DepIs(rows, d, Succeeded)
  }

  predicate ShouldSkip(f: Flow, rows: Ledger, r: FlowStep) {
    (exists d :: d in r.dependsOn && DepIs(rows, d, Skipped))
    || !GatePasses(f, r, BuildDeps(r.dependsOn, Outputs(rows)))
  }

  /** `expand` */
  function Expand(f: Flow, st: State, id: string, deps: Value): State
    requires id in st.rows && st.rows[id].mapRef.Some?
  {
    match MapItems(f, st.rows[id], deps)
    case None => FinishStep(st, id, Failed, Some("map_ref_not_array"))
    case Some(items) =>
      if items == [] then FinishStep(st, id, Succeeded, Some("[]"))
      else if |items| > MAX_MAP_FANOUT then FinishStep(st, id, Failed, Some("map_fanout_too_large"))
      else ExpandMapStep(st, id, items)
  }

  function Settle(st: State, id: string, o: Outcome): State
    requires id in st.rows
  {
    match o
    case Done(output) => FinishStep(st, id, Succeeded, output)
    case Fail(reason) => FinishStep(st, id, Failed, Some(reason))
  }

  /** The start of `run_step`: a step that gets no attempt fails at once. */
  function Launch(f: Flow, st: State, id: string): State
    requires id in st.rows
  {
    var r := st.rows[id];
    if !f.w.script(r.scriptId).Runnable? || AttemptBudget(r.retries) == 0 then
      Settle(st, id, RunOutcome(f.w, r.scriptId, Null, r.retries))
    else SetStepRunning(st, id)
  }

  function InputOf(f: Flow, rows: Ledger, r: FlowStep): Value {
    StepInput(f.input, BuildDeps(r.dependsOn, Outputs(rows)), r.input)
  }

  function SettleAgg(st: State, id: string, agg: Agg): State
    requires id in st.rows
  {
    match agg
    case AggFailed => FinishStep(st, id, Failed, Some("map_child_failed"))
    case AggSucceeded(output) => FinishStep(st, id, Succeeded, Some(output))
  }

  /** The ledger writes of the driver, by the row they concern. */
  datatype Event = Skipping(id: string) | Expanding(id: string) | Launching(id: string)
                 | Finishing(id: string) | Aggregating(id: string)

  ghost predicate Next(f: Flow, st: State, e: Event, st': State) {
    && e.id in st.rows
    && var r := st.rows[e.id];
       match e
       case Skipping(id) =>
         r.status.Pending? && Ready(st.rows, r) && ShouldSkip(f, st.rows, r) && st' == MarkStepSkipped(st, id)
       case Expanding(id) =>
         r.status.Pending? && Ready(st.rows, r) && !ShouldSkip(f, st.rows, r) && r.mapRef.Some?
         && st' == Expand(f, st, id, BuildDeps(r.dependsOn, Outputs(st.rows)))
       case Launching(id) =>
         r.status.Pending? && Ready(st.rows, r) && !ShouldSkip(f, st.rows, r) && r.mapRef.None?
         && st' == Launch(f, st, id)
       case Finishing(id) =>
         r.status.Running?
         && st' == Settle(st, id, RunOutcome(f.w, r.scriptId, InputOf(f, st.rows, r), r.retries))
       case Aggregating(id) =>
         r.status.Expanded?
         && exists steps :: Enumerates(steps, st.rows) && AggregateChildren(steps, id).Some?
                            && st' == SettleAgg(st, id, AggregateChildren(steps, id).value)
  }

  /** The ledgers reachable from `first`, crashes at a step boundary included: a crash changes no row. */
  ghost predicate Execution(f: Flow, trace: seq<State>) {
    |trace| > 0 && forall i {:trigger trace[i]} :: 0 <= i < |trace| - 1 ==> CanStep(f, trace[i], trace[i + 1])
  }

  ghost predicate CanStep(f: Flow, st: State, st': State) {
    exists e :: Next(f, st, e, st')
  }

  ghost predicate Reachable(f: Flow, st: State) {
    exists trace :: Execution(f, trace) && trace[0] == State(f.init, 0) && trace[|trace| - 1] == st
  }
}
