/** Saga rollback: which steps a failed flow compensates, and in what order. */
module Saga {
  import opened Wrappers
  import opened Json
  import opened DepGraph
  import opened FlowLedger
  import opened FanOut
  import opened FlowSystem
  import opened FlowSoundness
  import opened FlowProgress
  import FlowSpec

  predicate NeedsRollback(r: FlowStep) {
    r.status.Succeeded? && !r.compensated && r.compensate.Some?
  }

  function ToCompensate(steps: seq<FlowStep>): seq<FlowStep> {
    if steps == [] then []
    else (if NeedsRollback(steps[0]) then [steps[0]] else []) + ToCompensate(steps[1..])
  }

  /** `a` may stand before `b`: it finished no earlier, and unstamped rows come last. */
  predicate NoEarlier(a: FlowStep, b: FlowStep) {
    b.finishedAt.None? || (a.finishedAt.Some? && a.finishedAt.value >= b.finishedAt.value)
  }

  function InsertLatestFirst(s: FlowStep, sorted: seq<FlowStep>): seq<FlowStep> {
    if sorted == [] || NoEarlier(s, sorted[0]) then [s] + sorted
    else [sorted[0]] + InsertLatestFirst(s, sorted[1..])
  }

  /** `sort_by_key(Reverse(finished_at))` */
  function LatestFirst(steps: seq<FlowStep>): seq<FlowStep> {
    if steps == [] then [] else InsertLatestFirst(steps[0], LatestFirst(steps[1..]))
  }

  ghost predicate Descending(s: seq<FlowStep>) {
    forall i, j :: 0 <= i < j < |s| ==> NoEarlier(s[i], s[j])
  }

  lemma {:induction false} InsertKeepsMembers(c: FlowStep, s: seq<FlowStep>)
    ensures multiset(InsertLatestFirst(c, s)) == multiset(s) + multiset{c}
    ensures forall d :: d in InsertLatestFirst(c, s) ==> d == c || d in s
  {
    if s != [] && !NoEarlier(c, s[0]) {
      InsertKeepsMembers(c, s[1..]);
      assert s == [s[0]] + s[1..];
    }
  }

  lemma {:induction false} InsertKeepsDescending(c: FlowStep, s: seq<FlowStep>)
    requires Descending(s)
    ensures Descending(InsertLatestFirst(c, s))
  {
    if s != [] && !NoEarlier(c, s[0]) {
      var rest := InsertLatestFirst(c, s[1..]);
      InsertKeepsDescending(c, s[1..]);
      InsertKeepsMembers(c, s[1..]);
      forall d | d in rest ensures NoEarlier(s[0], d) {
        if d != c {
          var i :| 0 <= i < |s| - 1 && s[1..][i] == d;
          assert s[i + 1] == d;
        }
      }
      assert forall i :: 0 <= i < |rest| ==> rest[i] in rest;
    }
  }

  lemma {:induction false} LatestFirstSorts(s: seq<FlowStep>)
    ensures Descending(LatestFirst(s)) && multiset(LatestFirst(s)) == multiset(s)
  {
    if s != [] {
      LatestFirstSorts(s[1..]);
      InsertKeepsDescending(s[0], LatestFirst(s[1..]));
      InsertKeepsMembers(s[0], LatestFirst(s[1..]));
      assert s == [s[0]] + s[1..];
    }
  }

  lemma {:induction false} ToCompensateMembers(steps: seq<FlowStep>)
    requires DistinctIds(steps)
    ensures forall c :: c in ToCompensate(steps) <==> c in steps && NeedsRollback(c)
    ensures DistinctIds(ToCompensate(steps))
  {
    if steps != [] {
      var rest := ToCompensate(steps[1..]);
      ToCompensateMembers(steps[1..]);
      assert steps == [steps[0]] + steps[1..];
      forall c | c in rest ensures c.stepId != steps[0].stepId {
        var i :| 0 <= i < |steps| - 1 && steps[1..][i] == c;
        assert steps[i + 1] == c;
      }
    }
  }

  /** The rollback plan: every step that needs it, once, latest completion first. */
  lemma PlanOfRollback(steps: seq<FlowStep>, st: State)
    requires Enumerates(steps, st.rows) && Stamped(st)
    ensures var plan := LatestFirst(ToCompensate(steps));
            && DistinctIds(plan)
            && (forall c :: c in plan <==> c in steps && NeedsRollback(c))
            && forall i, j :: 0 <= i < j < |plan| ==> FinishedLater(st.rows, plan[i].stepId, plan[j].stepId)
  {
    var found := ToCompensate(steps);
    var plan := LatestFirst(found);
    ToCompensateMembers(steps);
    LatestFirstSorts(found);
    DistinctIdsInMultiset(found, plan);
    assert forall c :: c in plan ==> c in found;
    PlanDescends(plan, st);
  }

  lemma PlanDescends(plan: seq<FlowStep>, st: State)
    requires Stamped(st) && Descending(plan) && DistinctIds(plan)
    requires forall c :: c in plan ==> c.stepId in st.rows && st.rows[c.stepId] == c && NeedsRollback(c)
    ensures forall i, j :: 0 <= i < j < |plan| ==> FinishedLater(st.rows, plan[i].stepId, plan[j].stepId)
  {
    forall i, j | 0 <= i < j < |plan| ensures FinishedLater(st.rows, plan[i].stepId, plan[j].stepId) {
      assert plan[i] in plan && plan[j] in plan;
      assert NoEarlier(plan[i], plan[j]);
      StampsDiffer(st, plan[i].stepId, plan[j].stepId);
    }
  }

  lemma StampsDiffer(st: State, a: string, b: string)
    requires Stamped(st) && a in st.rows && b in st.rows && a != b
    requires Terminal(st.rows[a].status) && Terminal(st.rows[b].status)
    ensures st.rows[a].finishedAt.Some? && st.rows[b].finishedAt.Some? && st.rows[a].finishedAt != st.rows[b].finishedAt
  {
  }

  /** One compensation script that was run, for a step, and whether it succeeded. */
  datatype Rollback = Rollback(stepId: string, ok: bool)

  function CompensationInput(flowInput: Value, s: FlowStep): Value {
    Obj(map["flow_input" := flowInput, "step" := s.input,
            "output" := match s.output case Some(o) => Str(o) case None => Null])
  }

  predicate CompensationRuns(f: Flow, s: FlowStep)
    requires s.compensate.Some?
  {
    f.w.script(s.compensate.value).Runnable?
  }

  /** The script succeeds on the flow input, the step's own input and its output. */
  predicate CompensationOk(f: Flow, s: FlowStep)
    requires s.compensate.Some?
  {
    var output := if s.output.Some? then Str(s.output.value) else Null;
    f.w.attempt(s.compensate.value, Obj(map["flow_input" := f.input, "step" := s.input, "output" := output]), 1).Ran?
  }

  /** What a rollback of the ledger `before` did: it ran the compensation of exactly the steps that
      succeeded, were not compensated yet and name a runnable script, latest completion first, and
      marked those steps compensated. */
  ghost predicate RolledBack(f: Flow, before: Ledger, log: seq<Rollback>, after: Ledger) {
    RanOnly(f, before, log) && RanEach(f, before, log) && InReverse(before, log) && Marked(before, log, after)
  }

  ghost predicate Compensable(f: Flow, rows: Ledger, id: string) {
    && id in rows && rows[id].status == Succeeded && !rows[id].compensated
    && rows[id].compensate.Some? && f.w.script(rows[id].compensate.value) == Runnable
  }

  ghost predicate RanOnly(f: Flow, before: Ledger, log: seq<Rollback>) {
    forall k :: 0 <= k < |log| ==>
      Compensable(f, before, log[k].stepId) && log[k].ok == CompensationOk(f, before[log[k].stepId])
  }

  ghost predicate RanEach(f: Flow, before: Ledger, log: seq<Rollback>) {
    forall id :: Compensable(f, before, id) ==> InLog(log, id)
  }

  ghost predicate InReverse(before: Ledger, log: seq<Rollback>) {
    forall i, j :: 0 <= i < j < |log| ==> FinishedLater(before, log[i].stepId, log[j].stepId)
  }

  ghost predicate Marked(before: Ledger, log: seq<Rollback>, after: Ledger) {
    && after.Keys == before.Keys
    && (forall id :: id in before ==>
          after[id] == if InLog(log, id) then before[id].(compensated := true) else before[id])
  }

  ghost predicate InLog(log: seq<Rollback>, id: string) {
    exists k :: 0 <= k < |log| && log[k].stepId == id
  }

  ghost predicate FinishedLater(rows: Ledger, a: string, b: string) {
    && a in rows && b in rows && rows[a].finishedAt.Some? && rows[b].finishedAt.Some?
    && rows[a].finishedAt.value > rows[b].finishedAt.value
  }

  /** Rollback undoes a step before everything it transitively depends on. */
  lemma DependentsRollBackFirst(f: Flow, m: Plan, before: State, log: seq<Rollback>, p: seq<string>, i: nat, j: nat)
    requires Sound(f.init, m, before.rows) && Stamped(before)
    requires RanOnly(f, before.rows, log) && InReverse(before.rows, log)
    requires Walk(GraphOf(f.init), p) && |p| > 1
    requires i < |log| && j < |log| && log[i].stepId == p[0] && log[j].stepId == p[|p| - 1]
    ensures i < j
  {
    assert Edge(GraphOf(f.init), p[0], p[1]);
    assert Compensable(f, before.rows, log[i].stepId);
    DependencyFinishedEarlier(f.init, m, before, p);
    assert FinishedLater(before.rows, p[0], p[|p| - 1]);
    LaterIsFirst(before.rows, log, i, j);
  }

  lemma LaterIsFirst(before: Ledger, log: seq<Rollback>, i: nat, j: nat)
    requires InReverse(before, log) && i < |log| && j < |log|
    requires FinishedLater(before, log[i].stepId, log[j].stepId)
    ensures i < j
  {
  }

  // ---- the rollback loop ------------------------------------------------------------------------

  function FailedRollbacks(log: seq<Rollback>): nat {
    if log == [] then 0
    else
      var n := |log| - 1;
      FailedRollbacks(log[..n]) + (if log[n].ok then 0 else 1)
  }

  lemma FailedRollbacksAppend(log: seq<Rollback>, r: Rollback)
    ensures FailedRollbacks(log + [r]) == FailedRollbacks(log) + (if r.ok then 0 else 1)
  {
    assert (log + [r])[..|log|] == log;
  }

  /** The places in the log of compensations that did not succeed. */
  ghost function Failures(log: seq<Rollback>): set<int> {
    set k | 0 <= k < |log| && !log[k].ok
  }

  /** The counter counts the compensations that did not succeed. */
  lemma {:induction false} FailedRollbacksCount(log: seq<Rollback>)
    ensures FailedRollbacks(log) == |Failures(log)|
    ensures FailedRollbacks(log) > 0 <==> exists k :: 0 <= k < |log| && !log[k].ok
  {
    if log != [] {
      var n := |log| - 1;
      FailedRollbacksCount(log[..n]);
      assert Failures(log) == if log[n].ok then Failures(log[..n]) else Failures(log[..n]) + {n};
    }
    assert |Failures(log)| > 0 <==> Failures(log) != {};
    assert forall k :: 0 <= k < |log| && !log[k].ok ==> k in Failures(log);
  }

  /** The first `n` steps of the plan have been dealt with. */
  ghost predicate RollingBack(f: Flow, before: Ledger, plan: seq<FlowStep>, n: int, log: seq<Rollback>, rows: Ledger) {
    && 0 <= n <= |plan|
    && RanOnly(f, before, log) && InReverse(before, log) && Marked(before, log, rows)
    && (forall k :: 0 <= k < n && CompensableRow(f, plan[k]) ==> InLog(log, plan[k].stepId))
    && (forall k, j :: 0 <= k < |log| && n <= j < |plan| ==> FinishedLater(before, log[k].stepId, plan[j].stepId))
  }

  ghost predicate CompensableRow(f: Flow, s: FlowStep) {
    NeedsRollback(s) && CompensationRuns(f, s)
  }

  ghost predicate GoodPlan(before: Ledger, plan: seq<FlowStep>) {
    && (forall c :: c in plan ==> c.stepId in before && before[c.stepId] == c && NeedsRollback(c))
    && (forall i, j :: 0 <= i < j < |plan| ==> FinishedLater(before, plan[i].stepId, plan[j].stepId))
  }

  /** At the start of a rollback nothing has been run, and the plan is sound. */
  lemma RollbackBegins(f: Flow, steps: seq<FlowStep>, st: State)
    requires Enumerates(steps, st.rows) && Stamped(st)
    ensures var plan := LatestFirst(ToCompensate(steps));
            && GoodPlan(st.rows, plan) && RollingBack(f, st.rows, plan, 0, [], st.rows)
            && forall c :: c in plan <==> c in steps && NeedsRollback(c)
  {
    PlanOfRollback(steps, st);
  }

  lemma RollBackNone(f: Flow, before: Ledger, plan: seq<FlowStep>, n: nat, log: seq<Rollback>, rows: Ledger)
    requires n < |plan| && RollingBack(f, before, plan, n, log, rows) && !CompensableRow(f, plan[n])
    ensures RollingBack(f, before, plan, n + 1, log, rows)
  {
  }

  lemma RollBackOne(f: Flow, before: Ledger, plan: seq<FlowStep>, n: nat, log: seq<Rollback>, rows: Ledger, ok: bool)
    requires n < |plan| && GoodPlan(before, plan) && RollingBack(f, before, plan, n, log, rows)
    requires plan[n] in plan && CompensableRow(f, plan[n]) && ok == CompensationOk(f, plan[n])
    ensures var id := plan[n].stepId;
            id in rows && RollingBack(f, before, plan, n + 1, log + [Rollback(id, ok)], rows[id := rows[id].(compensated := true)])
  {
    var r := Rollback(plan[n].stepId, ok);
    LogGrows(log, r);
    MarkedMore(before, log, rows, r);
    RanMore(f, before, log, r);
    ReverseMore(before, log, r);
  }

  lemma LogGrows(log: seq<Rollback>, r: Rollback)
    ensures forall id :: InLog(log + [r], id) <==> InLog(log, id) || id == r.stepId
  {
    forall id ensures InLog(log + [r], id) <==> InLog(log, id) || id == r.stepId {
      if InLog(log, id) {
        var k :| 0 <= k < |log| && log[k].stepId == id;
        assert (log + [r])[k].stepId == id;
      }
      assert (log + [r])[|log|] == r;
    }
  }

  lemma MarkedMore(before: Ledger, log: seq<Rollback>, rows: Ledger, r: Rollback)
    requires Marked(before, log, rows) && r.stepId in before
    ensures r.stepId in rows && Marked(before, log + [r], rows[r.stepId := rows[r.stepId].(compensated := true)])
  {
    LogGrows(log, r);
  }

  lemma RanMore(f: Flow, before: Ledger, log: seq<Rollback>, r: Rollback)
    requires RanOnly(f, before, log) && Compensable(f, before, r.stepId) && r.ok == CompensationOk(f, before[r.stepId])
    ensures RanOnly(f, before, log + [r])
  {
  }

  lemma ReverseMore(before: Ledger, log: seq<Rollback>, r: Rollback)
    requires InReverse(before, log) && forall k :: 0 <= k < |log| ==> FinishedLater(before, log[k].stepId, r.stepId)
    ensures InReverse(before, log + [r])
  {
  }

  lemma RollbackComplete(f: Flow, before: Ledger, plan: seq<FlowStep>, log: seq<Rollback>, rows: Ledger, steps: seq<FlowStep>)
    requires Enumerates(steps, before) && forall c :: c in plan <==> c in steps && NeedsRollback(c)
    requires RollingBack(f, before, plan, |plan|, log, rows)
    ensures RolledBack(f, before, log, rows)
  {
    forall id | Compensable(f, before, id) ensures InLog(log, id) {
      assert before[id] in steps && before[id].stepId == id;
      var k :| 0 <= k < |plan| && plan[k] == before[id];
      assert CompensableRow(f, plan[k]);
    }
  }

  /** Every step that needs rolling back can be: its script is there and has a known runtime. */
  ghost predicate AllCanRun(f: Flow, rows: Ledger) {
    forall id :: id in rows && NeedsRollback(rows[id]) ==> CompensationRuns(f, rows[id])
  }

  lemma LoggedIffCompensable(f: Flow, before: Ledger, log: seq<Rollback>, after: Ledger, id: string)
    requires RolledBack(f, before, log, after)
    ensures InLog(log, id) <==> Compensable(f, before, id)
  {
    if InLog(log, id) {
      var k :| 0 <= k < |log| && log[k].stepId == id;
      assert Compensable(f, before, log[k].stepId);
    }
  }

  /** A rollback reaches every step that needs it exactly when each of their scripts can run; any other step is
      passed over and stays unmarked. */
  lemma RollbackReachesAllIff(f: Flow, before: Ledger, log: seq<Rollback>, after: Ledger)
    requires RolledBack(f, before, log, after)
    ensures (forall id :: id in before && NeedsRollback(before[id]) ==> after[id].compensated) <==> AllCanRun(f, before)
    ensures forall id :: id in before && NeedsRollback(before[id]) && !CompensationRuns(f, before[id]) ==> after[id] == before[id]
  {
    forall id | id in before && NeedsRollback(before[id])
      ensures after[id].compensated <==> CompensationRuns(f, before[id])
      ensures !CompensationRuns(f, before[id]) ==> after[id] == before[id]
    {
      LoggedIffCompensable(f, before, log, after, id);
    }
  }

  /** The compensations that ran all succeeded, as far as the log goes and as far as the scripts go. */
  lemma LogIsCleanIff(f: Flow, before: Ledger, log: seq<Rollback>, after: Ledger)
    requires RolledBack(f, before, log, after)
    ensures (forall k :: 0 <= k < |log| ==> log[k].ok)
       <==> forall id :: Compensable(f, before, id) ==> CompensationOk(f, before[id])
  {
    forall k | 0 <= k < |log|
      ensures Compensable(f, before, log[k].stepId) && log[k].ok == CompensationOk(f, before[log[k].stepId])
    {
    }
    forall id | Compensable(f, before, id) ensures exists k :: 0 <= k < |log| && log[k].stepId == id {
      assert InLog(log, id);
    }
  }

  // ---- a rollback that passes a step over --------------------------------------------------------------

  /** Script 0 runs and succeeds, any other is missing. */
  const LONE_SCRIPT: World :=
    World(_ => None, id => if id == 0 then Runnable else Missing, (_, _, _) => Ran(None))

  function PlainStep(id: string, script: int, deps: seq<string>, compensate: Option<int>): FlowStep {
    FlowStep(id, script, Obj(map[]), deps, Pending, None, None, None, compensate, false, None, None)
  }

  /** Step "a" succeeds and names a compensation that is missing; step "b" after it fails. */
  const LONE_FLOW: Flow :=
    Flow(LONE_SCRIPT, map["a" := PlainStep("a", 0, [], Some(1)), "b" := PlainStep("b", 1, ["a"], None)], Null)

  const SPEC_A: Value := Obj(map["id" := Str("a"), "script_id" := Num(PosInt(0)), "compensate" := Num(PosInt(1))])
  const SPEC_B: Value := Obj(map["id" := Str("b"), "script_id" := Num(PosInt(1)), "depends_on" := Arr([Str("a")])])
  const LONE_SPEC: Value := Obj(map["steps" := Arr([SPEC_A, SPEC_B])])

  lemma SpecAIsOk()
    ensures FlowSpec.StepOk(SPEC_A) && FlowSpec.IdOf(SPEC_A) == "a" && FlowSpec.DependenciesOf(SPEC_A) == []
    ensures FlowSpec.SpecRow(SPEC_A) == PlainStep("a", 0, [], Some(1))
  {
  }

  lemma SpecBIsOk()
    ensures FlowSpec.StepOk(SPEC_B) && FlowSpec.IdOf(SPEC_B) == "b" && FlowSpec.DependenciesOf(SPEC_B) == ["a"]
    ensures FlowSpec.SpecRow(SPEC_B) == PlainStep("b", 1, ["a"], None)
  {
    assert FlowSpec.Strings([Str("a")]) == ["a"];
  }

  lemma LoneTables(a: Value, b: Value)
    requires FlowSpec.IdOf(a) != FlowSpec.IdOf(b)
    ensures FlowSpec.Ids([a, b]) == [FlowSpec.IdOf(a), FlowSpec.IdOf(b)]
    ensures FlowSpec.EdgesOf([a, b]) == map[FlowSpec.IdOf(a) := FlowSpec.DependenciesOf(a), FlowSpec.IdOf(b) := FlowSpec.DependenciesOf(b)]
    ensures FlowSpec.LedgerOf([a, b]) == map[FlowSpec.IdOf(a) := FlowSpec.SpecRow(a), FlowSpec.IdOf(b) := FlowSpec.SpecRow(b)]
  {
    assert [a, b][..1] == [a] && [a][..0] == [];
    assert FlowSpec.EdgesOf([a]) == map[FlowSpec.IdOf(a) := FlowSpec.DependenciesOf(a)];
    assert FlowSpec.LedgerOf([a]) == map[FlowSpec.IdOf(a) := FlowSpec.SpecRow(a)];
  }

  lemma LoneOrder(g: Graph)
    requires g == map["a" := [], "b" := ["a"]]
    ensures TopoOrder(g, ["a", "b"])
  {
    var order := ["a", "b"];
    assert order[..1] == ["a"] && order[..0] == [];
    forall k, d | 0 <= k < |order| && Edge(g, order[k], d) ensures d in order[..k] {
      if k == 1 { assert d == "a" && order[..1][0] == "a"; }
    }
  }

  /** Two good steps, the second after the first, make an acceptable spec. */
  lemma TwoStepsAreAccepted(spec: Value, a: Value, b: Value)
    requires FlowSpec.StepsOf(spec) == Some([a, b]) && FlowSpec.StepOk(a) && FlowSpec.StepOk(b)
    requires FlowSpec.IdOf(a) == "a" && FlowSpec.IdOf(b) == "b"
    requires FlowSpec.DependenciesOf(a) == [] && FlowSpec.DependenciesOf(b) == ["a"]
    ensures FlowSpec.Acceptable(spec)
    ensures FlowSpec.LedgerOf(FlowSpec.StepsOf(spec).value) == map["a" := FlowSpec.SpecRow(a), "b" := FlowSpec.SpecRow(b)]
  {
    LoneTables(a, b);
    LoneOrder(FlowSpec.EdgesOf([a, b]));
    assert FlowSpec.Ids([a, b])[0] == "a";
  }

  /** The flow is that of a spec that `validate_spec` accepts. */
  lemma LoneSpecIsAccepted()
    ensures FlowSpec.Acceptable(LONE_SPEC) && FlowSpec.LedgerOf(FlowSpec.StepsOf(LONE_SPEC).value) == LONE_FLOW.init
    ensures ValidFlow(LONE_FLOW)
  {
    SpecAIsOk();
    SpecBIsOk();
    TwoStepsAreAccepted(LONE_SPEC, SPEC_A, SPEC_B);
    FlowSpec.AcceptedSpecIsValid(LONE_SPEC, LONE_SCRIPT, Null);
  }

  function LoneState(a: FlowStep, b: FlowStep, now: nat): State {
    State(map["a" := a, "b" := b], now)
  }

  lemma LoneStart(a0: FlowStep, b0: FlowStep)
    requires a0 == PlainStep("a", 0, [], Some(1)) && b0 == PlainStep("b", 1, ["a"], None)
    ensures var a1, a2 := a0.(status := Running), a0.(status := Succeeded, finishedAt := Some(0));
            && Next(LONE_FLOW, LoneState(a0, b0, 0), Launching("a"), LoneState(a1, b0, 0))
            && Next(LONE_FLOW, LoneState(a1, b0, 0), Finishing("a"), LoneState(a2, b0, 1))
  {
    var a1, a2 := a0.(status := Running), a0.(status := Succeeded, finishedAt := Some(0));
    var st := LoneState(a0, b0, 0);
    assert Launch(LONE_FLOW, st, "a") == SetStepRunning(st, "a");
    assert SetStepRunning(st, "a").rows == LoneState(a1, b0, 0).rows;
    var st1 := LoneState(a1, b0, 0);
    assert RunOutcome(LONE_SCRIPT, 0, InputOf(LONE_FLOW, st1.rows, a1), None) == Done(None);
    assert Settle(st1, "a", Done(None)).rows == LoneState(a2, b0, 1).rows;
  }

  lemma LoneFailure(a2: FlowStep, b0: FlowStep)
    requires a2 == PlainStep("a", 0, [], Some(1)).(status := Succeeded, finishedAt := Some(0))
    requires b0 == PlainStep("b", 1, ["a"], None)
    ensures var b1 := b0.(status := Failed, output := Some("script_not_found"), finishedAt := Some(1));
            Next(LONE_FLOW, LoneState(a2, b0, 1), Launching("b"), LoneState(a2, b1, 2))
  {
    var b1 := b0.(status := Failed, output := Some("script_not_found"), finishedAt := Some(1));
    var st := LoneState(a2, b0, 1);
    assert DepIs(st.rows, "a", Succeeded);
    assert Launch(LONE_FLOW, st, "b") == Settle(st, "b", Fail("script_not_found"));
    assert Settle(st, "b", Fail("script_not_found")).rows == LoneState(a2, b1, 2).rows;
  }

  lemma LoneRun() returns (a2: FlowStep, b1: FlowStep)
    ensures a2 == PlainStep("a", 0, [], Some(1)).(status := Succeeded, finishedAt := Some(0))
    ensures b1.stepId == "b" && b1.status.Failed? && Reachable(LONE_FLOW, LoneState(a2, b1, 2))
  {
    var a0, b0 := PlainStep("a", 0, [], Some(1)), PlainStep("b", 1, ["a"], None);
    var a1 := a0.(status := Running);
    a2 := a0.(status := Succeeded, finishedAt := Some(0));
    b1 := b0.(status := Failed, output := Some("script_not_found"), finishedAt := Some(1));
    LoneStart(a0, b0);
    LoneFailure(a2, b0);
    var trace := [LoneState(a0, b0, 0)];
    assert Execution(LONE_FLOW, trace) && trace[0] == State(LONE_FLOW.init, 0);
    ReachableStep(LONE_FLOW, LoneState(a0, b0, 0), Launching("a"), LoneState(a1, b0, 0));
    ReachableStep(LONE_FLOW, LoneState(a1, b0, 0), Finishing("a"), LoneState(a2, b0, 1));
    ReachableStep(LONE_FLOW, LoneState(a2, b0, 1), Launching("b"), LoneState(a2, b1, 2));
  }

  lemma NothingCanRun(f: Flow, rows: Ledger)
    requires forall id :: id in rows && NeedsRollback(rows[id]) ==> !CompensationRuns(f, rows[id])
    ensures RolledBack(f, rows, [], rows)
  {
    assert forall id :: !Compensable(f, rows, id);
  }

  lemma NothingToRollBack(a: FlowStep, b: FlowStep)
    requires a == PlainStep("a", 0, [], Some(1)).(status := Succeeded, finishedAt := Some(0)) && b.status.Failed?
    ensures var rows := LoneState(a, b, 2).rows;
            rows["b"].status.Failed? && NeedsRollback(rows["a"]) && RolledBack(LONE_FLOW, rows, [], rows)
  {
    NothingCanRun(LONE_FLOW, LoneState(a, b, 2).rows);
  }

  /** It happens: an accepted flow fails, a step that succeeded names a compensation, nothing is rolled back, and no
      compensation has failed. */
  lemma PassingOverHappens() returns (spec: Value, f: Flow, before: State, id: string)
    ensures FlowSpec.Acceptable(spec) && f.init == FlowSpec.LedgerOf(FlowSpec.StepsOf(spec).value) && ValidFlow(f)
    ensures Reachable(f, before) && (exists k :: k in before.rows && before.rows[k].status.Failed?)
    ensures id in before.rows && NeedsRollback(before.rows[id]) && RolledBack(f, before.rows, [], before.rows)
  {
    LoneSpecIsAccepted();
    var a2, b1 := LoneRun();
    spec, f, id, before := LONE_SPEC, LONE_FLOW, "a", LoneState(a2, b1, 2);
    NothingToRollBack(a2, b1);
  }
}
