/** Every reachable ledger agrees with the meaning of the flow. */
module FlowSoundness {
  import opened Wrappers
  import opened Decimal
  import opened Json
  import opened JsonText
  import opened DepGraph
  import opened FlowLedger
  import opened FanOut
  import opened FlowSystem

  // ---- what each step is meant to do ---------------------------------------------------------

  /** A step's verdict, whether it starts at all, its inputs, and, for a map step that expands, its
      elements and what running each of them gives. */
  datatype Meant = Meant(verdict: Verdict, starts: bool, deps: Value, items: seq<Value>, outcomes: seq<Outcome>)

  type Plan = map<string, Meant>

  /** All dependencies yield an output and the gate passes. */
  ghost predicate Starts(f: Flow, v: Verdicts, def: FlowStep) {
    (forall d :: d in def.dependsOn ==> d in v && v[d].Yields?) && GatePasses(f, def, DepsOf(v, def))
  }

  /** The elements a map step expands into; empty when it does not expand. */
  ghost function Fanout(f: Flow, v: Verdicts, def: FlowStep): seq<Value> {
    if Starts(f, v, def) && def.mapRef.Some? then
      match MapItems(f, def, DepsOf(v, def))
      case Some(items) => if |items| <= MAX_MAP_FANOUT then items else []
      case None => []
    else []
  }

  ghost predicate MeantBy(f: Flow, v: Verdicts, m: Plan, id: string)
    requires id in f.init && id in v && id in m
  {
    var def := f.init[id];
    && m[id].verdict == v[id]
    && m[id].starts == Starts(f, v, def)
    && m[id].deps == DepsOf(v, def)
    && m[id].items == Fanout(f, v, def)
    && m[id].outcomes == seq(|m[id].items|, i requires 0 <= i < |m[id].items| =>
                                              ChildOutcome(f, def, m[id].deps, m[id].items[i]))
  }

  ghost predicate PlanOf(f: Flow, v: Verdicts, m: Plan) {
    && Meaning(f, v)
    && m.Keys == f.init.Keys
    && forall id {:trigger MeantBy(f, v, m, id)} :: id in f.init ==> MeantBy(f, v, m, id)
  }

  lemma PlanExists(f: Flow, v: Verdicts) returns (m: Plan)
    requires Meaning(f, v)
    ensures PlanOf(f, v, m)
  {
    m := map id | id in f.init ::
      var def := f.init[id];
      var deps, items := DepsOf(v, def), Fanout(f, v, def);
      Meant(v[id], Starts(f, v, def), deps, items,
            seq(|items|, i requires 0 <= i < |items| => ChildOutcome(f, def, deps, items[i])));
    forall id | id in f.init ensures MeantBy(f, v, m, id) {
    }
  }

  // ---- the invariant ---------------------------------------------------------------------------

  function Static(r: FlowStep): FlowStep {
    r.(status := Pending, output := None, compensated := false, finishedAt := None)
  }

  predicate Opened(s: Status) {
    s.Expanded? || s.Succeeded? || s.Failed?
  }

  ghost predicate SpecRowOk(init: Ledger, m: Plan, rows: Ledger, id: string)
    requires id in rows && id in init && id in m
  {
    var r := rows[id];
    && Static(r) == init[id]
    && match r.status
       case Pending => r.output.None?
       case Skipped => m[id].verdict == Skips && Ready(rows, r)
       case Running => r.mapRef.None? && m[id].starts && AllSucceeded(rows, r)
       case Expanded => m[id].starts && m[id].items != [] && AllSucceeded(rows, r)
       case Succeeded => m[id].verdict == Yields(r.output) && AllSucceeded(rows, r)
       case Failed => r.output.Some? && m[id].verdict == Fails(r.output.value) && AllSucceeded(rows, r)
  }

  ghost predicate ChildRowOk(init: Ledger, m: Plan, rows: Ledger, id: string)
    requires id in rows
  {
    var r, p, i := rows[id], ParentOf(id), IndexOf(id);
    && p in init && p in rows && p in m && Opened(rows[p].status)
    && i < |m[p].items| && i < |m[p].outcomes| && id == ChildId(p, i)
    && Static(r) == ChildRow(init[p], i, m[p].items[i])
    && ChildDid(r, m[p].outcomes[i])
  }

  /** A child that is done did what running its element does. */
  ghost predicate ChildDid(c: FlowStep, o: Outcome) {
    match c.status
    case Pending => c.output.None?
    case Running => true
    case Succeeded => o == Done(c.output)
    case Failed => c.output.Some? && o == Fail(c.output.value)
    case _ => false
  }

  ghost predicate RowOk(init: Ledger, m: Plan, rows: Ledger, id: string)
    requires id in rows && m.Keys == init.Keys
  {
    if id in init then SpecRowOk(init, m, rows, id) else ChildRowOk(init, m, rows, id)
  }

  /** An opened map step has a row for each of its elements. */
  ghost predicate Complete(m: Plan, rows: Ledger, p: string)
    requires p in m && p in rows
  {
    Opened(rows[p].status) ==> forall i :: 0 <= i < |m[p].items| ==> ChildId(p, i) in rows
  }

  ghost predicate ClosedSpec(init: Ledger) {
    && (forall id :: id in init ==> NoHash(id) && init[id].stepId == id && Untouched(init[id]))
    && (forall id, d :: id in init && d in init[id].dependsOn ==> d in init)
  }

  ghost predicate ShapedPlan(m: Plan) {
    forall id :: id in m ==> |m[id].outcomes| == |m[id].items| <= MAX_MAP_FANOUT
  }

  ghost predicate Sound(init: Ledger, m: Plan, rows: Ledger) {
    && ClosedSpec(init) && ShapedPlan(m) && m.Keys == init.Keys
    && init.Keys <= rows.Keys
    && (forall id {:trigger RowOk(init, m, rows, id)} :: id in rows ==> RowOk(init, m, rows, id))
    && (forall p {:trigger Complete(m, rows, p)} :: p in init ==> Complete(m, rows, p))
  }

  // ---- what dependencies' rows say about the meaning ---------------------------------------

  /** A row's dependencies are the ones its definition names; a child's are its parent's. */
  lemma DepsOfRow(init: Ledger, m: Plan, rows: Ledger, id: string)
    requires Sound(init, m, rows) && id in rows
    ensures forall d :: d in rows[id].dependsOn ==> d in init && d in rows
    ensures id !in init ==> AllSucceeded(rows, rows[id])
  {
    assert RowOk(init, m, rows, id);
    if id in init {
      assert rows[id].dependsOn == init[id].dependsOn;
    } else {
      var p := ParentOf(id);
      assert RowOk(init, m, rows, p);
      assert rows[id].dependsOn == init[p].dependsOn == rows[p].dependsOn;
    }
  }

  lemma DepVerdict(init: Ledger, m: Plan, rows: Ledger, d: string)
    requires Sound(init, m, rows) && d in init
    ensures DepIs(rows, d, Succeeded) ==> m[d].verdict == Yields(rows[d].output)
    ensures DepIs(rows, d, Skipped) ==> m[d].verdict == Skips
  {
    assert RowOk(init, m, rows, d);
  }

  lemma BuildDepsAgree(dependsOn: seq<string>, a: map<string, string>, b: map<string, string>)
    requires forall d :: d in dependsOn ==> (d in a <==> d in b) && (d in a ==> a[d] == b[d])
    ensures BuildDeps(dependsOn, a) == BuildDeps(dependsOn, b)
  {
    assert (map d | d in dependsOn && d in a :: Str(a[d])) == (map d | d in dependsOn && d in b :: Str(b[d]));
  }

  /** When all dependencies of step `s` have succeeded, the inputs the driver builds are the meant ones. */
  lemma SucceededDeps(f: Flow, v: Verdicts, m: Plan, rows: Ledger, s: string)
    requires PlanOf(f, v, m) && Sound(f.init, m, rows) && s in f.init && AllSucceeded(rows, f.init[s])
    ensures forall d :: d in f.init[s].dependsOn ==> d in v && v[d].Yields?
    ensures BuildDeps(f.init[s].dependsOn, Outputs(rows)) == DepsOf(v, f.init[s]) == m[s].deps
  {
    forall d | d in f.init[s].dependsOn
      ensures d in v && v[d].Yields? && d in Outputs(rows) && Outputs(rows)[d] == YieldedOutputs(v)[d]
    {
      DepVerdict(f.init, m, rows, d);
      assert MeantBy(f, v, m, d);
    }
    assert MeantBy(f, v, m, s);
    BuildDepsAgree(f.init[s].dependsOn, Outputs(rows), YieldedOutputs(v));
  }

  lemma SameDeps(init: Ledger, m: Plan, rows: Ledger, id: string)
    requires Sound(init, m, rows) && id in init
    ensures id in rows && Static(rows[id]) == init[id]
    ensures forall d :: d in init[id].dependsOn ==> d in init
  {
    assert RowOk(init, m, rows, id);
  }

  lemma VerdictOfSkip(f: Flow, v: Verdicts, id: string)
    requires Meaning(f, v) && id in f.init
    requires forall d :: d in f.init[id].dependsOn ==> d in v && (v[d].Yields? || v[d].Skips?)
    requires (exists d :: d in f.init[id].dependsOn && v[d].Skips?) || !GatePasses(f, f.init[id], DepsOf(v, f.init[id]))
    ensures v[id] == Skips
  {
    assert MeansAt(f, v, id);
  }

  /** A pending step the driver skips is one that means to be skipped. */
  lemma SkipIsMeant(f: Flow, v: Verdicts, m: Plan, rows: Ledger, id: string)
    requires PlanOf(f, v, m) && Sound(f.init, m, rows) && id in f.init && rows[id].status.Pending?
    requires Ready(rows, rows[id]) && ShouldSkip(f, rows, rows[id])
    ensures m[id].verdict == Skips
  {
    SameDeps(f.init, m, rows, id);
    var def := f.init[id];
    forall d | d in def.dependsOn
      ensures d in v && (v[d].Yields? || v[d].Skips?) && (DepIs(rows, d, Skipped) ==> v[d].Skips?)
    {
      assert DepIs(rows, d, Succeeded) || DepIs(rows, d, Skipped);
      DepVerdict(f.init, m, rows, d);
      assert MeantBy(f, v, m, d);
    }
    if forall d :: d in def.dependsOn ==> !DepIs(rows, d, Skipped) {
      SucceededDeps(f, v, m, rows, id);
      assert GatePasses(f, rows[id], m[id].deps) == GatePasses(f, def, m[id].deps);
    }
    VerdictOfSkip(f, v, id);
    assert MeantBy(f, v, m, id);
  }

  /** A row that may start: its inputs are there and the gate passed. */
  ghost predicate Startable(f: Flow, rows: Ledger, id: string) {
    id in rows && rows[id].status.Pending? && Ready(rows, rows[id]) && !ShouldSkip(f, rows, rows[id])
  }

  lemma StartableDeps(f: Flow, v: Verdicts, m: Plan, rows: Ledger, id: string)
    requires PlanOf(f, v, m) && Sound(f.init, m, rows) && Startable(f, rows, id)
    ensures AllSucceeded(rows, rows[id])
    ensures id in f.init ==> m[id].starts && BuildDeps(rows[id].dependsOn, Outputs(rows)) == m[id].deps
  {
    if id in f.init {
      SameDeps(f.init, m, rows, id);
      forall d | d in rows[id].dependsOn ensures DepIs(rows, d, Succeeded) {
        assert DepIs(rows, d, Succeeded) || DepIs(rows, d, Skipped);
      }
      SucceededDeps(f, v, m, rows, id);
      assert GatePasses(f, rows[id], m[id].deps) == GatePasses(f, f.init[id], m[id].deps);
      assert MeantBy(f, v, m, id);
    } else {
      DepsOfRow(f.init, m, rows, id);
    }
  }

  lemma VerdictOfStart(f: Flow, v: Verdicts, m: Plan, id: string)
    requires PlanOf(f, v, m) && id in f.init && m[id].starts
    ensures f.init[id].mapRef.None? ==> m[id].verdict == RunVerdict(f, f.init[id], m[id].deps)
    ensures f.init[id].mapRef.Some? ==>
              m[id].verdict == match MapItems(f, f.init[id], m[id].deps)
                               case None => Fails("map_ref_not_array")
                               case Some(items) => MapVerdict(f, f.init[id], m[id].deps, items)
  {
    assert MeantBy(f, v, m, id);
    assert MeansAt(f, v, id);
  }

  /** A child's inputs are its parent's. */
  lemma ChildInputs(f: Flow, v: Verdicts, m: Plan, rows: Ledger, id: string)
    requires PlanOf(f, v, m) && Sound(f.init, m, rows) && id in rows && id !in f.init
    ensures rows[id].whenCond.None? && rows[id].mapRef.None? && rows[id].retries.None?
    ensures !ShouldSkip(f, rows, rows[id])
    ensures ParentOf(id) in m && BuildDeps(rows[id].dependsOn, Outputs(rows)) == m[ParentOf(id)].deps
  {
    var p := ParentOf(id);
    assert RowOk(f.init, m, rows, id);
    DepsOfRow(f.init, m, rows, id);
    assert rows[id].dependsOn == Static(rows[id]).dependsOn == f.init[p].dependsOn;
    assert Static(rows[id]).whenCond.None? && Static(rows[id]).mapRef.None? && Static(rows[id]).retries.None?;
    SucceededDeps(f, v, m, rows, p);
    forall d | d in rows[id].dependsOn ensures !DepIs(rows, d, Skipped) {
      assert DepIs(rows, d, Succeeded);
    }
  }

  // ---- preservation ------------------------------------------------------------------------

  /** The ledger changes in the non-terminal row `id` only. */
  ghost predicate OneRow(rows: Ledger, rows': Ledger, id: string) {
    && id in rows && id in rows'
    && rows.Keys <= rows'.Keys
    && (forall k :: k in rows && k != id ==> rows'[k] == rows[k])
    && !Terminal(rows[id].status)
    && (Opened(rows[id].status) ==> Opened(rows'[id].status))
    && Static(rows'[id]) == Static(rows[id])
  }

  /** A pending dependency is not a succeeded or skipped one. */
  lemma DepsSurvive(rows: Ledger, rows': Ledger, id: string, r: FlowStep)
    requires OneRow(rows, rows', id)
    ensures AllSucceeded(rows, r) ==> AllSucceeded(rows', r)
    ensures Ready(rows, r) ==> Ready(rows', r)
  {
    forall d | d in r.dependsOn
      ensures DepIs(rows, d, Succeeded) ==> DepIs(rows', d, Succeeded)
      ensures DepIs(rows, d, Skipped) ==> DepIs(rows', d, Skipped)
    {
    }
  }

  lemma OtherRowsStayOk(init: Ledger, m: Plan, rows: Ledger, rows': Ledger, id: string, k: string)
    requires m.Keys == init.Keys && OneRow(rows, rows', id) && k in rows && k != id && RowOk(init, m, rows, k)
    ensures RowOk(init, m, rows', k)
  {
    DepsSurvive(rows, rows', id, rows[k]);
  }

  /** What is left to check when one row changes and no row appears. */
  lemma SettledRow(init: Ledger, m: Plan, rows: Ledger, rows': Ledger, id: string)
    requires Sound(init, m, rows) && OneRow(rows, rows', id) && rows'.Keys == rows.Keys
    requires RowOk(init, m, rows', id)
    requires id in init ==> Complete(m, rows', id)
    ensures Sound(init, m, rows')
  {
    forall k | k in rows' ensures RowOk(init, m, rows', k) {
      if k != id {
        assert RowOk(init, m, rows, k);
        OtherRowsStayOk(init, m, rows, rows', id, k);
      }
    }
    forall p | p in init ensures Complete(m, rows', p) {
      StaysComplete(m, rows, rows', id, p);
    }
  }

  lemma StaysComplete(m: Plan, rows: Ledger, rows': Ledger, id: string, p: string)
    requires OneRow(rows, rows', id) && p in m && p in rows && Complete(m, rows, p)
    requires p == id ==> Complete(m, rows', id)
    ensures Complete(m, rows', p)
  {
  }

  lemma SkippingKeeps(f: Flow, v: Verdicts, m: Plan, st: State, id: string)
    requires PlanOf(f, v, m) && Sound(f.init, m, st.rows) && id in st.rows && st.rows[id].status.Pending?
    requires Ready(st.rows, st.rows[id]) && ShouldSkip(f, st.rows, st.rows[id])
    ensures Sound(f.init, m, MarkStepSkipped(st, id).rows)
  {
    var rows' := MarkStepSkipped(st, id).rows;
    assert RowOk(f.init, m, st.rows, id);
    if id !in f.init {
      ChildInputs(f, v, m, st.rows, id);
    } else {
      SkipIsMeant(f, v, m, st.rows, id);
      DepsSurvive(st.rows, rows', id, st.rows[id]);
      SettledRow(f.init, m, st.rows, rows', id);
    }
  }

  /** What running the row is meant to give. */
  ghost predicate OutcomeMeant(init: Ledger, m: Plan, id: string, o: Outcome) {
    if id in init then
      id in m && m[id].items == [] && m[id].verdict == (if o.Done? then Yields(o.output) else Fails(o.reason))
    else
      ParentOf(id) in m && IndexOf(id) < |m[ParentOf(id)].outcomes| && o == m[ParentOf(id)].outcomes[IndexOf(id)]
  }

  /** The row `id` finishes with the outcome `o`; nothing else changes. */
  ghost predicate Settles(rows: Ledger, rows': Ledger, id: string, o: Outcome) {
    && OneRow(rows, rows', id) && rows'.Keys == rows.Keys
    && rows'[id] == rows[id].(
         status := if o.Done? then Succeeded else Failed,
         output := if o.Done? then o.output else Some(o.reason),
         finishedAt := rows'[id].finishedAt)
  }

  lemma SettleShape(st: State, id: string, o: Outcome)
    requires id in st.rows && !Terminal(st.rows[id].status)
    ensures Settles(st.rows, Settle(st, id, o).rows, id, o)
  {
  }

  lemma SettlesKeeps(init: Ledger, m: Plan, rows: Ledger, rows': Ledger, id: string, o: Outcome)
    requires Sound(init, m, rows) && Settles(rows, rows', id, o) && AllSucceeded(rows, rows[id])
    requires OutcomeMeant(init, m, id, o)
    ensures Sound(init, m, rows')
  {
    assert RowOk(init, m, rows, id);
    DepsSurvive(rows, rows', id, rows[id]);
    assert RowOk(init, m, rows', id);
    SettledRow(init, m, rows, rows', id);
  }

  /** Settling a row by the outcome it is meant to have. */
  lemma SettleKeeps(init: Ledger, m: Plan, st: State, id: string, o: Outcome)
    requires Sound(init, m, st.rows) && id in st.rows && !Terminal(st.rows[id].status)
    requires AllSucceeded(st.rows, st.rows[id]) && OutcomeMeant(init, m, id, o)
    ensures Sound(init, m, Settle(st, id, o).rows)
  {
    SettleShape(st, id, o);
    SettlesKeeps(init, m, st.rows, Settle(st, id, o).rows, id, o);
  }

  /** Exactly the children of `id` appear, and `id` becomes expanded. */
  ghost predicate Expands(rows: Ledger, rows': Ledger, id: string, items: seq<Value>) {
    && OneRow(rows, rows', id)
    && rows'[id] == rows[id].(status := Expanded)
    && (forall i :: 0 <= i < |items| ==> ChildId(id, i) in rows')
    && (forall k :: k in rows' && k !in rows ==>
                    exists i :: 0 <= i < |items| && k == ChildId(id, i) && rows'[k] == ChildRow(rows[id], i, items[i]))
  }

  lemma ExpandShape(st: State, id: string, items: seq<Value>)
    requires id in st.rows && st.rows[id].stepId == id && st.rows[id].status.Pending?
    ensures Expands(st.rows, ExpandMapStep(st, id, items).rows, id, items)
  {
    var rows, rows' := st.rows, ExpandMapStep(st, id, items).rows;
    var children := ChildRows(rows[id], items);
    InsertRowsEffect(rows, children);
    forall i | 0 <= i < |items| ensures ChildId(id, i) in rows' {
      assert children[i].stepId in rows';
    }
    forall k | k in rows' && k !in rows
      ensures exists i :: 0 <= i < |items| && k == ChildId(id, i) && rows'[k] == ChildRow(rows[id], i, items[i])
    {
      var i :| 0 <= i < |children| && children[i].stepId == k && InsertRows(rows, children)[k] == children[i];
      assert k == ChildId(id, i);
    }
  }

  lemma NewChildOk(init: Ledger, m: Plan, rows: Ledger, rows': Ledger, id: string, i: nat)
    requires ClosedSpec(init) && ShapedPlan(m) && m.Keys == init.Keys
    requires id in init && id in rows && Static(rows[id]) == init[id]
    requires Expands(rows, rows', id, m[id].items) && i < |m[id].items|
    requires rows'[ChildId(id, i)] == ChildRow(rows[id], i, m[id].items[i])
    ensures RowOk(init, m, rows', ChildId(id, i))
  {
    ChildIdParts(id, i);
    assert ChildRow(rows[id], i, m[id].items[i]) == ChildRow(init[id], i, m[id].items[i]);
  }

  lemma ExpandsKeeps(init: Ledger, m: Plan, rows: Ledger, rows': Ledger, id: string)
    requires Sound(init, m, rows) && id in init && m[id].starts && m[id].items != []
    requires Expands(rows, rows', id, m[id].items) && AllSucceeded(rows, rows[id])
    ensures Sound(init, m, rows')
  {
    assert RowOk(init, m, rows, id);
    DepsSurvive(rows, rows', id, rows[id]);
    forall k | k in rows' ensures RowOk(init, m, rows', k) {
      if k in rows {
        if k != id {
          assert RowOk(init, m, rows, k);
          OtherRowsStayOk(init, m, rows, rows', id, k);
        }
      } else {
        var i :| 0 <= i < |m[id].items| && k == ChildId(id, i) && rows'[k] == ChildRow(rows[id], i, m[id].items[i]);
        NewChildOk(init, m, rows, rows', id, i);
      }
    }
    forall p | p in init ensures Complete(m, rows', p) {
      assert Complete(m, rows, p);
    }
  }

  lemma ExpandingKeeps(f: Flow, v: Verdicts, m: Plan, st: State, id: string)
    requires PlanOf(f, v, m) && Sound(f.init, m, st.rows) && Startable(f, st.rows, id) && st.rows[id].mapRef.Some?
    ensures Sound(f.init, m, Expand(f, st, id, BuildDeps(st.rows[id].dependsOn, Outputs(st.rows))).rows)
  {
    if id !in f.init {
      ChildInputs(f, v, m, st.rows, id);
    } else {
      StartableDeps(f, v, m, st.rows, id);
      SameDeps(f.init, m, st.rows, id);
      var deps := m[id].deps;
      assert MapItems(f, st.rows[id], deps) == MapItems(f, f.init[id], deps);
      ExpandIsMeant(f, v, m, id);
      match MapItems(f, f.init[id], deps) {
        case None => SettleKeeps(f.init, m, st, id, Fail("map_ref_not_array"));
        case Some(items) =>
          if items == [] {
            SettleKeeps(f.init, m, st, id, Done(Some("[]")));
          } else if |items| > MAX_MAP_FANOUT {
            SettleKeeps(f.init, m, st, id, Fail("map_fanout_too_large"));
          } else {
            ExpandShape(st, id, items);
            ExpandsKeeps(f.init, m, st.rows, ExpandMapStep(st, id, items).rows, id);
          }
      }
    }
  }

  /** What expanding a step that starts is meant to give. */
  lemma ExpandIsMeant(f: Flow, v: Verdicts, m: Plan, id: string)
    requires PlanOf(f, v, m) && id in f.init && m[id].starts && f.init[id].mapRef.Some?
    ensures match MapItems(f, f.init[id], m[id].deps)
            case None => OutcomeMeant(f.init, m, id, Fail("map_ref_not_array"))
            case Some(items) =>
              if items == [] then OutcomeMeant(f.init, m, id, Done(Some("[]")))
              else if |items| > MAX_MAP_FANOUT then OutcomeMeant(f.init, m, id, Fail("map_fanout_too_large"))
              else m[id].items == items
  {
    VerdictOfStart(f, v, m, id);
    assert MeantBy(f, v, m, id);
  }

  lemma RunIsMeant(f: Flow, v: Verdicts, m: Plan, rows: Ledger, id: string)
    requires PlanOf(f, v, m) && Sound(f.init, m, rows) && id in rows && rows[id].mapRef.None?
    requires AllSucceeded(rows, rows[id]) && (id in f.init ==> m[id].starts)
    ensures OutcomeMeant(f.init, m, id, RunOutcome(f.w, rows[id].scriptId, InputOf(f, rows, rows[id]), rows[id].retries))
  {
    var r := rows[id];
    assert RowOk(f.init, m, rows, id);
    if id in f.init {
      SameDeps(f.init, m, rows, id);
      SucceededDeps(f, v, m, rows, id);
      VerdictOfStart(f, v, m, id);
      assert MeantBy(f, v, m, id);
      assert InputOf(f, rows, r) == StepInput(f.input, m[id].deps, f.init[id].input);
      assert RunOutcome(f.w, r.scriptId, InputOf(f, rows, r), r.retries)
          == RunOutcome(f.w, f.init[id].scriptId, StepInput(f.input, m[id].deps, f.init[id].input), f.init[id].retries);
    } else {
      var p, i := ParentOf(id), IndexOf(id);
      ChildInputs(f, v, m, rows, id);
      assert MeantBy(f, v, m, p);
      assert InputOf(f, rows, r) == StepInput(f.input, m[p].deps, m[p].items[i]);
      assert Static(r).scriptId == r.scriptId == f.init[p].scriptId;
      assert m[p].outcomes[i] == ChildOutcome(f, f.init[p], m[p].deps, m[p].items[i]);
    }
  }

  lemma NoAttempt(w: World, scriptId: int, x: Value, y: Value, retries: Option<int>)
    requires !w.script(scriptId).Runnable? || AttemptBudget(retries) == 0
    ensures RunOutcome(w, scriptId, x, retries) == RunOutcome(w, scriptId, y, retries)
  {
  }

  lemma LaunchingKeeps(f: Flow, v: Verdicts, m: Plan, st: State, id: string)
    requires PlanOf(f, v, m) && Sound(f.init, m, st.rows) && Startable(f, st.rows, id) && st.rows[id].mapRef.None?
    ensures Sound(f.init, m, Launch(f, st, id).rows)
  {
    var r := st.rows[id];
    StartableDeps(f, v, m, st.rows, id);
    if !f.w.script(r.scriptId).Runnable? || AttemptBudget(r.retries) == 0 {
      RunIsMeant(f, v, m, st.rows, id);
      NoAttempt(f.w, r.scriptId, Null, InputOf(f, st.rows, r), r.retries);
      SettleKeeps(f.init, m, st, id, RunOutcome(f.w, r.scriptId, Null, r.retries));
    } else {
      RunningKeeps(f.init, m, st, id);
    }
  }

  lemma RunningKeeps(init: Ledger, m: Plan, st: State, id: string)
    requires Sound(init, m, st.rows) && id in st.rows && st.rows[id].status.Pending? && st.rows[id].mapRef.None?
    requires AllSucceeded(st.rows, st.rows[id]) && (id in init ==> m[id].starts)
    ensures Sound(init, m, SetStepRunning(st, id).rows)
  {
    var rows' := SetStepRunning(st, id).rows;
    assert RowOk(init, m, st.rows, id);
    DepsSurvive(st.rows, rows', id, st.rows[id]);
    SettledRow(init, m, st.rows, rows', id);
  }

  lemma FinishingKeeps(f: Flow, v: Verdicts, m: Plan, st: State, id: string)
    requires PlanOf(f, v, m) && Sound(f.init, m, st.rows) && id in st.rows && st.rows[id].status.Running?
    ensures Sound(f.init, m, Settle(st, id, RunOutcome(f.w, st.rows[id].scriptId, InputOf(f, st.rows, st.rows[id]),
                                                       st.rows[id].retries)).rows)
  {
    var r := st.rows[id];
    assert RowOk(f.init, m, st.rows, id);
    if id !in f.init {
      DepsOfRow(f.init, m, st.rows, id);
      ChildInputs(f, v, m, st.rows, id);
    }
    RunIsMeant(f, v, m, st.rows, id);
    SettleKeeps(f.init, m, st, id, RunOutcome(f.w, r.scriptId, InputOf(f, st.rows, r), r.retries));
  }

  lemma ChildRowOfIndex(init: Ledger, m: Plan, rows: Ledger, p: string, i: nat)
    requires Sound(init, m, rows) && p in init && i < |m[p].items| && ChildId(p, i) in rows
    ensures ChildId(p, i) !in init && ParentOf(ChildId(p, i)) == p && IndexOf(ChildId(p, i)) == i
    ensures rows[ChildId(p, i)].stepId == ChildId(p, i) && ChildDid(rows[ChildId(p, i)], m[p].outcomes[i])
  {
    ChildIdParts(p, i);
    assert RowOk(init, m, rows, ChildId(p, i));
    assert Static(rows[ChildId(p, i)]).stepId == ChildId(init[p].stepId, i);
  }

  /** The rows named after an opened step are exactly its children. */
  lemma OpenedHasChildren(init: Ledger, m: Plan, rows: Ledger, p: string)
    requires Sound(init, m, rows) && p in init && Opened(rows[p].status) && m[p].items != []
    ensures HasChildren(rows, p, |m[p].items|)
  {
    assert Complete(m, rows, p);
    forall i | 0 <= i < |m[p].items| ensures ChildId(p, i) in rows && rows[ChildId(p, i)].stepId == ChildId(p, i) {
      ChildRowOfIndex(init, m, rows, p, i);
    }
    forall id | id in rows && p + "#" <= id ensures exists i :: 0 <= i < |m[p].items| && id == ChildId(p, i) {
      PrefixNamesParent(p, id);
      assert id[|p|] == '#';
      assert RowOk(init, m, rows, id);
    }
  }

  function AggOutcome(agg: Agg): Outcome {
    match agg
    case AggFailed => Fail("map_child_failed")
    case AggSucceeded(output) => Done(Some(output))
  }

  lemma AggregateIsMapVerdict(f: Flow, rows: Ledger, id: string, deps: Value, items: seq<Value>, outcomes: seq<Outcome>)
    requires id in f.init && 0 < |items| <= MAX_MAP_FANOUT && HasChildren(rows, id, |items|)
    requires outcomes == seq(|items|, i requires 0 <= i < |items| => ChildOutcome(f, f.init[id], deps, items[i]))
    requires forall i :: 0 <= i < |items| ==> ChildDid(rows[ChildId(id, i)], outcomes[i])
    requires !SomeChild(rows, id, |items|, Active)
    ensures MapVerdict(f, f.init[id], deps, items) ==
            if SomeChild(rows, id, |items|, (s: Status) => s.Failed?) then Fails("map_child_failed")
            else Yields(Some(ToText(Arr(ChildSlots(rows, id, |items|)))))
  {
    var n, failed := |items|, (s: Status) => s.Failed?;
    forall i | 0 <= i < n
      ensures failed(rows[ChildId(id, i)].status) <==> outcomes[i].Fail?
      ensures !failed(rows[ChildId(id, i)].status) ==> Slot(rows[ChildId(id, i)]) == OutcomeSlot(outcomes[i])
    {
      assert ChildDid(rows[ChildId(id, i)], outcomes[i]);
    }
    assert SomeChild(rows, id, n, failed)
      <==> exists i :: 0 <= i < n && ChildOutcome(f, f.init[id], deps, items[i]).Fail? by {
      assert forall i :: 0 <= i < n ==> outcomes[i] == ChildOutcome(f, f.init[id], deps, items[i]);
    }
    if !SomeChild(rows, id, n, failed) {
      assert ChildSlots(rows, id, n)
          == seq(n, i requires 0 <= i < n => OutcomeSlot(ChildOutcome(f, f.init[id], deps, items[i])));
    }
  }

  lemma AggregateIsMeant(f: Flow, v: Verdicts, m: Plan, rows: Ledger, id: string, steps: seq<FlowStep>)
    requires PlanOf(f, v, m) && Sound(f.init, m, rows) && id in f.init && rows[id].status.Expanded?
    requires Enumerates(steps, rows) && AggregateChildren(steps, id).Some?
    ensures var o := AggOutcome(AggregateChildren(steps, id).value);
            m[id].verdict == (if o.Done? then Yields(o.output) else Fails(o.reason))
  {
    assert RowOk(f.init, m, rows, id);
    var items := m[id].items;
    OpenedHasChildren(f.init, m, rows, id);
    FanInAnyOrder(steps, rows, id, |items|);
    ExpandedVerdict(f, v, m, id);
    forall i | 0 <= i < |items| ensures ChildDid(rows[ChildId(id, i)], m[id].outcomes[i]) {
      ChildRowOfIndex(f.init, m, rows, id, i);
    }
    AggregateIsMapVerdict(f, rows, id, m[id].deps, items, m[id].outcomes);
  }

  lemma ExpandedVerdict(f: Flow, v: Verdicts, m: Plan, id: string)
    requires PlanOf(f, v, m) && id in f.init && m[id].starts && m[id].items != []
    ensures f.init[id].mapRef.Some? && |m[id].items| <= MAX_MAP_FANOUT
    ensures m[id].verdict == MapVerdict(f, f.init[id], m[id].deps, m[id].items)
    ensures m[id].outcomes == seq(|m[id].items|, i requires 0 <= i < |m[id].items| =>
                                                   ChildOutcome(f, f.init[id], m[id].deps, m[id].items[i]))
  {
    assert MeantBy(f, v, m, id);
    VerdictOfStart(f, v, m, id);
  }

  lemma AggregatingKeeps(f: Flow, v: Verdicts, m: Plan, st: State, id: string, steps: seq<FlowStep>)
    requires PlanOf(f, v, m) && Sound(f.init, m, st.rows) && id in st.rows && st.rows[id].status.Expanded?
    requires Enumerates(steps, st.rows) && AggregateChildren(steps, id).Some?
    ensures Sound(f.init, m, SettleAgg(st, id, AggregateChildren(steps, id).value).rows)
  {
    var agg := AggregateChildren(steps, id).value;
    assert RowOk(f.init, m, st.rows, id);
    AggregateIsMeant(f, v, m, st.rows, id, steps);
    assert SettleAgg(st, id, agg) == Settle(st, id, AggOutcome(agg));
    SettleShape(st, id, AggOutcome(agg));
    AggregatedRow(f.init, m, st.rows, Settle(st, id, AggOutcome(agg)).rows, id, AggOutcome(agg));
  }

  lemma AggregatedRow(init: Ledger, m: Plan, rows: Ledger, rows': Ledger, id: string, o: Outcome)
    requires Sound(init, m, rows) && id in init && rows[id].status.Expanded? && Settles(rows, rows', id, o)
    requires m[id].verdict == (if o.Done? then Yields(o.output) else Fails(o.reason))
    ensures Sound(init, m, rows')
  {
    assert RowOk(init, m, rows, id);
    assert Complete(m, rows, id);
    DepsSurvive(rows, rows', id, rows[id]);
    SettledRow(init, m, rows, rows', id);
  }

  lemma NextKeepsSound(f: Flow, v: Verdicts, m: Plan, st: State, e: Event, st': State)
    requires PlanOf(f, v, m) && Sound(f.init, m, st.rows) && Next(f, st, e, st')
    ensures Sound(f.init, m, st'.rows)
  {
    match e
    case Skipping(id) => SkippingKeeps(f, v, m, st, id);
    case Expanding(id) => ExpandingKeeps(f, v, m, st, id);
    case Launching(id) => LaunchingKeeps(f, v, m, st, id);
    case Finishing(id) => FinishingKeeps(f, v, m, st, id);
    case Aggregating(id) =>
      var steps :| Enumerates(steps, st.rows) && AggregateChildren(steps, id).Some?
                   && st' == SettleAgg(st, id, AggregateChildren(steps, id).value);
      AggregatingKeeps(f, v, m, st, id, steps);
  }

  lemma InitialIsSound(f: Flow, v: Verdicts, m: Plan)
    requires ValidFlow(f) && PlanOf(f, v, m)
    ensures Sound(f.init, m, f.init)
  {
    forall id | id in m ensures |m[id].outcomes| == |m[id].items| <= MAX_MAP_FANOUT {
      assert MeantBy(f, v, m, id);
    }
    forall id | id in f.init ensures RowOk(f.init, m, f.init, id) && Complete(m, f.init, id) {
    }
  }

  lemma {:induction false} ExecutionIsSound(f: Flow, v: Verdicts, m: Plan, trace: seq<State>)
    requires PlanOf(f, v, m) && Execution(f, trace) && Sound(f.init, m, trace[0].rows)
    ensures Sound(f.init, m, trace[|trace| - 1].rows)
  {
    if |trace| > 1 {
      var before, k := trace[..|trace| - 1], |trace| - 2;
      assert forall i {:trigger before[i]} :: 0 <= i < |before| - 1 ==> before[i] == trace[i] && before[i + 1] == trace[i + 1];
      ExecutionIsSound(f, v, m, before);
      assert CanStep(f, trace[k], trace[k + 1]);
      var e :| Next(f, trace[k], e, trace[k + 1]);
      NextKeepsSound(f, v, m, trace[k], e, trace[k + 1]);
    }
  }

  /** In every reachable ledger, a step that has started has all its dependencies succeeded, and a
      step that is done has the verdict, and the output, the flow means it to have. */
  lemma ReachableIsSound(f: Flow, v: Verdicts, m: Plan, st: State)
    requires ValidFlow(f) && PlanOf(f, v, m) && Reachable(f, st)
    ensures Sound(f.init, m, st.rows)
  {
    InitialIsSound(f, v, m);
    var trace :| Execution(f, trace) && trace[0] == State(f.init, 0) && trace[|trace| - 1] == st;
    ExecutionIsSound(f, v, m, trace);
  }
}
