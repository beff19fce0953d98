/** Flow specs: `validate_spec` (flow.rs) and the first ledger of a run, `insert_flow_run` (db.rs). */
module FlowSpec {
  import opened Wrappers
  import opened Json
  import opened DepGraph
  import opened FlowLedger
  import opened FanOut
  import opened FlowSystem

  datatype SpecError =
    | StepsMissing
    | StepsEmpty
    | IdMissing
    | DuplicateId(id: string)
    | HashInId(id: string)
    | ScriptIdMissing(id: string)
    | BadField(id: string, field: string)
    | UnknownDependency(id: string, dep: string)
    | SpecCycle

  const WHEN_OPS: set<string> := {"eq", "ne", "contains", "truthy", "falsy"}

  // ---- reading a step of the spec ------------------------------------------------------------

  function StepsOf(spec: Value): Option<seq<Value>> {
    match spec.Get("steps")
    case Some(Arr(steps)) => Some(steps)
    case _ => None
  }

  function IdOf(st: Value): string {
    StrField(st, "id", "")
  }

  function Strings(items: seq<Value>): seq<string> {
    if items == [] then []
    else (if items[0].Str? then [items[0].s] else []) + Strings(items[1..])
  }

  /** Entries of `depends_on` that are not strings are dropped without a word. */
  function DependenciesOf(st: Value): seq<string> {
    match st.Get("depends_on")
    case Some(Arr(items)) => Strings(items)
    case _ => []
  }

  predicate IfPresent(st: Value, field: string, ok: Value -> bool) {
    match st.Get(field)
    case Some(v) => ok(v)
    case None => true
  }

  predicate GateOk(gate: Value) {
    (match gate.Get("ref") case Some(Str(_)) => true case _ => false)
    && StrField(gate, "op", "truthy") in WHEN_OPS
  }

  predicate FieldOk(st: Value, field: string) {
    match field
    case "compensate" => IfPresent(st, field, (v: Value) => v.AsI64().Some?)
    case "map" => IfPresent(st, field, (v: Value) => v.Str?)
    case "retries" => IfPresent(st, field, (v: Value) => v.Num? && v.num.PosInt?)
    case "cache" => IfPresent(st, field, (v: Value) => v.Bool?)
    case "when" => IfPresent(st, field, GateOk)
    case _ => true
  }

  const CHECKED_FIELDS: seq<string> := ["compensate", "map", "retries", "cache", "when"]

  predicate HasId(st: Value) {
    match st.Get("id") case Some(Str(_)) => true case _ => false
  }

  predicate HasScript(st: Value) {
    match st.Get("script_id") case Some(v) => v.AsI64().Some? case None => false
  }

  ghost predicate StepOk(st: Value) {
    HasId(st) && NoHash(IdOf(st)) && HasScript(st) && forall f :: f in CHECKED_FIELDS ==> FieldOk(st, f)
  }

  // ---- the whole spec ----------------------------------------------------------------------------

  function Ids(steps: seq<Value>): (ids: seq<string>)
    ensures |ids| == |steps| && forall i :: 0 <= i < |steps| ==> ids[i] == IdOf(steps[i])
  {
    if steps == [] then [] else Ids(steps[..|steps| - 1]) + [IdOf(steps[|steps| - 1])]
  }

  function EdgesOf(steps: seq<Value>): Graph {
    if steps == [] then map[]
    else
      var last := steps[|steps| - 1];
      EdgesOf(steps[..|steps| - 1])[IdOf(last) := DependenciesOf(last)]
  }

  ghost predicate DependenciesKnown(steps: seq<Value>) {
    forall id, d :: Edge(EdgesOf(steps), id, d) ==> d in Ids(steps)
  }

  /** A spec the engine can drive: well-typed steps with distinct ids, dependencies among the steps, and
      an order in which every step comes after its dependencies. */
  ghost predicate Acceptable(spec: Value) {
    match StepsOf(spec)
    case None => false
    case Some(steps) =>
      && steps != [] && (forall st :: st in steps ==> StepOk(st)) && Distinct(Ids(steps))
      && DependenciesKnown(steps) && exists order :: TopoOrder(EdgesOf(steps), order)
  }

  // ---- the same, as JSON ---------------------------------------------------------------------------

  /** `n` as serde_json holds a 64-bit integer. */
  ghost predicate HoldsInt(v: Value, n: int) {
    -0x8000_0000_0000_0000 <= n < 0x8000_0000_0000_0000 && v == Num(if n >= 0 then PosInt(n) else NegInt(-1 - n))
  }

  ghost predicate IsInt(v: Value) {
    exists n :: HoldsInt(v, n)
  }

  ghost predicate GoodGate(gate: Value) {
    && (exists ref :: gate.Get("ref") == Some(Str(ref)))
    && (forall op :: gate.Get("op") == Some(Str(op)) ==>
          op == "eq" || op == "ne" || op == "contains" || op == "truthy" || op == "falsy")
  }

  /** A step with an id and a script, each of whose other fields has the right type if it is there. */
  ghost predicate GoodStep(st: Value) {
    && (exists id :: st.Get("id") == Some(Str(id)) && '#' !in id)
    && (exists v :: st.Get("script_id") == Some(v) && IsInt(v))
    && (forall v :: st.Get("compensate") == Some(v) ==> IsInt(v))
    && (forall v :: st.Get("map") == Some(v) ==> v.Str?)
    && (forall v :: st.Get("retries") == Some(v) ==> v.Num? && v.num.PosInt?)
    && (forall v :: st.Get("cache") == Some(v) ==> v.Bool?)
    && (forall v :: st.Get("when") == Some(v) ==> GoodGate(v))
  }

  /** `d` stands in the array under "depends_on". */
  ghost predicate DependsOn(st: Value, d: string) {
    exists items :: st.Get("depends_on") == Some(Arr(items)) && Str(d) in items
  }

  ghost predicate Named(st: Value, id: string) {
    st.Get("id") == Some(Str(id))
  }

  ghost predicate KnownDependencies(steps: seq<Value>) {
    forall st, d :: st in steps && DependsOn(st, d) ==> exists other :: other in steps && Named(other, d)
  }

  /** All steps, each once, and after everything it depends on. */
  ghost predicate StepOrder(steps: seq<Value>, order: seq<string>) {
    && Distinct(order)
    && (forall st, id :: st in steps && Named(st, id) ==> id in order)
    && (forall k, st, d :: 0 <= k < |order| && st in steps && Named(st, order[k]) && DependsOn(st, d) ==> d in order[..k])
  }

  ghost predicate GoodSteps(steps: seq<Value>) {
    && steps != [] && (forall st :: st in steps ==> GoodStep(st))
    && (forall i, j :: 0 <= i < j < |steps| ==> steps[i].Get("id") != steps[j].Get("id"))
    && KnownDependencies(steps) && exists order :: StepOrder(steps, order)
  }

  /** A spec to run: good steps with different ids, that depend on each other without a cycle. */
  ghost predicate GoodSpec(spec: Value) {
    exists steps :: spec.Get("steps") == Some(Arr(steps)) && GoodSteps(steps)
  }

  lemma {:induction false} StringsAre(items: seq<Value>)
    ensures forall d :: d in Strings(items) <==> Str(d) in items
  {
    if items != [] {
      StringsAre(items[1..]);
      assert items == [items[0]] + items[1..];
    }
  }

  /** No entry that is a string is lost. */
  lemma DependenciesAre(st: Value)
    ensures forall d :: d in DependenciesOf(st) <==> DependsOn(st, d)
  {
    match st.Get("depends_on")
    case Some(Arr(items)) => StringsAre(items);
    case _ =>
  }

  lemma IntIsRead(v: Value)
    ensures forall n :: v.AsI64() == Some(n) <==> HoldsInt(v, n)
    ensures v.AsI64().Some? <==> IsInt(v)
  {
    assert v.AsI64().Some? ==> HoldsInt(v, v.AsI64().value);
  }

  lemma GateIsGood(gate: Value)
    ensures GateOk(gate) <==> GoodGate(gate)
  {
    FieldIsRead(gate, "op", "truthy");
    assert Reads(gate, "op", "truthy", StrField(gate, "op", "truthy"));
  }

  lemma FieldIsGood(st: Value, field: string)
    ensures FieldOk(st, field) <==>
            forall v :: st.Get(field) == Some(v) ==>
              && (field == "compensate" ==> IsInt(v)) && (field == "map" ==> v.Str?)
              && (field == "retries" ==> v.Num? && v.num.PosInt?) && (field == "cache" ==> v.Bool?)
              && (field == "when" ==> GoodGate(v))
  {
    if st.Get(field).Some? {
      IntIsRead(st.Get(field).value);
      GateIsGood(st.Get(field).value);
    }
  }

  lemma FieldsAre(st: Value)
    ensures (forall f :: f in CHECKED_FIELDS ==> FieldOk(st, f)) <==>
            FieldOk(st, "compensate") && FieldOk(st, "map") && FieldOk(st, "retries") && FieldOk(st, "cache") && FieldOk(st, "when")
  {
    assert CHECKED_FIELDS[0] == "compensate" && CHECKED_FIELDS[1] == "map" && CHECKED_FIELDS[2] == "retries";
    assert CHECKED_FIELDS[3] == "cache" && CHECKED_FIELDS[4] == "when";
  }

  lemma StepIsGood(st: Value)
    ensures StepOk(st) <==> GoodStep(st)
    ensures StepOk(st) ==> Named(st, IdOf(st))
  {
    FieldsAre(st);
    FieldIsGood(st, "compensate");
    FieldIsGood(st, "map");
    FieldIsGood(st, "retries");
    FieldIsGood(st, "cache");
    FieldIsGood(st, "when");
    if st.Get("script_id").Some? { IntIsRead(st.Get("script_id").value); }
  }

  /** The edges are the dependencies of the steps. */
  lemma {:induction false} EdgesAre(steps: seq<Value>)
    requires Distinct(Ids(steps))
    ensures forall i, d :: 0 <= i < |steps| ==> (Edge(EdgesOf(steps), IdOf(steps[i]), d) <==> DependsOn(steps[i], d))
  {
    if steps != [] {
      var n := |steps| - 1;
      Advance(steps, n);
      assert steps[..n + 1] == steps;
      EdgesAre(steps[..n]);
      DependenciesAre(steps[n]);
      forall i, d | 0 <= i < |steps| ensures Edge(EdgesOf(steps), IdOf(steps[i]), d) <==> DependsOn(steps[i], d) {
        if i < n { assert steps[..n][i] == steps[i] && Ids(steps)[i] != Ids(steps)[n]; }
      }
    }
  }

  lemma NamedById(steps: seq<Value>)
    requires forall st :: st in steps ==> StepOk(st)
    ensures forall st, id :: st in steps ==> (Named(st, id) <==> IdOf(st) == id)
    ensures forall id :: id in Ids(steps) <==> exists st :: st in steps && Named(st, id)
  {
    forall st | st in steps ensures Named(st, IdOf(st)) { StepIsGood(st); }
    forall id ensures id in Ids(steps) <==> exists st :: st in steps && Named(st, id) {
      if id in Ids(steps) {
        var i :| 0 <= i < |steps| && Ids(steps)[i] == id;
        assert Named(steps[i], id);
      }
      if st :| st in steps && Named(st, id) {
        var i :| 0 <= i < |steps| && steps[i] == st;
        assert Ids(steps)[i] == id;
      }
    }
  }

  lemma DependenciesAreKnown(steps: seq<Value>)
    requires (forall st :: st in steps ==> StepOk(st)) && Distinct(Ids(steps))
    ensures DependenciesKnown(steps) <==> KnownDependencies(steps)
  {
    EdgesAre(steps);
    EdgeKeys(steps);
    NamedById(steps);
    forall id, d | Edge(EdgesOf(steps), id, d) ensures exists st :: st in steps && IdOf(st) == id && DependsOn(st, d) {
      var i :| 0 <= i < |steps| && Ids(steps)[i] == id;
      assert DependsOn(steps[i], d);
    }
    forall st, d | st in steps && DependsOn(st, d) ensures Edge(EdgesOf(steps), IdOf(st), d) {
      var i :| 0 <= i < |steps| && steps[i] == st;
    }
  }

  lemma OrdersAreAlike(steps: seq<Value>, order: seq<string>)
    requires (forall st :: st in steps ==> StepOk(st)) && Distinct(Ids(steps))
    ensures TopoOrder(EdgesOf(steps), order) <==> StepOrder(steps, order)
  {
    EdgesAre(steps);
    EdgeKeys(steps);
    NamedById(steps);
    forall k, d | 0 <= k < |order| && Edge(EdgesOf(steps), order[k], d)
      ensures exists st :: st in steps && Named(st, order[k]) && DependsOn(st, d)
    {
      var i :| 0 <= i < |steps| && Ids(steps)[i] == order[k];
      assert DependsOn(steps[i], d) && Named(steps[i], order[k]);
    }
    forall k, st, d | 0 <= k < |order| && st in steps && Named(st, order[k]) && DependsOn(st, d)
      ensures Edge(EdgesOf(steps), order[k], d)
    {
      var i :| 0 <= i < |steps| && steps[i] == st;
    }
  }

  lemma IdsDiffer(steps: seq<Value>)
    requires forall st :: st in steps ==> StepOk(st)
    ensures Distinct(Ids(steps)) <==> forall i, j :: 0 <= i < j < |steps| ==> steps[i].Get("id") != steps[j].Get("id")
  {
    NamedById(steps);
    forall i | 0 <= i < |steps| ensures steps[i].Get("id") == Some(Str(Ids(steps)[i])) { assert Named(steps[i], IdOf(steps[i])); }
  }

  /** Acceptable specs are the good ones. */
  lemma AcceptableIsGood(spec: Value)
    ensures Acceptable(spec) <==> GoodSpec(spec)
  {
    if StepsOf(spec).Some? {
      var steps := StepsOf(spec).value;
      forall st | st in steps ensures StepOk(st) <==> GoodStep(st) { StepIsGood(st); }
      if forall st :: st in steps ==> StepOk(st) {
        IdsDiffer(steps);
        if Distinct(Ids(steps)) {
          DependenciesAreKnown(steps);
          forall order ensures TopoOrder(EdgesOf(steps), order) <==> StepOrder(steps, order) { OrdersAreAlike(steps, order); }
        }
      }
      assert Acceptable(spec) <==> GoodSteps(steps);
    }
  }

  // ---- complaints ------------------------------------------------------------------------------------

  /** What each error says about the spec. */
  ghost predicate Diagnoses(e: SpecError, spec: Value) {
    match StepsOf(spec)
    case None => e.StepsMissing?
    case Some(steps) =>
      match e
      case StepsMissing => false
      case StepsEmpty => steps == []
      case IdMissing => exists st :: st in steps && !HasId(st)
      case DuplicateId(id) => id in Ids(steps) && !Distinct(Ids(steps))
      case HashInId(id) => id in Ids(steps) && !NoHash(id)
      case ScriptIdMissing(id) => exists st :: st in steps && IdOf(st) == id && !HasScript(st)
      case BadField(id, field) => exists st :: st in steps && IdOf(st) == id && field in CHECKED_FIELDS && !FieldOk(st, field)
      case UnknownDependency(id, dep) => Edge(EdgesOf(steps), id, dep) && dep !in Ids(steps)
      case SpecCycle => Cyclic(EdgesOf(steps))
  }

  /** No error is reported on an acceptable spec. */
  lemma DiagnosisRefutes(e: SpecError, spec: Value)
    requires Diagnoses(e, spec)
    ensures !Acceptable(spec)
  {
    if StepsOf(spec).Some? {
      var steps := StepsOf(spec).value;
      assert forall i :: 0 <= i < |steps| ==> steps[i] in steps;
      if order :| TopoOrder(EdgesOf(steps), order) {
        TopoOrderIsAcyclic(EdgesOf(steps), order);
      }
    }
  }

  lemma {:induction false} EdgeKeys(steps: seq<Value>)
    ensures forall id :: id in EdgesOf(steps) <==> id in Ids(steps)
  {
    if steps != [] {
      EdgeKeys(steps[..|steps| - 1]);
    }
  }

  lemma Advance(steps: seq<Value>, i: nat)
    requires i < |steps|
    ensures Ids(steps[..i + 1]) == Ids(steps[..i]) + [IdOf(steps[i])]
    ensures EdgesOf(steps[..i + 1]) == EdgesOf(steps[..i])[IdOf(steps[i]) := DependenciesOf(steps[i])]
  {
    assert steps[..i + 1][..i] == steps[..i];
  }

  /** The field checks of one step, in the order the source makes them. */
  method CheckStep(st: Value, ids: seq<string>) returns (r: Result<string, SpecError>)
    ensures r.Ok? <==> StepOk(st) && IdOf(st) !in ids
    ensures r.Ok? ==> r.value == IdOf(st)
    ensures r.Err? ==> StepFault(r.error, st, ids)
  {
    if !HasId(st) { return Err(IdMissing); }
    var id := IdOf(st);
    if id in ids { return Err(DuplicateId(id)); }
    if '#' in id { return Err(HashInId(id)); }
    if !HasScript(st) { return Err(ScriptIdMissing(id)); }
    for k := 0 to |CHECKED_FIELDS|
      invariant forall j :: 0 <= j < k ==> FieldOk(st, CHECKED_FIELDS[j])
    {
      if !FieldOk(st, CHECKED_FIELDS[k]) { return Err(BadField(id, CHECKED_FIELDS[k])); }
    }
    return Ok(id);
  }

  ghost predicate StepFault(e: SpecError, st: Value, ids: seq<string>) {
    match e
    case IdMissing => !HasId(st)
    case DuplicateId(id) => id == IdOf(st) && id in ids
    case HashInId(id) => id == IdOf(st) && !NoHash(id)
    case ScriptIdMissing(id) => id == IdOf(st) && !HasScript(st)
    case BadField(id, field) => id == IdOf(st) && field in CHECKED_FIELDS && !FieldOk(st, field)
    case _ => false
  }

  lemma FaultDiagnoses(e: SpecError, spec: Value, i: nat)
    requires StepsOf(spec).Some? && i < |StepsOf(spec).value|
    requires StepFault(e, StepsOf(spec).value[i], Ids(StepsOf(spec).value[..i]))
    ensures Diagnoses(e, spec)
  {
    var steps := StepsOf(spec).value;
    var st := steps[i];
    assert st in steps && Ids(steps)[i] == IdOf(st);
    if e.DuplicateId? { Clash(steps, i); }
  }

  /** `validate_spec`: accepts exactly the specs the engine can drive, and every complaint is true. */
  method ValidateSpec(spec: Value) returns (r: Result<(), SpecError>)
    ensures r.Ok? <==> Acceptable(spec)
    ensures r.Ok? <==> GoodSpec(spec)
    ensures r.Err? ==> Diagnoses(r.error, spec)
  {
    AcceptableIsGood(spec);
    if StepsOf(spec).None? { return Err(StepsMissing); }
    var steps := StepsOf(spec).value;
    if steps == [] { return Err(StepsEmpty); }
    var ids, edges;
    r, ids, edges := CollectSteps(spec, steps);
    if r.Ok? {
      r := CheckGraph(spec, ids, edges);
    }
    if r.Err? { DiagnosisRefutes(r.error, spec); }
  }

  /** The first loop: check the steps one by one, and note their ids and dependencies. */
  method CollectSteps(spec: Value, steps: seq<Value>) returns (r: Result<(), SpecError>, ids: seq<string>, edges: Graph)
    requires StepsOf(spec) == Some(steps)
    ensures r.Ok? ==> ids == Ids(steps) && edges == EdgesOf(steps) && Distinct(ids) && forall st :: st in steps ==> StepOk(st)
    ensures r.Err? ==> Diagnoses(r.error, spec)
  {
    ids, edges := [], map[];
    for i := 0 to |steps|
      invariant ids == Ids(steps[..i])
      invariant edges == EdgesOf(steps[..i])
      invariant Distinct(ids)
      invariant forall j :: 0 <= j < i ==> StepOk(steps[j])
    {
      var id := CheckStep(steps[i], ids);
      if id.Err? {
        FaultDiagnoses(id.error, spec, i);
        return Err(id.error), ids, edges;
      }
      Advance(steps, i);
      edges := edges[id.value := DependenciesOf(steps[i])];
      ids := ids + [id.value];
    }
    assert steps[..|steps|] == steps;
    return Ok(()), ids, edges;
  }

  /** The checks across steps: dependencies among the steps, and no cycle. */
  method CheckGraph(spec: Value, ids: seq<string>, edges: Graph) returns (r: Result<(), SpecError>)
    requires StepsOf(spec).Some? && ids == Ids(StepsOf(spec).value) && edges == EdgesOf(StepsOf(spec).value)
    ensures r.Ok? ==> DependenciesKnown(StepsOf(spec).value) && exists order :: TopoOrder(edges, order)
    ensures r.Err? ==> Diagnoses(r.error, spec)
  {
    var unknown := FindUnknown(edges, ids);
    if unknown.Some? { return Err(unknown.value); }
    var finder := new CycleFinder(edges);
    var cyclic := finder.HasCycle();
    return if cyclic then Err(SpecCycle) else Ok(());
  }

  /** The dependency check, over the keys of a hash map in any order. */
  method FindUnknown(edges: Graph, ids: seq<string>) returns (e: Option<SpecError>)
    ensures e.None? <==> forall id, d :: Edge(edges, id, d) ==> d in ids
    ensures e.Some? ==> e.value.UnknownDependency? && Edge(edges, e.value.id, e.value.dep) && e.value.dep !in ids
  {
    var rest := edges.Keys;
    while rest != {}
      invariant rest <= edges.Keys
      invariant forall id, d :: Edge(edges, id, d) && id !in rest ==> d in ids
      decreases rest
    {
      var id :| id in rest;
      for k := 0 to |edges[id]|
        invariant forall j :: 0 <= j < k ==> edges[id][j] in ids
      {
        var d := edges[id][k];
        if d !in ids {
          assert Edge(edges, id, d);
          return Some(UnknownDependency(id, d));
        }
      }
      rest := rest - {id};
    }
    return None;
  }

  // ---- the first ledger of a run -----------------------------------------------------------------

  function OptStr(v: Option<Value>): Option<string> {
    match v case Some(Str(s)) => Some(s) case _ => None
  }

  function OptI64(v: Option<Value>): Option<int> {
    match v case Some(n) => n.AsI64() case None => None
  }

  /** The row `insert_flow_run` writes for a step. */
  function SpecRow(st: Value): FlowStep {
    FlowStep(IdOf(st), OptI64(st.Get("script_id")).GetOr(0), st.Get("input").GetOr(Obj(map[])), DependenciesOf(st),
             Pending, None, st.Get("when"), OptStr(st.Get("map")), OptI64(st.Get("compensate")), false,
             OptI64(st.Get("retries")), None)
  }

  /** The row of a step, column by column. */
  ghost predicate RowOf(st: Value, r: FlowStep) {
    && Reads(st, "id", "", r.stepId)
    && (HoldsUnder(st, "script_id", r.scriptId) || (r.scriptId == 0 && !IntUnder(st, "script_id")))
    && (st.Get("input") == Some(r.input) || (st.Get("input") == None && r.input == Obj(map[])))
    && (forall d :: d in r.dependsOn <==> DependsOn(st, d))
    && r.whenCond == st.Get("when")
    && (forall ref :: r.mapRef == Some(ref) <==> st.Get("map") == Some(Str(ref)))
    && (forall n :: r.compensate == Some(n) <==> HoldsUnder(st, "compensate", n))
    && (forall n :: r.retries == Some(n) <==> HoldsUnder(st, "retries", n))
    && r.status == Pending && r.output == None && !r.compensated && r.finishedAt == None
  }

  ghost predicate HoldsUnder(st: Value, key: string, n: int) {
    exists v :: st.Get(key) == Some(v) && HoldsInt(v, n)
  }

  ghost predicate IntUnder(st: Value, key: string) {
    exists n :: HoldsUnder(st, key, n)
  }

  lemma ColumnIsRead(st: Value, key: string)
    ensures forall n :: OptI64(st.Get(key)) == Some(n) <==> HoldsUnder(st, key, n)
  {
    if st.Get(key).Some? { IntIsRead(st.Get(key).value); }
  }

  lemma RowIsRight(st: Value)
    ensures RowOf(st, SpecRow(st))
  {
    FieldIsRead(st, "id", "");
    ColumnIsRead(st, "script_id");
    ColumnIsRead(st, "compensate");
    ColumnIsRead(st, "retries");
    DependenciesAre(st);
  }

  ghost predicate HasStep(steps: seq<Value>, id: string, r: FlowStep) {
    r.stepId == id && exists st :: st in steps && RowOf(st, r)
  }

  ghost predicate HasRow(rows: Ledger, st: Value) {
    exists id :: id in rows && RowOf(st, rows[id])
  }

  /** One row for each step and none besides. */
  ghost predicate RowsOf(steps: seq<Value>, rows: Ledger) {
    (forall id :: id in rows ==> HasStep(steps, id, rows[id])) && forall st :: st in steps ==> HasRow(rows, st)
  }

  lemma {:induction false} RowAtId(steps: seq<Value>, i: nat)
    requires Distinct(Ids(steps)) && i < |steps|
    ensures IdOf(steps[i]) in LedgerOf(steps) && LedgerOf(steps)[IdOf(steps[i])] == SpecRow(steps[i])
  {
    var n := |steps| - 1;
    if i < n {
      Advance(steps, n);
      assert steps[..n + 1] == steps && steps[..n][i] == steps[i];
      RowAtId(steps[..n], i);
      assert Ids(steps)[i] != Ids(steps)[n];
    }
  }

  lemma StepHasRow(steps: seq<Value>, i: nat)
    requires Distinct(Ids(steps)) && i < |steps|
    ensures HasRow(LedgerOf(steps), steps[i])
  {
    RowAtId(steps, i);
    RowIsRight(steps[i]);
  }

  lemma RowsAreRight(steps: seq<Value>)
    requires Distinct(Ids(steps))
    ensures RowsOf(steps, LedgerOf(steps))
  {
    forall id | id in LedgerOf(steps) ensures HasStep(steps, id, LedgerOf(steps)[id]) {
      var st := LedgerRow(steps, id);
      RowIsRight(st);
    }
    forall st | st in steps ensures HasRow(LedgerOf(steps), st) {
      var i :| 0 <= i < |steps| && steps[i] == st;
      StepHasRow(steps, i);
    }
  }

  /** The array under "steps", none if there is no array. */
  ghost predicate StepsUnder(spec: Value, steps: seq<Value>) {
    spec.Get("steps") == Some(Arr(steps)) || (steps == [] && forall items :: spec.Get("steps") != Some(Arr(items)))
  }

  function LedgerOf(steps: seq<Value>): Ledger {
    if steps == [] then map[]
    else
      var last := steps[|steps| - 1];
      LedgerOf(steps[..|steps| - 1])[IdOf(last) := SpecRow(last)]
  }

  lemma Clash(steps: seq<Value>, i: nat)
    requires i < |steps| && IdOf(steps[i]) in Ids(steps[..i])
    ensures !Distinct(Ids(steps))
  {
    var j :| 0 <= j < i && Ids(steps[..i])[j] == IdOf(steps[i]);
    assert Ids(steps)[j] == IdOf(steps[..i][j]) == Ids(steps)[i];
  }

  /** The transaction that writes the steps: a second row with the same id violates the table's key. */
  method InsertFlowRun(spec: Value) returns (rows: Option<Ledger>)
    ensures rows.Some? <==> Distinct(Ids(StepsOf(spec).GetOr([])))
    ensures rows.Some? ==> rows.value == LedgerOf(StepsOf(spec).GetOr([]))
    ensures rows.Some? ==> forall steps :: StepsUnder(spec, steps) ==> RowsOf(steps, rows.value)
  {
    var steps := StepsOf(spec).GetOr([]);
    var tx: Ledger := map[];
    for i := 0 to |steps|
      invariant tx == LedgerOf(steps[..i]) && Distinct(Ids(steps[..i]))
    {
      LedgerKeys(steps[..i]);
      var row := SpecRow(steps[i]);
      if row.stepId in tx {
        Clash(steps, i);
        return None;
      }
      RowsGrow(steps, i);
      tx := tx[row.stepId := row];
    }
    assert steps[..|steps|] == steps;
    RowsAreRight(steps);
    return Some(tx);
  }

  lemma RowsGrow(steps: seq<Value>, i: nat)
    requires i < |steps| && Distinct(Ids(steps[..i])) && IdOf(steps[i]) !in Ids(steps[..i])
    ensures LedgerOf(steps[..i + 1]) == LedgerOf(steps[..i])[IdOf(steps[i]) := SpecRow(steps[i])]
    ensures Distinct(Ids(steps[..i + 1]))
  {
    assert steps[..i + 1][..i] == steps[..i];
    Advance(steps, i);
  }

  lemma {:induction false} LedgerKeys(steps: seq<Value>)
    ensures forall id :: id in LedgerOf(steps) <==> id in Ids(steps)
    ensures GraphOf(LedgerOf(steps)) == EdgesOf(steps)
  {
    if steps != [] {
      LedgerKeys(steps[..|steps| - 1]);
    }
  }

  lemma {:induction false} LedgerRow(steps: seq<Value>, id: string) returns (st: Value)
    requires id in LedgerOf(steps)
    ensures st in steps && IdOf(st) == id && LedgerOf(steps)[id] == SpecRow(st)
  {
    st := steps[|steps| - 1];
    if id != IdOf(st) {
      st := LedgerRow(steps[..|steps| - 1], id);
    }
  }

  /** An accepted spec makes a valid flow: the engine's guarantees apply to every run of it. */
  lemma AcceptedSpecIsValid(spec: Value, w: World, input: Value)
    requires Acceptable(spec)
    ensures ValidFlow(Flow(w, LedgerOf(StepsOf(spec).value), input))
  {
    var steps := StepsOf(spec).value;
    var init := LedgerOf(steps);
    LedgerKeys(steps);
    EdgeKeys(steps);
    forall id | id in init ensures NoHash(id) && init[id].stepId == id && Untouched(init[id]) {
      var st := LedgerRow(steps, id);
      assert StepOk(st);
    }
    forall id, d | id in init && d in init[id].dependsOn ensures d in init {
      assert Edge(EdgesOf(steps), id, d);
    }
  }
}
