/** The durable step ledger of a flow run and the pure helpers of the driver (flow.rs). */
module FlowLedger {
  import opened Wrappers
  import opened Decimal
  import opened Text
  import opened Json
  import opened JsonText

  /** More children than this and a map step fails instead of expanding. */
  const MAX_MAP_FANOUT: nat := 1000

  datatype Status = Pending | Running | Expanded | Succeeded | Failed | Skipped

  /** One row of `flow_steps`. */
  datatype FlowStep = FlowStep(
    stepId: string,
    scriptId: int,
    input: Value,
    dependsOn: seq<string>,
    status: Status,
    output: Option<string>,
    whenCond: Option<Value>,
    mapRef: Option<string>,
    compensate: Option<int>,
    compensated: bool,
    retries: Option<int>,
    finishedAt: Option<nat>)

  predicate Active(s: Status) {
    s.Pending? || s.Running? || s.Expanded?
  }

  /** The rows of one flow run, by step id (the table's unique key). */
  type Ledger = map<string, FlowStep>

  datatype ScriptState = Missing | UnknownRuntime | Runnable

  /** How one container run of a script ends; `output` is the last stdout line, if any. */
  datatype Attempt = Ran(output: Option<string>) | NotSucceeded

  /** Everything outside the driver: the JSON parser, the script registry, and the outcome of running a
      script on an input for the nth time. */
  datatype World = World(
    parse: string -> Option<Value>,
    script: int -> ScriptState,
    attempt: (int, Value, nat) -> Attempt)

  // ---- refs and gates --------------------------------------------------------------------

  /** A string that parses as JSON is decoded. */
  function Decode(w: World, v: Value): Value {
    if v.Str? then w.parse(v.s).GetOr(v) else v
  }

  function Descend(w: World, v: Value, parts: seq<string>): Option<Value>
    decreases parts
  {
    if parts == [] then Some(Decode(w, v))
    else
      match Decode(w, v).Get(parts[0])
      case None => None
      case Some(child) => Descend(w, child, parts[1..])
  }

  function ResolveRef(w: World, r: string, flowInput: Value, deps: Value): Option<Value> {
    var parts := Split(r, '.');
    if parts[0] == "flow_input" then Descend(w, flowInput, parts[1..])
    else if parts[0] == "deps" then Descend(w, deps, parts[1..])
    else None
  }

  function CoerceStr(v: Value): string {
    if v.Str? then v.s else ToText(v)
  }

  /** `as_f64() == 0.0`: no other double prints as these texts. */
  predicate IsZero(n: Number) {
    match n
    case PosInt(n) => n == 0
    case NegInt(_) => false
    case Float(text) => text == "0.0" || text == "-0.0"
  }

  predicate IsTruthy(v: Value) {
    match v
    case Null => false
    case Bool(b) => b
    case Num(n) => !IsZero(n)
    case Str(s) => s != "" && s != "false" && s != "0"
    case Arr(items) => items != []
    case Obj(fields) => fields != map[]
  }

  function StrField(v: Value, key: string, default: string): string {
    match v.Get(key)
    case Some(Str(s)) => s
    case _ => default
  }

  /** `s` is the string under `key`, or the default when there is none. */
  ghost predicate Reads(v: Value, key: string, default: string, s: string) {
    v.Get(key) == Some(Str(s)) || (s == default && forall t :: v.Get(key) != Some(Str(t)))
  }

  lemma FieldIsRead(v: Value, key: string, default: string)
    ensures forall s :: Reads(v, key, default, s) <==> s == StrField(v, key, default)
  {
  }

  predicate EvalWhen(w: World, cond: Value, flowInput: Value, deps: Value) {
    var actual := ResolveRef(w, StrField(cond, "ref", ""), flowInput, deps).GetOr(Null);
    var expected := cond.Get("value").GetOr(Null);
    match StrField(cond, "op", "truthy")
    case "eq" => CoerceStr(actual) == CoerceStr(expected)
    case "ne" => CoerceStr(actual) != CoerceStr(expected)
    case "contains" => Contains(CoerceStr(actual), CoerceStr(expected))
    case "falsy" => !IsTruthy(actual)
    case _ => IsTruthy(actual)
  }

  /** `{dep_id: output}` for the dependencies that have an output. */
  function BuildDeps(dependsOn: seq<string>, outputs: map<string, string>): Value {
    Obj(map d | d in dependsOn && d in outputs :: Str(outputs[d]))
  }

  /** What a step's container receives. */
  function StepInput(flowInput: Value, deps: Value, step: Value): Value {
    Obj(map["flow_input" := flowInput, "deps" := deps, "step" := step])
  }

  // ---- running a step ---------------------------------------------------------------------

  datatype Outcome = Done(output: Option<string>) | Fail(reason: string)

  /** `retries.unwrap_or(1).max(0) as u32 + 1`: the cast truncates and the sum wraps. */
  function AttemptBudget(retries: Option<int>): nat {
    var r := retries.GetOr(1);
    ((if r < 0 then 0 else r) % 0x1_0000_0000 + 1) % 0x1_0000_0000
  }

  /** The first of the attempts `from..=budget` that succeeds. */
  function FirstSuccess(w: World, scriptId: int, input: Value, from: nat, budget: nat): Outcome
    decreases budget + 1 - from
  {
    if from > budget then Fail("exhausted retries")
    else
      match w.attempt(scriptId, input, from)
      case Ran(output) => Done(output)
      case NotSucceeded => FirstSuccess(w, scriptId, input, from + 1, budget)
  }

  /** How `run_step` ends. */
  function RunOutcome(w: World, scriptId: int, input: Value, retries: Option<int>): Outcome {
    match w.script(scriptId)
    case Missing => Fail("script_not_found")
    case UnknownRuntime => Fail("unknown_runtime")
    case Runnable => FirstSuccess(w, scriptId, input, 1, AttemptBudget(retries))
  }

  // ---- map fan-out -------------------------------------------------------------------------

  function ChildId(parent: string, i: nat): string {
    parent + "#" + Dec(i)
  }

  ghost predicate NoHash(id: string) {
    '#' !in id
  }

  /** A child row as `expand_map_step` inserts it: the element as input, the parent's dependencies
      and script, and no gate, map, compensation or retry setting of its own. */
  function ChildRow(parent: FlowStep, i: nat, item: Value): FlowStep {
    FlowStep(ChildId(parent.stepId, i), parent.scriptId, item, parent.dependsOn, Pending, None,
             None, None, None, false, None, None)
  }

  function ChildRows(parent: FlowStep, items: seq<Value>): seq<FlowStep> {
    seq(|items|, i requires 0 <= i < |items| => ChildRow(parent, i, items[i]))
  }

  /** INSERT ... ON CONFLICT (flow_run_id, step_id) DO NOTHING, row by row. */
  function InsertRows(rows: Ledger, children: seq<FlowStep>): Ledger {
    if children == [] then rows
    else
      var r := InsertRows(rows, children[..|children| - 1]);
      var c := children[|children| - 1];
      if c.stepId in r then r else r[c.stepId := c]
  }

  lemma {:induction false} InsertRowsEffect(rows: Ledger, children: seq<FlowStep>)
    ensures rows.Keys <= InsertRows(rows, children).Keys
    ensures forall id :: id in rows ==> InsertRows(rows, children)[id] == rows[id]
    ensures forall i :: 0 <= i < |children| ==> children[i].stepId in InsertRows(rows, children)
    ensures forall id :: id in InsertRows(rows, children) && id !in rows ==>
                           exists i :: 0 <= i < |children| && children[i].stepId == id
                                       && InsertRows(rows, children)[id] == children[i]
  {
    if children != [] {
      var init := children[..|children| - 1];
      InsertRowsEffect(rows, init);
      var r := InsertRows(rows, init);
      forall i | 0 <= i < |children| ensures children[i].stepId in InsertRows(rows, children) {
        if i < |init| { assert init[i] == children[i]; }
      }
      forall id | id in InsertRows(rows, children) && id !in rows
        ensures exists i :: 0 <= i < |children| && children[i].stepId == id
                            && InsertRows(rows, children)[id] == children[i]
      {
        if id in r {
          var i :| 0 <= i < |init| && init[i].stepId == id && r[id] == init[i];
          assert children[i] == init[i];
        }
      }
    }
  }

  datatype Agg = AggSucceeded(output: string) | AggFailed

  /** The rows whose id starts with `prefix`, in the order read. */
  function WithPrefix(steps: seq<FlowStep>, prefix: string): seq<FlowStep> {
    if steps == [] then []
    else (if prefix <= steps[0].stepId then [steps[0]] else []) + WithPrefix(steps[1..], prefix)
  }

  function IndexKey(s: FlowStep): nat {
    ParseU64(AfterLast(s.stepId, '#')).GetOr(0)
  }

  /** Stable insertion of a row into rows already ordered by index. */
  function InsertByIndex(s: FlowStep, sorted: seq<FlowStep>): seq<FlowStep> {
    if sorted == [] || IndexKey(s) <= IndexKey(sorted[0]) then [s] + sorted
    else [sorted[0]] + InsertByIndex(s, sorted[1..])
  }

  /** `children.sort_by_key(index)` */
  function SortByIndex(rows: seq<FlowStep>): seq<FlowStep> {
    if rows == [] then [] else InsertByIndex(rows[0], SortByIndex(rows[1..]))
  }

  function Slot(c: FlowStep): Value {
    if c.status.Succeeded? && c.output.Some? then Str(c.output.value) else Null
  }

  function Slots(cs: seq<FlowStep>): seq<Value> {
    seq(|cs|, i requires 0 <= i < |cs| => Slot(cs[i]))
  }

  function AggregateChildren(steps: seq<FlowStep>, parent: string): Option<Agg> {
    var children := WithPrefix(steps, parent + "#");
    if children == [] then None
    else if exists c :: c in children && Active(c.status) then None
    else if exists c :: c in children && c.status.Failed? then Some(AggFailed)
    else Some(AggSucceeded(ToText(Arr(Slots(SortByIndex(children))))))
  }
}
