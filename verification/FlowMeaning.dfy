/** What the verdicts of a flow's meaning say in terms of JSON values and script runs: which gates open, which
    attempt counts, and what a map step makes of its elements. */
module FlowMeaning {
  import opened Wrappers
  import opened Decimal
  import opened Text
  import opened Json
  import opened JsonText
  import opened CanonicalText
  import opened FlowLedger
  import opened FlowRefs
  import opened FlowSystem

  // ---- gates ------------------------------------------------------------------------------------

  ghost predicate Zero(v: Value) {
    v == Num(PosInt(0)) || v == Num(Float("0.0")) || v == Num(Float("-0.0"))
  }

  /** Null, false, a zero, one of three strings, or empty. */
  ghost predicate Falsy(v: Value) {
    || v == Null || v == Bool(false) || Zero(v)
    || v == Str("") || v == Str("false") || v == Str("0")
    || v == Arr([]) || v == Obj(map[])
  }

  /** A string is its own text, any other value has its JSON text. */
  ghost predicate HasText(v: Value, t: string) {
    v == Str(t) || (!v.Str? && t == ToText(v))
  }

  ghost predicate SameText(a: Value, b: Value) {
    exists t :: HasText(a, t) && HasText(b, t)
  }

  /** The text of `part` stands at some place of the text of `whole`. */
  ghost predicate StandsIn(part: Value, whole: Value) {
    exists x, t, y :: HasText(part, t) && HasText(whole, x + t + y)
  }

  ghost predicate OpSays(op: string, actual: Value, expected: Value) {
    if op == "eq" then SameText(actual, expected)
    else if op == "ne" then !SameText(actual, expected)
    else if op == "contains" then StandsIn(expected, actual)
    else if op == "falsy" then Falsy(actual)
    else !Falsy(actual)
  }

  /** The gate, applied to the value its ref resolves to. Without an op it asks for a truthy value. */
  ghost predicate GateOpens(w: World, gate: Value, flowInput: Value, deps: Value) {
    exists ref, op :: Reads(gate, "ref", "", ref) && Reads(gate, "op", "truthy", op)
                      && OpSays(op, ResolveRef(w, ref, flowInput, deps).GetOr(Null), gate.Get("value").GetOr(Null))
  }

  lemma TruthyIsNotFalsy(v: Value)
    ensures IsTruthy(v) <==> !Falsy(v)
  {
  }

  lemma TextOfValue(v: Value)
    ensures forall t :: HasText(v, t) <==> t == CoerceStr(v)
  {
  }

  lemma SameTextIsEqual(a: Value, b: Value)
    ensures SameText(a, b) <==> CoerceStr(a) == CoerceStr(b)
  {
    TextOfValue(a);
    TextOfValue(b);
    if CoerceStr(a) == CoerceStr(b) { assert HasText(a, CoerceStr(b)) && HasText(b, CoerceStr(b)); }
  }

  lemma StandsInIsContains(part: Value, whole: Value)
    ensures StandsIn(part, whole) <==> Contains(CoerceStr(whole), CoerceStr(part))
  {
    TextOfValue(part);
    TextOfValue(whole);
    var s, t := CoerceStr(whole), CoerceStr(part);
    if StandsIn(part, whole) {
      var x, u, y :| HasText(part, u) && HasText(whole, x + u + y);
      assert s == x + t + y && s[|x|..|x| + |t|] == t;
      assert OccursAt(t, s, |x|);
    }
    if Contains(s, t) {
      var i :| 0 <= i <= |s| && OccursAt(t, s, i);
      assert s == s[..i] + t + s[i + |t|..];
      assert HasText(part, t) && HasText(whole, s[..i] + t + s[i + |t|..]);
    }
  }

  lemma OpDecides(op: string, actual: Value, expected: Value)
    ensures OpSays(op, actual, expected) <==>
            match op
            case "eq" => CoerceStr(actual) == CoerceStr(expected)
            case "ne" => CoerceStr(actual) != CoerceStr(expected)
            case "contains" => Contains(CoerceStr(actual), CoerceStr(expected))
            case "falsy" => !IsTruthy(actual)
            case _ => IsTruthy(actual)
  {
    TruthyIsNotFalsy(actual);
    SameTextIsEqual(actual, expected);
    StandsInIsContains(expected, actual);
  }

  /** Evaluating a gate is asking whether it opens. */
  lemma GateIsRight(w: World, gate: Value, flowInput: Value, deps: Value)
    ensures EvalWhen(w, gate, flowInput, deps) <==> GateOpens(w, gate, flowInput, deps)
  {
    FieldIsRead(gate, "ref", "");
    FieldIsRead(gate, "op", "truthy");
    var ref, op := StrField(gate, "ref", ""), StrField(gate, "op", "truthy");
    assert Reads(gate, "ref", "", ref) && Reads(gate, "op", "truthy", op);
    OpDecides(op, ResolveRef(w, ref, flowInput, deps).GetOr(Null), gate.Get("value").GetOr(Null));
  }

  /** The five kinds of gate, one by one. */
  lemma GateDecisions(w: World, ref: string, expected: Value, flowInput: Value, deps: Value)
    ensures var actual := ResolveRef(w, ref, flowInput, deps).GetOr(Null);
            && (EvalWhen(w, Gate(ref, "truthy", expected), flowInput, deps) <==> !Falsy(actual))
            && (EvalWhen(w, Obj(map["ref" := Str(ref)]), flowInput, deps) <==> !Falsy(actual))
            && (EvalWhen(w, Gate(ref, "falsy", expected), flowInput, deps) <==> Falsy(actual))
            && (EvalWhen(w, Gate(ref, "eq", expected), flowInput, deps) <==> SameText(actual, expected))
            && (EvalWhen(w, Gate(ref, "ne", expected), flowInput, deps) <==> !SameText(actual, expected))
            && (EvalWhen(w, Gate(ref, "contains", expected), flowInput, deps) <==> StandsIn(expected, actual))
  {
    var actual := ResolveRef(w, ref, flowInput, deps).GetOr(Null);
    GateDecision(w, ref, "truthy", expected, flowInput, deps);
    GateDecision(w, ref, "falsy", expected, flowInput, deps);
    GateDecision(w, ref, "eq", expected, flowInput, deps);
    GateDecision(w, ref, "ne", expected, flowInput, deps);
    GateDecision(w, ref, "contains", expected, flowInput, deps);
    BareGate(w, ref, flowInput, deps);
  }

  lemma GateDecision(w: World, ref: string, op: string, expected: Value, flowInput: Value, deps: Value)
    ensures EvalWhen(w, Gate(ref, op, expected), flowInput, deps)
       <==> OpSays(op, ResolveRef(w, ref, flowInput, deps).GetOr(Null), expected)
  {
    GateParts(ref, op, expected);
    OpDecides(op, ResolveRef(w, ref, flowInput, deps).GetOr(Null), expected);
  }

  lemma BareGate(w: World, ref: string, flowInput: Value, deps: Value)
    ensures EvalWhen(w, Obj(map["ref" := Str(ref)]), flowInput, deps) <==> !Falsy(ResolveRef(w, ref, flowInput, deps).GetOr(Null))
  {
    var gate := Obj(map["ref" := Str(ref)]);
    assert StrField(gate, "ref", "") == ref && StrField(gate, "op", "truthy") == "truthy";
    TruthyIsNotFalsy(ResolveRef(w, ref, flowInput, deps).GetOr(Null));
  }

  /** Equal values, or a string and a value it is the text of: what `eq` accepts and `ne` rejects. */
  lemma SameTextMeans(a: Value, b: Value)
    requires WellFormed(a) && WellFormed(b)
    ensures SameText(a, b) <==> a == b || (a.Str? && !b.Str? && a.s == ToText(b)) || (b.Str? && !a.Str? && b.s == ToText(a))
  {
    SameTextIsEqual(a, b);
    ToTextDeterminesValue(a, b);
  }

  // ---- verdicts -----------------------------------------------------------------------------------

  /** An object with exactly the dependencies' outputs, as strings; no output is the empty string. */
  ghost predicate DepsObject(deps: Value, dependsOn: seq<string>, v: Verdicts) {
    && deps.Obj?
    && (forall d :: d in deps.fields <==> d in dependsOn)
    && (forall d :: d in dependsOn ==> d in v && v[d].Yields? && deps.fields[d] == Str(if v[d].output.Some? then v[d].output.value else ""))
  }

  lemma DepsAreThatObject(deps: Value, def: FlowStep, v: Verdicts)
    requires DepsObject(deps, def.dependsOn, v)
    ensures deps == DepsOf(v, def)
  {
    assert deps.fields == DepsOf(v, def).fields;
  }

  lemma VerdictAt(f: Flow, v: Verdicts, id: string, deps: Value)
    requires Meaning(f, v) && id in f.init && DepsObject(deps, f.init[id].dependsOn, v)
    ensures v[id] == if !GatePasses(f, f.init[id], deps) then Skips
                     else if f.init[id].mapRef.Some? then
                       (match MapItems(f, f.init[id], deps)
                        case None => Fails("map_ref_not_array")
                        case Some(items) => MapVerdict(f, f.init[id], deps, items))
                     else RunVerdict(f, f.init[id], deps)
  {
    DepsAreThatObject(deps, f.init[id], v);
    assert MeansAt(f, v, id);
  }

  /** Once its dependencies have outputs, a step is skipped if and only if it has a gate that does not open. */
  lemma GateDecides(f: Flow, v: Verdicts, id: string, deps: Value)
    requires Meaning(f, v) && id in f.init && DepsObject(deps, f.init[id].dependsOn, v)
    ensures v[id].Skips? <==> f.init[id].whenCond.Some? && !GateOpens(f.w, f.init[id].whenCond.value, f.input, deps)
  {
    VerdictAt(f, v, id, deps);
    if f.init[id].whenCond.Some? { GateIsRight(f.w, f.init[id].whenCond.value, f.input, deps); }
  }

  /** What the container of a step is given. */
  function ContainerInput(flowInput: Value, deps: Value, own: Value): Value {
    Obj(map["flow_input" := flowInput, "deps" := deps, "step" := own])
  }

  /** Attempt `n` succeeds with that last line, and none before it succeeds. */
  ghost predicate FirstToRun(w: World, scriptId: int, input: Value, n: nat, output: Option<string>) {
    n >= 1 && w.attempt(scriptId, input, n) == Ran(output) && forall k: nat :: 1 <= k < n ==> w.attempt(scriptId, input, k) == NotSucceeded
  }

  ghost predicate RunsAs(w: World, scriptId: int, input: Value, n: nat, budget: nat, output: Option<string>) {
    n <= budget && FirstToRun(w, scriptId, input, n, output)
  }

  /** How a run of up to `budget` attempts comes out. */
  ghost predicate ComesTo(w: World, scriptId: int, input: Value, budget: nat, o: Outcome) {
    match w.script(scriptId)
    case Missing => o == Fail("script_not_found")
    case UnknownRuntime => o == Fail("unknown_runtime")
    case Runnable =>
      match o
      case Done(output) => exists n :: RunsAs(w, scriptId, input, n, budget, output)
      case Fail(reason) => reason == "exhausted retries" && forall n: nat :: 1 <= n <= budget ==> w.attempt(scriptId, input, n) == NotSucceeded
  }

  lemma OutcomeIsRight(w: World, scriptId: int, input: Value, retries: Option<int>)
    ensures ComesTo(w, scriptId, input, AttemptBudget(retries), RunOutcome(w, scriptId, input, retries))
  {
    var budget := AttemptBudget(retries);
    FirstSuccessIsFirst(w, scriptId, input, 1, budget);
    assert forall n: nat :: Succeeds(w, scriptId, input, n) <==> w.attempt(scriptId, input, n) != NotSucceeded;
    var o := FirstSuccess(w, scriptId, input, 1, budget);
    if o.Done? {
      var n: nat :| 1 <= n <= budget && Succeeds(w, scriptId, input, n) && o.output == w.attempt(scriptId, input, n).output
                    && forall k {:trigger Succeeds(w, scriptId, input, k)} :: 1 <= k < n ==> !Succeeds(w, scriptId, input, k);
      assert RunsAs(w, scriptId, input, n, budget, o.output);
    } else {
      FailReason(w, scriptId, input, 1, budget);
    }
  }

  lemma {:induction false} FailReason(w: World, scriptId: int, input: Value, from: nat, budget: nat)
    ensures var o := FirstSuccess(w, scriptId, input, from, budget); o.Fail? ==> o.reason == "exhausted retries"
    decreases budget + 1 - from
  {
    if from <= budget && w.attempt(scriptId, input, from).NotSucceeded? { FailReason(w, scriptId, input, from + 1, budget); }
  }

  function AsVerdict(o: Outcome): Verdict {
    match o case Done(output) => Yields(output) case Fail(reason) => Fails(reason)
  }

  ghost predicate Passes(f: Flow, id: string, deps: Value)
    requires id in f.init
  {
    f.init[id].whenCond.None? || GateOpens(f.w, f.init[id].whenCond.value, f.input, deps)
  }

  /** A plain step whose gate opens comes to what its attempts come to, on the flow input, its dependencies' outputs
      and its own input. */
  lemma RunDecides(f: Flow, v: Verdicts, id: string, deps: Value) returns (o: Outcome)
    requires Meaning(f, v) && id in f.init && DepsObject(deps, f.init[id].dependsOn, v)
    requires f.init[id].mapRef.None? && Passes(f, id, deps)
    ensures ComesTo(f.w, f.init[id].scriptId, ContainerInput(f.input, deps, f.init[id].input), AttemptBudget(f.init[id].retries), o)
    ensures v[id] == AsVerdict(o)
  {
    var def := f.init[id];
    VerdictAt(f, v, id, deps);
    if def.whenCond.Some? { GateIsRight(f.w, def.whenCond.value, f.input, deps); }
    o := RunOutcome(f.w, def.scriptId, ContainerInput(f.input, deps, def.input), def.retries);
    OutcomeIsRight(f.w, def.scriptId, ContainerInput(f.input, deps, def.input), def.retries);
  }

  /** The elements of a map step's array are run with two attempts each; `os` are their outcomes. */
  ghost predicate ElementsComeTo(f: Flow, def: FlowStep, deps: Value, items: seq<Value>, os: seq<Outcome>) {
    |os| == |items| && forall i :: 0 <= i < |items| ==> ComesTo(f.w, def.scriptId, ContainerInput(f.input, deps, items[i]), 2, os[i])
  }

  /** The array of the outputs, null for an element without one. */
  ghost predicate OutputArray(os: seq<Outcome>, slots: seq<Value>) {
    |slots| == |os| && forall i :: 0 <= i < |os| ==>
      (os[i].Done? && slots[i] == match os[i].output case Some(line) => Str(line) case None => Null)
  }

  ghost predicate MapsTo(f: Flow, def: FlowStep, deps: Value, items: seq<Value>, os: seq<Outcome>, verdict: Verdict) {
    if |items| == 0 then verdict == Yields(Some("[]"))
    else if |items| > 1000 then verdict == Fails("map_fanout_too_large")
    else
      ElementsComeTo(f, def, deps, items, os)
      && if exists i :: 0 <= i < |os| && os[i].Fail? then verdict == Fails("map_child_failed")
         else exists slots :: OutputArray(os, slots) && verdict == Yields(Some(ToText(Arr(slots))))
  }

  /** A map step whose gate opens fails unless its ref gives an array of at most a thousand elements, all of which
      succeed; then it comes to the array of their outputs. */
  lemma MapDecides(f: Flow, v: Verdicts, id: string, deps: Value) returns (os: seq<Outcome>)
    requires Meaning(f, v) && id in f.init && DepsObject(deps, f.init[id].dependsOn, v)
    requires f.init[id].mapRef.Some? && Passes(f, id, deps)
    ensures match ResolveRef(f.w, f.init[id].mapRef.value, f.input, deps)
            case Some(Arr(items)) => MapsTo(f, f.init[id], deps, items, os, v[id])
            case _ => v[id] == Fails("map_ref_not_array")
  {
    var def := f.init[id];
    VerdictAt(f, v, id, deps);
    if def.whenCond.Some? { GateIsRight(f.w, def.whenCond.value, f.input, deps); }
    match ResolveRef(f.w, def.mapRef.value, f.input, deps)
    case Some(Arr(items)) => os := MapIsRight(f, def, deps, items);
    case _ => os := [];
  }

  lemma MapIsRight(f: Flow, def: FlowStep, deps: Value, items: seq<Value>) returns (os: seq<Outcome>)
    ensures MapsTo(f, def, deps, items, os, MapVerdict(f, def, deps, items))
  {
    os := seq(|items|, i requires 0 <= i < |items| => ChildOutcome(f, def, deps, items[i]));
    forall i | 0 <= i < |items| ensures ComesTo(f.w, def.scriptId, ContainerInput(f.input, deps, items[i]), 2, os[i]) {
      OutcomeIsRight(f.w, def.scriptId, ContainerInput(f.input, deps, items[i]), None);
    }
    var slots := seq(|items|, i requires 0 <= i < |items| => OutcomeSlot(ChildOutcome(f, def, deps, items[i])));
    if 0 < |items| <= 1000 {
      if i :| 0 <= i < |items| && ChildOutcome(f, def, deps, items[i]).Fail? {
        assert os[i].Fail?;
      } else {
        assert OutputArray(os, slots);
      }
    }
  }

  // ---- the rows of a map step's elements ----------------------------------------------------------------

  /** The row of element `i`: the parent's script and dependencies, the element as input, and nothing else. */
  ghost predicate ElementRow(parent: FlowStep, i: nat, item: Value, r: FlowStep) {
    && r.stepId == parent.stepId + "#" + Dec(i) && r.scriptId == parent.scriptId && r.input == item
    && r.dependsOn == parent.dependsOn && r.status == Pending && r.output == None && r.finishedAt == None
    && r.whenCond == None && r.mapRef == None && r.compensate == None && !r.compensated && r.retries == None
  }

  /** An expansion adds a row for each element that has none yet, marks the parent, and leaves every other row alone. */
  lemma ExpansionWrites(st: State, id: string, items: seq<Value>)
    requires id in st.rows && st.rows[id].stepId == id
    ensures var rows := ExpandMapStep(st, id, items).rows;
            && id in rows && rows[id] == st.rows[id].(status := Expanded)
            && (forall k :: k in st.rows && k != id ==> k in rows && rows[k] == st.rows[k])
            && (forall k :: k in rows && k !in st.rows ==>
                  exists i :: 0 <= i < |items| && k == id + "#" + Dec(i) && ElementRow(st.rows[id], i, items[i], rows[k]))
            && (forall i :: 0 <= i < |items| ==> id + "#" + Dec(i) in rows)
  {
    var parent := st.rows[id];
    var children := ChildRows(parent, items);
    InsertRowsEffect(st.rows, children);
    forall i | 0 <= i < |items| ensures children[i].stepId == id + "#" + Dec(i) && ElementRow(parent, i, items[i], children[i]) {
    }
  }
}
