/** What refs, gates and attempts of a flow step come to (`resolve_ref`, `eval_when`, `run_step` in flow.rs). */
module FlowRefs {
  import opened Wrappers
  import opened Text
  import opened Json
  import opened JsonText
  import opened CanonicalText
  import opened FlowLedger

  // ---- refs -----------------------------------------------------------------------------------

  /** What a hop sees of a value: a string that parses as JSON is taken for what it parses to. */
  ghost predicate SeenAs(w: World, v: Value, seen: Value) {
    if v.Str? && w.parse(v.s).Some? then seen == w.parse(v.s).value else seen == v
  }

  /** A ref is one of two roots ... */
  lemma RootRefs(w: World, root: string, flowInput: Value, deps: Value)
    requires '.' !in root
    ensures match ResolveRef(w, root, flowInput, deps)
            case Some(v) => (root == "flow_input" && SeenAs(w, flowInput, v)) || (root == "deps" && SeenAs(w, deps, v))
            case None => root != "flow_input" && root != "deps"
  {
    assert Split(root, '.') == [root] && [root][1..] == [];
  }

  /** ... or a ref and the name of a field of what it gives. */
  lemma RefField(w: World, ref: string, name: string, flowInput: Value, deps: Value)
    requires '.' !in name
    ensures match ResolveRef(w, ref + ['.'] + name, flowInput, deps)
            case Some(v) => ResolveRef(w, ref, flowInput, deps).Some?
                            && ResolveRef(w, ref, flowInput, deps).value.Get(name).Some?
                            && SeenAs(w, ResolveRef(w, ref, flowInput, deps).value.Get(name).value, v)
            case None => ResolveRef(w, ref, flowInput, deps).None? || ResolveRef(w, ref, flowInput, deps).value.Get(name).None?
  {
    SplitLast(ref, '.', name);
    ResolveLast(w, ref, ref + ['.'] + name, name, flowInput, deps);
  }

  lemma ResolveLast(w: World, ref: string, longer: string, name: string, flowInput: Value, deps: Value)
    requires Split(longer, '.') == Split(ref, '.') + [name]
    ensures ResolveRef(w, longer, flowInput, deps) ==
            match ResolveRef(w, ref, flowInput, deps)
            case None => None
            case Some(x) => (match x.Get(name) case Some(child) => Some(Decode(w, child)) case None => None)
  {
    var parts := Split(ref, '.');
    assert (parts + [name])[0] == parts[0] && (parts + [name])[1..] == parts[1..] + [name];
    DescendLast(w, flowInput, parts[1..], name);
    DescendLast(w, deps, parts[1..], name);
  }

  lemma {:induction false} DescendLast(w: World, v: Value, parts: seq<string>, name: string)
    ensures Descend(w, v, parts + [name]) ==
            match Descend(w, v, parts)
            case None => None
            case Some(x) => (match x.Get(name) case Some(child) => Some(Decode(w, child)) case None => None)
    decreases |parts|
  {
    if parts == [] {
      DescendOne(w, v, name);
      assert parts + [name] == [name];
    } else {
      assert (parts + [name])[0] == parts[0] && (parts + [name])[1..] == parts[1..] + [name];
      var next := Decode(w, v).Get(parts[0]);
      if next.Some? { DescendLast(w, next.value, parts[1..], name); }
    }
  }

  /** `deps.<id>` reads the output of that dependency, decoded if it is JSON, and nothing else. */
  lemma RefReadsOutput(w: World, id: string, flowInput: Value, dependsOn: seq<string>, outputs: map<string, string>)
    requires '.' !in id
    ensures ResolveRef(w, "deps." + id, flowInput, BuildDeps(dependsOn, outputs))
         == if id in dependsOn && id in outputs then Some(Decode(w, Str(outputs[id]))) else None
  {
    var deps := BuildDeps(dependsOn, outputs);
    SplitFirst("deps", '.', id);
    assert "deps" + ['.'] + id == "deps." + id;
    var parts := Split("deps." + id, '.');
    assert parts == ["deps", id] && parts[1..] == [id];
    DescendOne(w, deps, id);
  }

  lemma DescendOne(w: World, v: Value, key: string)
    ensures Descend(w, v, [key]) ==
            match Decode(w, v).Get(key) case Some(child) => Some(Decode(w, child)) case None => None
  {
    assert [key][1..] == [];
  }

  lemma SplitRef(id: string)
    ensures Split("deps." + id, '.') == ["deps"] + Split(id, '.') && (["deps"] + Split(id, '.'))[1..] == Split(id, '.')
  {
    SplitFirst("deps", '.', id);
    assert "deps" + ['.'] + id == "deps." + id;
  }

  lemma DescendFirst(w: World, fields: map<string, Value>, key: string, rest: seq<string>)
    ensures Descend(w, Obj(fields), [key] + rest) == if key in fields then Descend(w, fields[key], rest) else None
  {
    assert ([key] + rest)[1..] == rest;
  }

  /** An id with a dot in it is read as a path into another dependency: the one named by what stands before
      the first dot. */
  lemma DottedIdReadsAnother(w: World, before: string, after: string, flowInput: Value, dependsOn: seq<string>,
                             outputs: map<string, string>)
    requires '.' !in before
    ensures ResolveRef(w, "deps." + (before + ['.'] + after), flowInput, BuildDeps(dependsOn, outputs))
         == if before in dependsOn && before in outputs then Descend(w, Str(outputs[before]), Split(after, '.')) else None
  {
    SplitRef(before + ['.'] + after);
    SplitFirst(before, '.', after);
    DescendFirst(w, BuildDeps(dependsOn, outputs).fields, before, Split(after, '.'));
  }

  /** What `deps.<id>` gives for a dotted id does not depend on that step's output. */
  lemma DottedIdIgnoresItsOutput(w: World, id: string, flowInput: Value, dependsOn: seq<string>,
                                 outputs: map<string, string>, other: string)
    requires '.' in id
    ensures ResolveRef(w, "deps." + id, flowInput, BuildDeps(dependsOn, outputs))
         == ResolveRef(w, "deps." + id, flowInput, BuildDeps(dependsOn, outputs[id := other]))
  {
    var before, after := CutAt(id, '.');
    DottedIdReadsAnother(w, before, after, flowInput, dependsOn, outputs);
    DottedIdReadsAnother(w, before, after, flowInput, dependsOn, outputs[id := other]);
  }

  /** `deps.<id>` gives the output of dependency `id`, whatever it and the others are. */
  ghost predicate ReadsItsOutput(w: World, id: string) {
    forall flowInput, dependsOn, outputs :: ReadsItHere(w, id, flowInput, dependsOn, outputs)
  }

  predicate ReadsItHere(w: World, id: string, flowInput: Value, dependsOn: seq<string>, outputs: map<string, string>) {
    id in dependsOn && id in outputs ==>
      ResolveRef(w, "deps." + id, flowInput, BuildDeps(dependsOn, outputs)) == Some(Decode(w, Str(outputs[id])))
  }

  /** Exactly the ids without a dot can be addressed. */
  lemma RefReadsItsOutputIff(w: World, id: string)
    ensures ReadsItsOutput(w, id) <==> '.' !in id
  {
    if '.' in id {
      var before, after := CutAt(id, '.');
      var outputs := map[id := "output"];
      DottedIdReadsAnother(w, before, after, Null, [id], outputs);
      assert !ReadsItHere(w, id, Null, [id], outputs);
    } else {
      forall flowInput, dependsOn, outputs ensures ReadsItHere(w, id, flowInput, dependsOn, outputs) {
        RefReadsOutput(w, id, flowInput, dependsOn, outputs);
      }
    }
  }

  /** The ref `deps` itself gives the object with every output in it, those of dotted ids included. */
  lemma WholeDepsHoldsEveryOutput(w: World, flowInput: Value, dependsOn: seq<string>, outputs: map<string, string>, id: string)
    ensures ResolveRef(w, "deps", flowInput, BuildDeps(dependsOn, outputs)) == Some(BuildDeps(dependsOn, outputs))
    ensures id in dependsOn && id in outputs ==> BuildDeps(dependsOn, outputs).Get(id) == Some(Str(outputs[id]))
  {
    assert '.' !in "deps";
    assert Split("deps", '.') == ["deps"] && ["deps"][1..] == [];
  }

  // ---- gates ------------------------------------------------------------------------------------

  function Gate(ref: string, op: string, expected: Value): Value {
    Obj(map["ref" := Str(ref), "op" := Str(op), "value" := expected])
  }

  /** `eq` tells JSON values apart exactly, except that a string also equals any value it is the text of. */
  lemma EqComparesValues(w: World, ref: string, expected: Value, flowInput: Value, deps: Value)
    requires WellFormed(expected) && WellFormed(ResolveRef(w, ref, flowInput, deps).GetOr(Null))
    ensures var actual := ResolveRef(w, ref, flowInput, deps).GetOr(Null);
            EvalWhen(w, Gate(ref, "eq", expected), flowInput, deps) <==>
              actual == expected
              || (actual.Str? && !expected.Str? && actual.s == ToText(expected))
              || (expected.Str? && !actual.Str? && expected.s == ToText(actual))
  {
    GateParts(ref, "eq", expected);
    ToTextDeterminesValue(ResolveRef(w, ref, flowInput, deps).GetOr(Null), expected);
  }

  lemma GateParts(ref: string, op: string, expected: Value)
    ensures var g := Gate(ref, op, expected);
            StrField(g, "ref", "") == ref && StrField(g, "op", "truthy") == op && g.Get("value") == Some(expected)
  {
  }

  // ---- attempts ---------------------------------------------------------------------------------

  predicate Succeeds(w: World, scriptId: int, input: Value, n: nat) {
    w.attempt(scriptId, input, n).Ran?
  }

  /** A step is done by the first of its attempts that succeeds, and fails only if none does. */
  lemma {:induction false} FirstSuccessIsFirst(w: World, scriptId: int, input: Value, from: nat, budget: nat)
    ensures var o := FirstSuccess(w, scriptId, input, from, budget);
            && (o.Fail? <==> forall n {:trigger Succeeds(w, scriptId, input, n)} :: from <= n <= budget ==> !Succeeds(w, scriptId, input, n))
            && (o.Done? ==> exists n {:trigger Succeeds(w, scriptId, input, n)} ::
                  from <= n <= budget && Succeeds(w, scriptId, input, n) && o.output == w.attempt(scriptId, input, n).output
                  && forall k {:trigger Succeeds(w, scriptId, input, k)} :: from <= k < n ==> !Succeeds(w, scriptId, input, k))
    decreases budget + 1 - from
  {
    if from <= budget {
      assert Succeeds(w, scriptId, input, from) <==> w.attempt(scriptId, input, from).Ran?;
      if !Succeeds(w, scriptId, input, from) {
        FirstSuccessIsFirst(w, scriptId, input, from + 1, budget);
      }
    }
  }

  const U32_MAX: int := 0xFFFF_FFFF

  /** attempts = retries + 1, up to the width of the counter. */
  lemma BudgetIsRetriesPlusOneIff(retries: Option<int>)
    ensures var r := if retries.GetOr(1) < 0 then 0 else retries.GetOr(1);
            AttemptBudget(retries) == r + 1 <==> r < U32_MAX
  {
  }

  /** At the width of the counter a step gets no attempt at all: it fails without having run. */
  lemma WrappedBudgetRunsNothing(w: World, scriptId: int, input: Value)
    ensures AttemptBudget(Some(U32_MAX)) == 0
    ensures w.script(scriptId).Runnable? ==> RunOutcome(w, scriptId, input, Some(U32_MAX)) == Fail("exhausted retries")
  {
  }

  // ---- the children of a map step -------------------------------------------------------------------

  /** A child's run can end as one with its parent's setting would, in every world. */
  ghost predicate RetriesMatter(scriptId: int, input: Value, child: Option<int>, parent: Option<int>) {
    exists w: World :: RunOutcome(w, scriptId, input, child) != RunOutcome(w, scriptId, input, parent)
  }

  /** A world in which only the nth attempt succeeds. */
  function OnlyNth(n: nat): World {
    World(_ => None, _ => Runnable, (_, _, k) => if k == n then Ran(None) else NotSucceeded)
  }

  lemma OnlyNthOutcome(n: nat, scriptId: int, input: Value, retries: Option<int>)
    requires n >= 1
    ensures RunOutcome(OnlyNth(n), scriptId, input, retries).Done? <==> n <= AttemptBudget(retries)
  {
    var w := OnlyNth(n);
    FirstSuccessIsFirst(w, scriptId, input, 1, AttemptBudget(retries));
    assert forall k: nat :: Succeeds(w, scriptId, input, k) <==> k == n;
    assert Succeeds(w, scriptId, input, n);
  }

  lemma SameBudgetSameOutcome(w: World, scriptId: int, input: Value, a: Option<int>, b: Option<int>)
    requires AttemptBudget(a) == AttemptBudget(b)
    ensures RunOutcome(w, scriptId, input, a) == RunOutcome(w, scriptId, input, b)
  {
  }

  /** The children of a map step run as its `retries` says exactly when that comes to two attempts; otherwise
      some world tells the difference. */
  lemma ChildrenFollowRetriesIff(parent: FlowStep, i: nat, item: Value, input: Value)
    ensures var child := ChildRow(parent, i, item);
            && AttemptBudget(child.retries) == 2
            && (!RetriesMatter(parent.scriptId, input, child.retries, parent.retries) <==> AttemptBudget(parent.retries) == 2)
  {
    var child, s, b := ChildRow(parent, i, item), parent.scriptId, AttemptBudget(parent.retries);
    if b == 2 {
      forall w: World ensures RunOutcome(w, s, input, child.retries) == RunOutcome(w, s, input, parent.retries) {
        SameBudgetSameOutcome(w, s, input, child.retries, parent.retries);
      }
    } else {
      var n := if b < 2 then 2 else 3;
      OnlyNthOutcome(n, s, input, child.retries);
      OnlyNthOutcome(n, s, input, parent.retries);
      assert RunOutcome(OnlyNth(n), s, input, child.retries) != RunOutcome(OnlyNth(n), s, input, parent.retries);
    }
  }

  /** In particular with `retries = 0`, which is to mean one attempt: a child that fails is run again. */
  lemma ChildOfNoRetriesRunsTwice(parent: FlowStep, i: nat, item: Value)
    requires parent.retries == Some(0)
    ensures AttemptBudget(parent.retries) == 1 && AttemptBudget(ChildRow(parent, i, item).retries) == 2
  {
  }
}
