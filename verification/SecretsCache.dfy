/** The generation-keyed secrets cache (db.rs): lookups, table reads and cache inserts of any number of calls
    and daemons interleave with secret upserts. */
module SecretsCache {
  import opened Wrappers

  type Secrets = map<string, string>

  /** The secret tables and the generation counter that every upsert bumps in its own transaction. */
  datatype Db = Db(generation: int, globals: Secrets, scoped: map<string, Secrets>)

  /** One daemon's cache: merged secrets per agent (None: global only), valid for one generation. */
  datatype Cache = Cache(generation: int, byAgent: map<Option<string>, Secrets>)

  const EMPTY_CACHE := Cache(-1, map[])

  function ScopedTo(db: Db, agent: Option<string>): Secrets {
    if agent.Some? && agent.value in db.scoped then db.scoped[agent.value] else map[]
  }

  /** What a job of `agent` is to see: the global secrets, overridden by the agent's own. */
  function Merge(db: Db, agent: Option<string>): Secrets {
    db.globals + ScopedTo(db, agent)
  }

  /** `upsert_secret`: one transaction. */
  function Upserted(db: Db, name: string, value: string, agent: Option<string>): Db {
    match agent
    case None => db.(generation := db.generation + 1, globals := db.globals[name := value])
    case Some(aid) =>
      db.(generation := db.generation + 1, scoped := db.scoped[aid := ScopedTo(db, agent)[name := value]])
  }

  /** The value a table holds under a name: the global table, or that of an agent. */
  function InTable(db: Db, holder: Option<string>, name: string): Option<string> {
    match holder
    case None => if name in db.globals then Some(db.globals[name]) else None
    case Some(aid) => if aid in db.scoped && name in db.scoped[aid] then Some(db.scoped[aid][name]) else None
  }

  /** What a job of `agent` is to see, name by name: the agent's own value where it has one, otherwise the global. */
  ghost predicate Sees(db: Db, agent: Option<string>, secrets: Secrets) {
    forall name ::
      var own := if agent.Some? then InTable(db, agent, name) else None;
      (if name in secrets then Some(secrets[name]) else None) == if own.Some? then own else InTable(db, None, name)
  }

  lemma MergeIsSeen(db: Db, agent: Option<string>)
    ensures forall secrets :: Sees(db, agent, secrets) <==> secrets == Merge(db, agent)
  {
    var m := Merge(db, agent);
    forall name ensures (if name in m then Some(m[name]) else None) == if agent.Some? && InTable(db, agent, name).Some?
                          then InTable(db, agent, name) else InTable(db, None, name)
    {
    }
    assert Sees(db, agent, m);
    forall secrets | Sees(db, agent, secrets) ensures secrets == m {
      forall name ensures (name in secrets <==> name in m) && (name in m ==> secrets[name] == m[name]) {
        assert (if name in secrets then Some(secrets[name]) else None) == if name in m then Some(m[name]) else None;
      }
    }
  }

  /** An upsert changes one name of one table, and the generation. */
  lemma UpsertChangesOneName(db: Db, name: string, value: string, agent: Option<string>, holder: Option<string>, other: string)
    ensures var db' := Upserted(db, name, value, agent);
            && db'.generation == db.generation + 1
            && InTable(db', holder, other) == if holder == agent && other == name then Some(value) else InTable(db, holder, other)
  {
  }

  function Hit(c: Cache, generation: int, agent: Option<string>): Option<Secrets> {
    if c.generation == generation && agent in c.byAgent then Some(c.byAgent[agent]) else None
  }

  function Stored(c: Cache, generation: int, agent: Option<string>, merged: Secrets): Cache {
    var base := if c.generation == generation then c.byAgent else map[];
    Cache(generation, base[agent := merged])
  }

  /** What the cache holds for the current generation is current. */
  ghost predicate CacheOk(db: Db, c: Cache) {
    && c.generation <= db.generation
    && (c.generation == db.generation ==> forall a :: a in c.byAgent ==> c.byAgent[a] == Merge(db, a))
  }

  /** A store is found again under its own generation and agent; other agents' entries survive only within the
      same generation, and nothing of another generation is ever found. */
  lemma HitAfterStore(c: Cache, generation: int, agent: Option<string>, merged: Secrets, generation': int, agent': Option<string>)
    ensures Hit(Stored(c, generation, agent, merged), generation', agent')
         == if generation' != generation then None else if agent' == agent then Some(merged) else Hit(c, generation, agent')
  {
  }

  /** The structure behind the mutex. */
  class SharedCache {
    var generation: int
    var byAgent: map<Option<string>, Secrets>

    constructor ()
      ensures Contents() == EMPTY_CACHE
    {
      generation, byAgent := -1, map[];
    }

    function Contents(): Cache
      reads this
    {
      Cache(generation, byAgent)
    }

    method Lookup(current: int, agent: Option<string>) returns (hit: Option<Secrets>)
      ensures hit == Hit(Contents(), current, agent)
      ensures forall db :: CacheOk(db, Contents()) && db.generation == current && hit.Some? ==> hit.value == Merge(db, agent)
    {
      if generation == current && agent in byAgent {
        return Some(byAgent[agent]);
      }
      return None;
    }

    method Store(current: int, agent: Option<string>, merged: Secrets)
      modifies this
      ensures Contents() == Stored(old(Contents()), current, agent, merged)
    {
      if generation != current {
        generation := current;
        byAgent := map[];
      }
      byAgent := byAgent[agent := merged];
    }
  }

  // ---- interleavings ---------------------------------------------------------------------------

  /** How far a call of `all_secrets_for` has got. */
  datatype Phase = Looking | Loading | HalfLoaded(globals: Secrets) | Loaded(merged: Secrets) | Returned(result: Secrets)

  /** A call in daemon `daemon`; `generation` is what it read first. */
  datatype Call = Call(daemon: int, agent: Option<string>, generation: int, phase: Phase)

  datatype State = State(db: Db, caches: map<int, Cache>, calls: map<int, Call>)

  datatype Event =
    | Boot(daemon: int)
    | Upsert(name: string, value: string, agent: Option<string>)
    | Start(c: int, daemon: int, who: Option<string>)
    | Look(c: int)
    | ReadGlobals(c: int)
    | ReadScoped(c: int)
    | Keep(c: int)

  predicate At(st: State, c: int) {
    c in st.calls && st.calls[c].daemon in st.caches
  }

  predicate Enabled(st: State, e: Event) {
    match e
    case Boot(_) => true
    case Upsert(_, _, _) => true
    case Start(c, daemon, _) => c !in st.calls && daemon in st.caches
    case Look(c) => At(st, c) && st.calls[c].phase.Looking?
    case ReadGlobals(c) => At(st, c) && st.calls[c].phase.Loading?
    case ReadScoped(c) => At(st, c) && st.calls[c].phase.HalfLoaded?
    case Keep(c) => At(st, c) && st.calls[c].phase.Loaded?
  }

  function Advance(st: State, c: int, p: Phase): State
    requires c in st.calls
  {
    st.(calls := st.calls[c := st.calls[c].(phase := p)])
  }

  function Step(st: State, e: Event): State
    requires Enabled(st, e)
  {
    match e
    case Boot(daemon) => st.(caches := st.caches[daemon := EMPTY_CACHE])
    case Upsert(name, value, agent) => st.(db := Upserted(st.db, name, value, agent))
    case Start(c, daemon, agent) => st.(calls := st.calls[c := Call(daemon, agent, st.db.generation, Looking)])
    case Look(c) =>
      var call := st.calls[c];
      (match Hit(st.caches[call.daemon], call.generation, call.agent)
       case Some(v) => Advance(st, c, Returned(v))
       case None => Advance(st, c, Loading))
    case ReadGlobals(c) =>
      // Without an agent the scoped table is not read.
      Advance(st, c, if st.calls[c].agent.None? then Loaded(st.db.globals) else HalfLoaded(st.db.globals))
    case ReadScoped(c) =>
      Advance(st, c, Loaded(st.calls[c].phase.globals + ScopedTo(st.db, st.calls[c].agent)))
    case Keep(c) =>
      var call := st.calls[c];
      var st' := Advance(st, c, Returned(call.phase.merged));
      st'.(caches := st.caches[call.daemon := Stored(st.caches[call.daemon], call.generation, call.agent, call.phase.merged)])
  }

  ghost predicate Next(st: State, st': State) {
    exists e :: Enabled(st, e) && st' == Step(st, e)
  }

  ghost predicate Execution(trace: seq<State>) {
    |trace| > 0 && forall i {:trigger trace[i]} :: 0 <= i < |trace| - 1 ==> Next(trace[i], trace[i + 1])
  }

  /** Any tables; no call under way, every cache empty. */
  predicate Initial(st: State) {
    st.db.generation >= 0 && st.calls == map[] && forall d :: d in st.caches ==> st.caches[d] == EMPTY_CACHE
  }

  // ---- coherence ---------------------------------------------------------------------------------

  /** As long as the generation a call read is the current one, what it holds is current too. */
  ghost predicate CallOk(db: Db, call: Call) {
    && call.generation <= db.generation
    && (call.generation == db.generation ==>
          match call.phase
          case HalfLoaded(globals) => globals == db.globals
          case Loaded(merged) => merged == Merge(db, call.agent)
          case Returned(result) => result == Merge(db, call.agent)
          case _ => true)
  }

  ghost predicate Coherent(st: State) {
    && st.db.generation >= 0
    && (forall c :: c in st.calls ==> CallOk(st.db, st.calls[c]))
    && (forall d :: d in st.caches ==> CacheOk(st.db, st.caches[d]))
  }

  lemma CallStepKeepsCoherent(st: State, e: Event)
    requires Coherent(st) && Enabled(st, e) && (e.Look? || e.ReadGlobals? || e.ReadScoped? || e.Keep?)
    ensures Coherent(Step(st, e))
  {
    var call := st.calls[e.c];
    assert CallOk(st.db, call) && CacheOk(st.db, st.caches[call.daemon]);
    assert call.agent.None? ==> Merge(st.db, call.agent) == st.db.globals;
  }

  lemma StepKeepsCoherent(st: State, e: Event)
    requires Coherent(st) && Enabled(st, e)
    ensures Coherent(Step(st, e))
  {
    if e.Upsert? {
      var db' := Upserted(st.db, e.name, e.value, e.agent);
      assert forall c :: c in st.calls ==> CallOk(st.db, st.calls[c]);
      assert forall d :: d in st.caches ==> CacheOk(st.db, st.caches[d]);
      assert db'.generation == st.db.generation + 1;
    } else if e.Look? || e.ReadGlobals? || e.ReadScoped? || e.Keep? {
      CallStepKeepsCoherent(st, e);
    }
  }

  lemma {:induction false} ExecutionIsCoherent(trace: seq<State>)
    requires Execution(trace) && Initial(trace[0])
    ensures Coherent(trace[|trace| - 1])
  {
    if |trace| > 1 {
      var k := |trace| - 2;
      var before := trace[..k + 1];
      assert forall i {:trigger before[i]} :: 0 <= i < |before| ==> before[i] == trace[i];
      assert forall i {:trigger before[i]} :: 0 <= i < k ==> Next(trace[i], trace[i + 1]) && before[i + 1] == trace[i + 1];
      ExecutionIsCoherent(before);
      assert Next(trace[k], trace[k + 1]);
      var e :| Enabled(trace[k], e) && trace[k + 1] == Step(trace[k], e);
      StepKeepsCoherent(trace[k], e);
    }
  }

  /** Cache coherence: whatever other calls, daemons and upserts did in between, a call that ends with the
      generation it began with returns exactly what the tables say now. */
  lemma LookupIsCurrent(trace: seq<State>, c: int)
    requires Execution(trace) && Initial(trace[0])
    requires var st := trace[|trace| - 1];
             c in st.calls && st.calls[c].phase.Returned? && st.calls[c].generation == st.db.generation
    ensures var st := trace[|trace| - 1]; Sees(st.db, st.calls[c].agent, st.calls[c].phase.result)
  {
    var st := trace[|trace| - 1];
    ExecutionIsCoherent(trace);
    MergeIsSeen(st.db, st.calls[c].agent);
  }

  // ---- why the generation has to be unchanged --------------------------------------------------------

  /** A state with one call of agent "a" under way, begun at generation 0, and no secret cached. */
  function OneCall(db: Db, p: Phase): State {
    State(db, map[0 := EMPTY_CACHE], map[7 := Call(0, Some("a"), 0, p)])
  }

  const BEFORE := Db(0, map["A" := "old"], map[])
  const BETWEEN := Upserted(BEFORE, "A", "new", None)
  const AFTER := Upserted(BETWEEN, "B", "new", Some("a"))
  const TORN: Secrets := map["A" := "old", "B" := "new"]

  lemma FirstHalf()
    ensures var s0 := State(BEFORE, map[0 := EMPTY_CACHE], map[]);
            Next(s0, OneCall(BEFORE, Looking)) && Next(OneCall(BEFORE, Looking), OneCall(BEFORE, Loading))
            && Next(OneCall(BEFORE, Loading), OneCall(BEFORE, HalfLoaded(BEFORE.globals)))
  {
    var s0 := State(BEFORE, map[0 := EMPTY_CACHE], map[]);
    assert OneCall(BEFORE, Looking) == Step(s0, Start(7, 0, Some("a")));
    assert OneCall(BEFORE, Loading) == Step(OneCall(BEFORE, Looking), Look(7));
    assert OneCall(BEFORE, HalfLoaded(BEFORE.globals)) == Step(OneCall(BEFORE, Loading), ReadGlobals(7));
  }

  lemma SecondHalf()
    ensures var half := HalfLoaded(BEFORE.globals);
            Next(OneCall(BEFORE, half), OneCall(BETWEEN, half)) && Next(OneCall(BETWEEN, half), OneCall(AFTER, half))
            && Next(OneCall(AFTER, half), OneCall(AFTER, Loaded(TORN)))
  {
    var half := HalfLoaded(BEFORE.globals);
    assert OneCall(BETWEEN, half) == Step(OneCall(BEFORE, half), Upsert("A", "new", None));
    assert OneCall(AFTER, half) == Step(OneCall(BETWEEN, half), Upsert("B", "new", Some("a")));
    assert BEFORE.globals + ScopedTo(AFTER, Some("a")) == TORN;
    assert OneCall(AFTER, Loaded(TORN)) == Step(OneCall(AFTER, half), ReadScoped(7));
  }

  lemma NeverCurrent()
    ensures !Sees(BEFORE, Some("a"), TORN) && !Sees(BETWEEN, Some("a"), TORN) && !Sees(AFTER, Some("a"), TORN)
  {
    MergeIsSeen(BEFORE, Some("a"));
    MergeIsSeen(BETWEEN, Some("a"));
    MergeIsSeen(AFTER, Some("a"));
    assert "B" in TORN && "B" !in Merge(BEFORE, Some("a")) && "B" !in Merge(BETWEEN, Some("a"));
    assert Merge(AFTER, Some("a"))["A"] == "new" && TORN["A"] == "old";
  }

  /** A run from empty caches during which `TORN` is at no time what the tables say. */
  ghost predicate NeverSaysTorn(trace: seq<State>) {
    && Execution(trace) && Initial(trace[0])
    && forall i {:trigger trace[i]} :: 0 <= i < |trace| ==> !Sees(trace[i].db, Some("a"), TORN)
  }

  lemma Extend(trace: seq<State>, st': State) returns (longer: seq<State>)
    requires NeverSaysTorn(trace) && Next(trace[|trace| - 1], st') && !Sees(st'.db, Some("a"), TORN)
    ensures NeverSaysTorn(longer) && longer[|longer| - 1] == st'
  {
    longer := trace + [st'];
    forall i {:trigger longer[i]} | 0 <= i < |longer| - 1 ensures Next(longer[i], longer[i + 1]) {
      if i < |trace| - 1 { assert Next(trace[i], trace[i + 1]); }
    }
  }

  /** Two tables, two reads: with upserts in between, a call can return a mix that was current at no time. */
  lemma TornRead() returns (trace: seq<State>)
    ensures NeverSaysTorn(trace)
    ensures 7 in trace[|trace| - 1].calls && trace[|trace| - 1].calls[7].phase == Returned(TORN)
  {
    FirstHalf();
    SecondHalf();
    NeverCurrent();
    var half := HalfLoaded(BEFORE.globals);
    var last := Step(OneCall(AFTER, Loaded(TORN)), Keep(7));
    assert Next(OneCall(AFTER, Loaded(TORN)), last);
    trace := [State(BEFORE, map[0 := EMPTY_CACHE], map[])];
    trace := Extend(trace, OneCall(BEFORE, Looking));
    trace := Extend(trace, OneCall(BEFORE, Loading));
    trace := Extend(trace, OneCall(BEFORE, half));
    trace := Extend(trace, OneCall(BETWEEN, half));
    trace := Extend(trace, OneCall(AFTER, half));
    trace := Extend(trace, OneCall(AFTER, Loaded(TORN)));
    trace := Extend(trace, last);
  }
}
