/** How often a run is claimed: the worker loop's own retries are capped, reclaims after a crash are not. */
module ClaimBounds {
  import opened Wrappers
  import opened RunQueue
  import opened RunProtocol

  /** A run of the protocol together with the steps taken. */
  ghost predicate Labelled(trace: seq<State>, es: seq<Event>) {
    && |trace| == |es| + 1
    && forall i {:trigger es[i]} :: 0 <= i < |es| ==> Enabled(trace[i], es[i]) && trace[i + 1] == Step(trace[i], es[i])
  }

  /** Every execution has such labels. */
  lemma {:induction false} ExecutionHasLabels(trace: seq<State>) returns (es: seq<Event>)
    requires Execution(trace)
    ensures Labelled(trace, es)
  {
    if |trace| == 1 {
      es := [];
    } else {
      var before, e := LastStep(trace);
      var init := ExecutionHasLabels(before);
      es := init + [e];
      forall i {:trigger es[i]} | 0 <= i < |es| ensures Enabled(trace[i], es[i]) && trace[i + 1] == Step(trace[i], es[i]) {
        if i < |init| { assert init[i] == es[i] && before[i] == trace[i] && before[i + 1] == trace[i + 1]; }
      }
    }
  }

  lemma LabelledIsExecution(trace: seq<State>, es: seq<Event>)
    requires Labelled(trace, es)
    ensures Execution(trace)
  {
    forall i {:trigger trace[i]} | 0 <= i < |trace| - 1 ensures Next(trace[i], trace[i + 1]) {
      assert Enabled(trace[i], es[i]);
    }
  }

  function IsClaim(e: Event, id: int): nat {
    if e.Claim? && e.id == id then 1 else 0
  }

  function IsReap(st: State, e: Event, id: int): nat {
    if e.Reap? && id in st.runs && Orphaned(st.runs[id], st.now, st.lease) then 1 else 0
  }

  /** How often `id` was claimed. */
  function Claims(es: seq<Event>, id: int): nat {
    if es == [] then 0 else Claims(es[..|es| - 1], id) + IsClaim(es[|es| - 1], id)
  }

  /** How often it was reaped. */
  function Reaps(trace: seq<State>, es: seq<Event>, id: int): nat
    requires |trace| == |es| + 1
  {
    if es == [] then 0
    else
      var n := |es| - 1;
      Reaps(trace[..n + 1], es[..n], id) + IsReap(trace[n], es[n], id)
  }

  // ---- the bound ---------------------------------------------------------------------------------

  function Waiting(st: State, id: int): nat {
    if id in st.runs && st.runs[id].status.Pending? then 1 else 0
  }

  function Exists(st: State, id: int): nat {
    if id in st.runs then 1 else 0
  }

  function Requeues(st: State, id: int): nat {
    |RequeuesOf(st.requeues, id)|
  }

  lemma {:induction false} RequeuesAppend(log: seq<(int, nat)>, r: (int, nat), id: int)
    ensures |RequeuesOf(log + [r], id)| == |RequeuesOf(log, id)| + (if r.0 == id then 1 else 0)
  {
    if log == [] {
      assert log + [r] == [r];
    } else {
      assert (log + [r])[1..] == log[1..] + [r];
      RequeuesAppend(log[1..], r, id);
    }
  }

  /** A run comes to wait once when it is made, and again only by a requeue or a reap; a claim ends the wait. */
  lemma OneStepBalance(st: State, e: Event, id: int)
    requires Enabled(st, e)
    ensures var st' := Step(st, e);
            IsClaim(e, id) + Waiting(st', id) + Exists(st, id) + Requeues(st, id)
            <= Waiting(st, id) + Exists(st', id) + Requeues(st', id) + IsReap(st, e, id)
  {
    if e.Requeue? {
      var ex := st.execs[e.x];
      RequeuesAppend(st.requeues, (ex.run, ex.attempt), id);
    }
  }

  lemma {:induction false} Balance(trace: seq<State>, es: seq<Event>, id: int)
    requires Labelled(trace, es) && Initial(trace[0])
    ensures var st := trace[|trace| - 1];
            Claims(es, id) + Waiting(st, id) <= Exists(st, id) + Requeues(st, id) + Reaps(trace, es, id)
  {
    if es != [] {
      var n := |es| - 1;
      assert forall i :: 0 <= i < n ==> es[..n][i] == es[i];
      Balance(trace[..n + 1], es[..n], id);
      OneStepBalance(trace[n], es[n], id);
    }
  }

  lemma LabelsAreBounded(trace: seq<State>, es: seq<Event>, id: int)
    requires Labelled(trace, es) && Initial(trace[0])
    ensures Claims(es, id) <= 3 + Reaps(trace, es, id)
  {
    LabelledIsExecution(trace, es);
    RetriesAreBounded(trace, id);
    Balance(trace, es, id);
  }

  ghost predicate IsBounded(trace: seq<State>, es: seq<Event>, id: int) {
    Labelled(trace, es) && Claims(es, id) <= 3 + Reaps(trace, es, id)
  }

  /** In every execution a run is claimed at most three times more often than it is reaped: at most three
      times if never. Every execution is made of steps, and it holds whichever steps it is taken to be made of. */
  lemma ClaimsAreBounded(trace: seq<State>, id: int)
    requires Execution(trace) && Initial(trace[0])
    ensures (exists es :: Labelled(trace, es)) && forall es :: Labelled(trace, es) ==> IsBounded(trace, es, id)
  {
    var some := ExecutionHasLabels(trace);
    forall es | Labelled(trace, es) ensures IsBounded(trace, es, id) { LabelsAreBounded(trace, es, id); }
  }

  // ---- the bound is met ----------------------------------------------------------------------------

  /** A timely run from an empty queue with its steps, and what has been counted for `id`. */
  ghost predicate Counted(trace: seq<State>, es: seq<Event>, id: int, claims: nat, reaps: nat) {
    && Labelled(trace, es) && Initial(trace[0]) && AllTimely(trace)
    && Claims(es, id) == claims && Reaps(trace, es, id) == reaps
  }

  lemma CountOn(trace: seq<State>, es: seq<Event>, id: int, claims: nat, reaps: nat, e: Event)
    returns (trace': seq<State>, es': seq<Event>)
    requires Counted(trace, es, id, claims, reaps)
    requires Enabled(trace[|trace| - 1], e) && Timely(Step(trace[|trace| - 1], e))
    ensures Counted(trace', es', id, claims + IsClaim(e, id), reaps + IsReap(trace[|trace| - 1], e, id))
    ensures trace'[|trace'| - 1] == Step(trace[|trace| - 1], e)
  {
    var n := |es|;
    trace', es' := trace + [Step(trace[n], e)], es + [e];
    assert es'[..n] == es && trace'[..n + 1] == trace;
    forall i {:trigger es'[i]} | 0 <= i < |es'| ensures Enabled(trace'[i], es'[i]) && trace'[i + 1] == Step(trace'[i], es'[i]) {
      if i < n { assert es[i] == es'[i]; }
    }
    forall i {:trigger trace'[i]} | 0 <= i < |trace'| ensures Timely(trace'[i]) {
      if i <= n { assert trace'[i] == trace[i]; }
    }
  }

  /** Nobody at work, and `id` waiting after `attempts` attempts. */
  ghost predicate Idle(st: State, id: int, attempts: nat) {
    st.execs == map[] && id in st.runs && st.runs[id].status.Pending? && st.runs[id].attempts == attempts
    && !st.runs[id].ownLimit
  }

  /** Executor 0 alone at work on `id`, with its attempt counted and its lease fresh. */
  ghost predicate AtWork(st: State, id: int, attempts: nat) {
    && id in st.runs && st.runs[id].status.Running? && st.runs[id].attempts == attempts && !st.runs[id].ownLimit
    && LastSign(st.runs[id]) == Some(st.now)
    && st.execs == map[0 := Executor(id, Executing, attempts, st.now)]
  }

  lemma StartWork(trace: seq<State>, es: seq<Event>, id: int, claims: nat, reaps: nat, attempts: nat)
    returns (trace': seq<State>, es': seq<Event>)
    requires Counted(trace, es, id, claims, reaps) && Idle(trace[|trace| - 1], id, attempts)
    ensures Counted(trace', es', id, claims + 1, reaps) && AtWork(trace'[|trace'| - 1], id, attempts + 1)
    ensures trace'[|trace'| - 1].requeues == trace[|trace| - 1].requeues
  {
    trace', es' := CountOn(trace, es, id, claims, reaps, Claim(0, id));
    trace', es' := CountOn(trace', es', id, claims + 1, reaps, MarkAttempt(0));
  }

  /** The attempt ends without an exit code and is requeued. */
  lemma FailOnce(trace: seq<State>, es: seq<Event>, id: int, claims: nat, reaps: nat, attempts: nat)
    returns (trace': seq<State>, es': seq<Event>)
    requires Counted(trace, es, id, claims, reaps) && Idle(trace[|trace| - 1], id, attempts) && attempts + 1 < MAX_ATTEMPTS
    ensures Counted(trace', es', id, claims + 1, reaps) && Idle(trace'[|trace'| - 1], id, attempts + 1)
  {
    trace', es' := StartWork(trace, es, id, claims, reaps, attempts);
    trace', es' := CountOn(trace', es', id, claims + 1, reaps, Finish(0, NotExecuted("container vanished")));
    trace', es' := CountOn(trace', es', id, claims + 1, reaps, ReadOutcome(0));
    trace', es' := CountOn(trace', es', id, claims + 1, reaps, Requeue(0));
    assert trace'[|trace'| - 1].execs == map[];
  }

  /** The executor crashes, and the run is reaped one lease later. */
  lemma CrashOnce(trace: seq<State>, es: seq<Event>, id: int, claims: nat, reaps: nat, attempts: nat)
    returns (trace': seq<State>, es': seq<Event>)
    requires Counted(trace, es, id, claims, reaps) && Idle(trace[|trace| - 1], id, attempts)
    ensures Counted(trace', es', id, claims + 1, reaps + 1) && Idle(trace'[|trace'| - 1], id, attempts + 1)
    ensures trace'[|trace'| - 1].requeues == trace[|trace| - 1].requeues
  {
    trace', es' := StartWork(trace, es, id, claims, reaps, attempts);
    trace', es' := CountOn(trace', es', id, claims + 1, reaps, Crash(0));
    assert trace'[|trace'| - 1].execs == map[];
    trace', es' := CountOn(trace', es', id, claims + 1, reaps, Tick(trace'[|trace'| - 1].lease + 1));
    trace', es' := CountOn(trace', es', id, claims + 1, reaps, Reap);
  }

  lemma {:induction false} CrashMore(trace: seq<State>, es: seq<Event>, id: int, claims: nat, reaps: nat, attempts: nat, n: nat)
    returns (trace': seq<State>, es': seq<Event>)
    requires Counted(trace, es, id, claims, reaps) && Idle(trace[|trace| - 1], id, attempts)
    ensures Counted(trace', es', id, claims + n, reaps + n) && Idle(trace'[|trace'| - 1], id, attempts + n)
    ensures trace'[|trace'| - 1].requeues == trace[|trace| - 1].requeues
  {
    trace', es' := trace, es;
    if n > 0 {
      trace', es' := CrashMore(trace, es, id, claims, reaps, attempts, n - 1);
      trace', es' := CrashOnce(trace', es', id, claims + n - 1, reaps + n - 1, attempts + n - 1);
    }
  }

  lemma Begin(id: int) returns (trace: seq<State>, es: seq<Event>)
    ensures Counted(trace, es, id, 0, 0) && Idle(trace[|trace| - 1], id, 0) && trace[|trace| - 1].requeues == []
  {
    trace, es := [State(0, 600, map[], map[], [])], [];
    trace, es := CountOn(trace, es, id, 0, 0, Enqueue(id, "python", false));
  }

  /** A run whose executors keep crashing is claimed again each time it is reaped, without end and without a
      single requeue. */
  lemma CrashLoop(id: int, n: nat) returns (trace: seq<State>, es: seq<Event>)
    ensures Counted(trace, es, id, n, n) && Idle(trace[|trace| - 1], id, n) && trace[|trace| - 1].requeues == []
  {
    trace, es := Begin(id);
    trace, es := CrashMore(trace, es, id, 0, 0, 0, n);
  }

  /** For any number of reaps some run is claimed exactly as often as `ClaimsAreBounded` allows. */
  lemma TheClaimBoundIsMet(id: int, n: nat) returns (trace: seq<State>, es: seq<Event>)
    ensures Counted(trace, es, id, 3 + n, n)
  {
    trace, es := Begin(id);
    trace, es := FailOnce(trace, es, id, 0, 0, 0);
    trace, es := FailOnce(trace, es, id, 1, 0, 1);
    trace, es := CrashMore(trace, es, id, 2, 0, 2, n);
    trace, es := StartWork(trace, es, id, 2 + n, n, 2 + n);
  }
}
