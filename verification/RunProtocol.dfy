/** The lease protocol over the run queue: executors claim, beat, finish, requeue and crash while a reaper,
    a stale-pending sweep and an operator's cancel run beside them. Rows that flow steps drive directly are
    not part of it. */
module RunProtocol {
  import opened Wrappers
  import opened RunQueue

  const MAX_ATTEMPTS := 3

  /** Where a worker task stands. After `Finished` it decides about a retry: it has still to read the
      outcome, has found it retryable but has still to read the error, or is about to requeue. */
  datatype Phase = Claimed | Executing | Finished | Retrying | WillRequeue

  datatype Executor = Executor(run: int, phase: Phase, attempt: nat, lastBeat: int)

  /** `requeues` is history: run and attempt number of every requeue the worker loop made. */
  datatype State = State(now: int, lease: nat, runs: Runs, execs: map<int, Executor>, requeues: seq<(int, nat)>)

  datatype Event =
    | Enqueue(id: int, runtime: string, ownLimit: bool)
    | Claim(x: int, id: int)
    | MarkAttempt(x: int)
    | Beat(x: int)
    | Finish(x: int, end: End)
    | ReadOutcome(x: int)
    | ReadError(x: int)
    | Requeue(x: int)
    | Crash(x: int)
    | Reap
    | FailStale(maxAge: int)
    | Cancel(id: int)
    | Tick(d: nat)

  predicate InPhase(st: State, x: int, p: Phase) {
    x in st.execs && st.execs[x].phase == p && st.execs[x].run in st.runs
  }

  predicate Enabled(st: State, e: Event) {
    match e
    case Enqueue(id, _, _) => id !in st.runs
    case Claim(x, id) => x !in st.execs && id in st.runs && st.runs[id].status.Pending?
    case MarkAttempt(x) => InPhase(st, x, Claimed)
    case Beat(x) => InPhase(st, x, Executing)
    case Finish(x, _) => InPhase(st, x, Executing)
    case ReadOutcome(x) => InPhase(st, x, Finished)
    case ReadError(x) => InPhase(st, x, Retrying)
    case Requeue(x) => InPhase(st, x, WillRequeue)
    case Crash(x) => x in st.execs
    case Reap => true
    case FailStale(_) => true
    case Cancel(id) => id in st.runs
    case Tick(_) => true
  }

  function NewRun(runtime: string, ownLimit: bool, now: int): Run {
    Run(runtime, ownLimit, Pending, 0, None, None, now, None, None, None)
  }

  /** Only a failure without an exit code is retried. */
  predicate Retryable(r: Run, attempt: nat) {
    r.status.Failed? && r.exitCode.None? && attempt < MAX_ATTEMPTS
  }

  /** The retry decision recovers from the row exactly whether the execution ended without an exit code. */
  lemma RetryReadsTheEnd(r: Run, end: End, now: int, attempt: nat)
    requires !r.status.Canceled?
    ensures Retryable(FinishedRow(r, end, now), attempt) <==> end.NotExecuted? && attempt < MAX_ATTEMPTS
  {
  }

  function MoveTo(st: State, x: int, p: Phase): State
    requires x in st.execs
  {
    st.(execs := st.execs[x := st.execs[x].(phase := p)])
  }

  function Leave(st: State, x: int): State {
    st.(execs := st.execs - {x})
  }

  function Step(st: State, e: Event): State
    requires Enabled(st, e)
  {
    match e
    case Enqueue(id, runtime, ownLimit) => st.(runs := st.runs[id := NewRun(runtime, ownLimit, st.now)])
    case Claim(x, id) =>
      st.(runs := Update(st.runs, id, r => ClaimedRow(r, st.now)),
          execs := st.execs[x := Executor(id, Claimed, 0, st.now)])
    case MarkAttempt(x) =>
      var id := st.execs[x].run;
      var n := st.runs[id].attempts + 1;
      st.(runs := Update(st.runs, id, (r: Run) => r.(attempts := n)),
          execs := st.execs[x := st.execs[x].(phase := Executing, attempt := n)])
    case Beat(x) =>
      st.(runs := Update(st.runs, st.execs[x].run, r => TouchedRow(r, st.now)),
          execs := st.execs[x := st.execs[x].(lastBeat := st.now)])
    case Finish(x, end) =>
      MoveTo(st.(runs := Update(st.runs, st.execs[x].run, r => FinishedRow(r, end, st.now))), x, Finished)
    case ReadOutcome(x) =>
      var r := st.runs[st.execs[x].run];
      if !Retryable(r, st.execs[x].attempt) then Leave(st, x)
      else MoveTo(st, x, if r.ownLimit then Retrying else WillRequeue)
    case ReadError(x) =>
      if st.runs[st.execs[x].run].error == Some("timeout") then Leave(st, x) else MoveTo(st, x, WillRequeue)
    case Requeue(x) =>
      var ex := st.execs[x];
      Leave(st.(runs := Update(st.runs, ex.run, RequeuedRow), requeues := st.requeues + [(ex.run, ex.attempt)]), x)
    case Crash(x) => Leave(st, x)
    case Reap => st.(runs := UpdateAll(st.runs, r => ReapedRow(r, st.now, st.lease)))
    case FailStale(maxAge) => st.(runs := UpdateAll(st.runs, r => SweptRow(r, st.now, maxAge)))
    case Cancel(id) => st.(runs := Update(st.runs, id, r => CanceledRow(r, st.now)))
    case Tick(d) => st.(now := st.now + d)
  }

  /** Rows other than `id` stay as they are. */
  ghost predicate OnlyRow(rows: Runs, rows': Runs, id: int) {
    rows'.Keys == rows.Keys && forall k :: k in rows && k != id ==> rows'[k] == rows[k]
  }

  /** A cancel takes effect on every row but a succeeded one, a heartbeat on a running one. */
  lemma OneRowSteps(st: State, e: Event, id: int)
    requires Enabled(st, e) && id in st.runs && (e == Cancel(id) || (e.Beat? && st.execs[e.x].run == id))
    ensures var r, r' := st.runs[id], Step(st, e).runs[id];
            && OnlyRow(st.runs, Step(st, e).runs, id)
            && (e.Cancel? ==> r' == if r.status == Succeeded then r
                                    else r.(status := Canceled, error := Some("canceled by operator"), finishedAt := Some(st.now)))
            && (e.Beat? ==> Step(st, e).execs[e.x].lastBeat == st.now
                            && r' == if r.status == Running then r.(heartbeatAt := Some(st.now)) else r)
  {
  }

  /** The reaper puts back exactly the running rows without a sign of life within the lease, the sweep fails exactly the
      pending rows older than its limit. */
  lemma AllRowsSteps(st: State, e: Event, id: int)
    requires (e.Reap? || e.FailStale?) && id in st.runs
    ensures Step(st, e).runs.Keys == st.runs.Keys && Step(st, e).execs == st.execs
    ensures var r, r' := st.runs[id], Step(st, e).runs[id];
            var sign := if r.heartbeatAt.Some? then r.heartbeatAt else r.startedAt;
            && (e.Reap? ==> r' == if r.status == Running && sign.Some? && sign.value < st.now - st.lease
                                  then r.(status := Pending, startedAt := None, heartbeatAt := None) else r)
            && (e.FailStale? ==> r' == if r.status == Pending && r.createdAt < st.now - e.maxAge
                                       then r.(status := Failed, error := Some("unclaimed: pending past timeout"), finishedAt := Some(st.now)) else r)
  {
  }

  ghost predicate Next(st: State, st': State) {
    exists e :: Enabled(st, e) && st' == Step(st, e)
  }

  ghost predicate Execution(trace: seq<State>) {
    |trace| > 0 && forall i {:trigger trace[i]} :: 0 <= i < |trace| - 1 ==> Next(trace[i], trace[i + 1])
  }

  /** One step more. */
  lemma Extend(trace: seq<State>, e: Event) returns (longer: seq<State>)
    requires Execution(trace) && Enabled(trace[|trace| - 1], e)
    ensures Execution(longer) && |longer| == |trace| + 1 && longer[|trace|] == Step(trace[|trace| - 1], e)
    ensures forall i {:trigger longer[i]} :: 0 <= i < |trace| ==> longer[i] == trace[i]
  {
    longer := trace + [Step(trace[|trace| - 1], e)];
    forall i {:trigger longer[i]} | 0 <= i < |longer| - 1 ensures Next(longer[i], longer[i + 1]) {
      if i < |trace| - 1 { assert Next(trace[i], trace[i + 1]); }
    }
  }

  /** The first step, and the execution that is left. */
  lemma FirstStep(trace: seq<State>) returns (e: Event)
    requires Execution(trace) && |trace| > 1
    ensures Enabled(trace[0], e) && trace[1] == Step(trace[0], e) && Execution(trace[1..])
  {
    assert Next(trace[0], trace[1]);
    e :| Enabled(trace[0], e) && trace[1] == Step(trace[0], e);
    var rest := trace[1..];
    assert forall i {:trigger rest[i]} :: 0 <= i < |rest| ==> rest[i] == trace[i + 1];
    assert forall i {:trigger rest[i]} :: 0 <= i < |rest| - 1 ==> Next(trace[i + 1], trace[i + 2]) && rest[i + 1] == trace[i + 2];
  }

  /** The last step, and the execution before it. */
  lemma LastStep(trace: seq<State>) returns (before: seq<State>, e: Event)
    requires Execution(trace) && |trace| > 1
    ensures var k := |trace| - 2;
            && before == trace[..k + 1] && Execution(before)
            && Enabled(trace[k], e) && trace[k + 1] == Step(trace[k], e)
  {
    var k := |trace| - 2;
    before := trace[..k + 1];
    assert forall i {:trigger before[i]} :: 0 <= i < |before| ==> before[i] == trace[i];
    assert forall i {:trigger before[i]} :: 0 <= i < k ==> Next(trace[i], trace[i + 1]) && before[i + 1] == trace[i + 1];
    assert Next(trace[k], trace[k + 1]);
    e :| Enabled(trace[k], e) && trace[k + 1] == Step(trace[k], e);
  }

  /** `st'` can follow `st`, however late anybody beats. */
  ghost predicate Continues(st: State, st': State) {
    exists trace: seq<State> :: Execution(trace) && trace[0] == st && trace[|trace| - 1] == st'
  }

  lemma ContinuesItself(st: State)
    ensures Continues(st, st)
  {
    var trace := [st];
    assert Execution(trace) && trace[0] == st && trace[|trace| - 1] == st;
  }

  lemma ContinuesOn(st: State, mid: State, e: Event)
    requires Continues(st, mid) && Enabled(mid, e)
    ensures Continues(st, Step(mid, e))
  {
    var trace: seq<State> :| Execution(trace) && trace[0] == st && trace[|trace| - 1] == mid;
    var longer := Extend(trace, e);
    assert longer[0] == st && longer[|longer| - 1] == Step(mid, e);
  }

  /** An empty queue with nobody at work. */
  predicate Initial(st: State) {
    st.runs == map[] && st.execs == map[] && st.requeues == []
  }

  /** A run of the protocol from an empty queue, with or without timely heartbeats. */
  ghost predicate FromEmpty(trace: seq<State>) {
    Execution(trace) && Initial(trace[0])
  }

  // ---- the lease -----------------------------------------------------------------------------------

  predicate Holding(p: Phase) {
    p.Claimed? || p.Executing?
  }

  /** Every live executor that holds a lease has beaten within it. */
  ghost predicate Timely(st: State) {
    forall x :: x in st.execs && Holding(st.execs[x].phase) ==> st.now - st.execs[x].lastBeat <= st.lease
  }

  ghost predicate AllTimely(trace: seq<State>) {
    forall i {:trigger trace[i]} :: 0 <= i < |trace| ==> Timely(trace[i])
  }

  /** No run has two live executors. */
  ghost predicate Exclusive(st: State) {
    forall x, y :: x in st.execs && y in st.execs && x != y ==> st.execs[x].run != st.execs[y].run
  }

  /** What a live executor may find in its row. */
  ghost predicate RowFits(runs: Runs, ex: Executor) {
    && ex.run in runs
    && var r := runs[ex.run];
       match ex.phase
       case Claimed => HoldsLease(r, ex)
       case Executing => HoldsLease(r, ex)
       case Finished => r.status.Succeeded? || r.status.Failed? || r.status.Canceled?
       case Retrying => r.status.Failed? || r.status.Canceled?
       case WillRequeue => r.status.Failed? || r.status.Canceled?
  }

  ghost predicate HoldsLease(r: Run, ex: Executor) {
    r.status.Canceled? || (r.status.Running? && LastSign(r).Some? && LastSign(r).value >= ex.lastBeat)
  }

  ghost predicate CancelsNamed(runs: Runs) {
    forall id :: id in runs && runs[id].status.Canceled? ==> runs[id].error == Some(CANCEL_REASON)
  }

  ghost predicate LeaseOk(st: State) {
    Exclusive(st) && CancelsNamed(st.runs) && forall x {:trigger RowFits(st.runs, st.execs[x])} :: x in st.execs ==> RowFits(st.runs, st.execs[x])
  }

  /** An executor of a run other than the one that changed is not affected. */
  lemma OthersFit(st: State, runs': Runs, x: int, id: int)
    requires LeaseOk(st) && x in st.execs && st.execs[x].run != id
    requires forall k :: k in st.runs && k != id ==> k in runs' && runs'[k] == st.runs[k]
    ensures RowFits(runs', st.execs[x])
  {
    assert RowFits(st.runs, st.execs[x]);
  }

  /** A step of executor `x` on its own row. */
  lemma OwnStepKeepsLease(st: State, st': State, x: int)
    requires LeaseOk(st) && x in st.execs && st.execs[x].run in st.runs
    requires forall k :: k in st.runs && k != st.execs[x].run ==> k in st'.runs && st'.runs[k] == st.runs[k]
    requires st'.execs == st.execs - {x} || (exists ex: Executor :: ex.run == st.execs[x].run && st'.execs == st.execs[x := ex])
    requires x in st'.execs ==> RowFits(st'.runs, st'.execs[x])
    requires CancelsNamed(st'.runs)
    ensures LeaseOk(st')
  {
    forall y | y in st'.execs ensures RowFits(st'.runs, st'.execs[y]) {
      if y != x { OthersFit(st, st'.runs, y, st.execs[x].run); }
    }
  }

  lemma ClaimKeepsLease(st: State, x: int, id: int)
    requires LeaseOk(st) && Enabled(st, Claim(x, id))
    ensures LeaseOk(Step(st, Claim(x, id)))
  {
    var st' := Step(st, Claim(x, id));
    forall y | y in st.execs ensures st.execs[y].run != id {
      assert RowFits(st.runs, st.execs[y]);
    }
    forall y | y in st'.execs ensures RowFits(st'.runs, st'.execs[y]) {
      if y != x { OthersFit(st, st'.runs, y, id); }
    }
  }

  /** A statement of the reaper, the sweep or the operator touches no row an executor holds, or cancels it. */
  lemma TableKeepsLease(st: State, st': State)
    requires LeaseOk(st) && st'.execs == st.execs && CancelsNamed(st'.runs)
    requires forall x :: x in st.execs && st.execs[x].run in st.runs ==>
               && var id := st.execs[x].run;
               && id in st'.runs
               && (st'.runs[id] == st.runs[id] || (st'.runs[id].status.Canceled? && !st.runs[id].status.Succeeded?))
    ensures LeaseOk(st')
  {
    forall x | x in st'.execs ensures RowFits(st'.runs, st'.execs[x]) {
      assert RowFits(st.runs, st.execs[x]);
    }
  }

  lemma ReapSparesTheLive(st: State, x: int)
    requires LeaseOk(st) && Timely(st) && x in st.execs && st.execs[x].run in st.runs
    ensures ReapedRow(st.runs[st.execs[x].run], st.now, st.lease) == st.runs[st.execs[x].run]
  {
    assert RowFits(st.runs, st.execs[x]);
  }

  lemma WorkKeepsLease(st: State, e: Event)
    requires LeaseOk(st) && Enabled(st, e) && (e.MarkAttempt? || e.Beat? || e.Finish?)
    ensures LeaseOk(Step(st, e))
  {
    assert RowFits(st.runs, st.execs[e.x]);
    OwnStepKeepsLease(st, Step(st, e), e.x);
  }

  lemma DecisionKeepsLease(st: State, e: Event)
    requires LeaseOk(st) && Enabled(st, e) && (e.ReadOutcome? || e.ReadError? || e.Requeue? || e.Crash?)
    ensures LeaseOk(Step(st, e))
  {
    assert RowFits(st.runs, st.execs[e.x]);
    OwnStepKeepsLease(st, Step(st, e), e.x);
  }

  lemma ReapKeepsLease(st: State)
    requires LeaseOk(st) && Timely(st)
    ensures LeaseOk(Step(st, Reap))
  {
    forall x | x in st.execs && st.execs[x].run in st.runs
      ensures ReapedRow(st.runs[st.execs[x].run], st.now, st.lease) == st.runs[st.execs[x].run]
    {
      ReapSparesTheLive(st, x);
    }
    TableKeepsLease(st, Step(st, Reap));
  }

  lemma SweepKeepsLease(st: State, maxAge: int)
    requires LeaseOk(st)
    ensures LeaseOk(Step(st, FailStale(maxAge)))
  {
    assert forall x :: x in st.execs ==> RowFits(st.runs, st.execs[x]);
    TableKeepsLease(st, Step(st, FailStale(maxAge)));
  }

  lemma StepKeepsLease(st: State, e: Event)
    requires LeaseOk(st) && Timely(st) && Enabled(st, e)
    ensures LeaseOk(Step(st, e))
  {
    match e
    case Claim(x, id) => ClaimKeepsLease(st, x, id);
    case Reap => ReapKeepsLease(st);
    case FailStale(maxAge) => SweepKeepsLease(st, maxAge);
    case Enqueue(_, _, _) => TableKeepsLease(st, Step(st, e));
    case Cancel(_) => TableKeepsLease(st, Step(st, e));
    case Tick(_) => TableKeepsLease(st, Step(st, e));
    case MarkAttempt(_) => WorkKeepsLease(st, e);
    case Beat(_) => WorkKeepsLease(st, e);
    case Finish(_, _) => WorkKeepsLease(st, e);
    case _ => DecisionKeepsLease(st, e);
  }

  /** Lease safety: while every live executor beats within the lease, no run ever has two of them. */
  lemma {:induction false} LeaseSafety(trace: seq<State>)
    requires Execution(trace) && Initial(trace[0]) && AllTimely(trace)
    ensures LeaseOk(trace[|trace| - 1])
  {
    if |trace| > 1 {
      var before, e := LastStep(trace);
      assert forall i {:trigger before[i]} :: 0 <= i < |before| ==> before[i] == trace[i];
      LeaseSafety(before);
      StepKeepsLease(trace[|trace| - 2], e);
    }
  }

  // ---- succeeded and canceled are final -----------------------------------------------------------------

  /** Status, attempts, exit code, error and times of a succeeded row never change again. */
  lemma SucceededIsFinal(st: State, e: Event, id: int)
    requires LeaseOk(st) && Enabled(st, e) && id in st.runs && st.runs[id].status.Succeeded?
    ensures id in Step(st, e).runs && Step(st, e).runs[id] == st.runs[id]
  {
    assert forall x :: x in st.execs ==> RowFits(st.runs, st.execs[x]);
  }

  /** Nobody is between reading a retryable outcome of `id` and requeueing it. */
  ghost predicate NoRetryUnderway(st: State, id: int) {
    forall x :: x in st.execs && st.execs[x].run == id ==> !st.execs[x].phase.Retrying? && !st.execs[x].phase.WillRequeue?
  }

  ghost predicate SettledCancel(st: State, id: int) {
    id in st.runs && st.runs[id].status.Canceled? && NoRetryUnderway(st, id)
  }

  /** The one statement that can undo a cancel is the requeue of an executor that decided before it. */
  lemma OnlyRequeueUndoesCancel(st: State, e: Event, id: int)
    requires Enabled(st, e) && id in st.runs && st.runs[id].status.Canceled?
    ensures id in Step(st, e).runs
    ensures Step(st, e).runs[id].status.Canceled? <==> !(e.Requeue? && st.execs[e.x].run == id)
  {
  }

  lemma SettledCancelIsFinal(st: State, e: Event, id: int)
    requires Enabled(st, e) && SettledCancel(st, id)
    ensures SettledCancel(Step(st, e), id)
  {
    OnlyRequeueUndoesCancel(st, e, id);
  }

  /** A cancel with no retry under way is final, however late anybody beats. */
  lemma {:induction false} SettledCancelHolds(trace: seq<State>, id: int)
    requires Execution(trace) && SettledCancel(trace[0], id)
    ensures SettledCancel(trace[|trace| - 1], id)
  {
    if |trace| > 1 {
      var e := FirstStep(trace);
      SettledCancelIsFinal(trace[0], e, id);
      SettledCancelHolds(trace[1..], id);
    }
  }

  /** Over whole runs: once succeeded, a row keeps its status, attempts, exit code, error and times. */
  lemma {:induction false} SucceededHolds(trace: seq<State>, id: int)
    requires Execution(trace) && AllTimely(trace) && LeaseOk(trace[0])
    requires id in trace[0].runs && trace[0].runs[id].status.Succeeded?
    ensures id in trace[|trace| - 1].runs && trace[|trace| - 1].runs[id] == trace[0].runs[id]
  {
    if |trace| > 1 {
      var e := FirstStep(trace);
      SucceededIsFinal(trace[0], e, id);
      StepKeepsLease(trace[0], e);
      assert forall i {:trigger trace[1..][i]} :: 0 <= i < |trace| - 1 ==> trace[1..][i] == trace[i + 1];
      SucceededHolds(trace[1..], id);
    }
  }

  // ---- exactly when a cancel is lost ------------------------------------------------------------------------

  ghost predicate CanBeUndone(st: State, id: int) {
    exists st' :: Continues(st, st') && id in st'.runs && !st'.runs[id].status.Canceled?
  }

  /** `st'` can follow `st` with every live executor beating in time. */
  ghost predicate TimelyContinues(st: State, st': State) {
    exists trace: seq<State> :: Execution(trace) && AllTimely(trace) && trace[0] == st && trace[|trace| - 1] == st'
  }

  ghost predicate CanBeUndoneInTime(st: State, id: int) {
    exists st' :: TimelyContinues(st, st') && id in st'.runs && !st'.runs[id].status.Canceled?
  }

  lemma StepKeepsCancelsNamed(st: State, e: Event)
    requires CancelsNamed(st.runs) && Enabled(st, e)
    ensures CancelsNamed(Step(st, e).runs)
  {
  }

  /** From an empty queue, every canceled row gives the operator's reason. */
  lemma {:induction false} CancelsAreNamed(trace: seq<State>)
    requires FromEmpty(trace)
    ensures CancelsNamed(trace[|trace| - 1].runs)
  {
    if |trace| > 1 {
      var before, e := LastStep(trace);
      CancelsAreNamed(before);
      StepKeepsCancelsNamed(trace[|trace| - 2], e);
    }
  }

  /** An executor past its outcome check brings a canceled run back to the queue, and needs no late heartbeat to. */
  lemma RetryUndoesCancel(st: State, id: int, x: int) returns (trace: seq<State>)
    requires CancelsNamed(st.runs) && id in st.runs && st.runs[id].status.Canceled?
    requires x in st.execs && st.execs[x].run == id && (st.execs[x].phase.Retrying? || st.execs[x].phase.WillRequeue?)
    ensures Execution(trace) && trace[0] == st && (Timely(st) ==> AllTimely(trace))
    ensures var st' := trace[|trace| - 1]; id in st'.runs && st'.runs[id].status.Pending?
  {
    trace := [st];
    if st.execs[x].phase.Retrying? {
      trace := Extend(trace, ReadError(x));
    }
    trace := Extend(trace, Requeue(x));
  }

  /** Exactly when a cancel can be lost: when it falls between an executor's outcome check and its requeue. Timely
      heartbeats make no difference. `CancelsAreNamed` gives the hypothesis in every reachable state. */
  lemma CancelIsLostIff(st: State, id: int)
    requires CancelsNamed(st.runs) && id in st.runs && st.runs[id].status.Canceled?
    ensures CanBeUndone(st, id) <==> !NoRetryUnderway(st, id)
    ensures Timely(st) ==> (CanBeUndoneInTime(st, id) <==> !NoRetryUnderway(st, id))
  {
    if NoRetryUnderway(st, id) {
      forall trace: seq<State> | Execution(trace) && trace[0] == st ensures SettledCancel(trace[|trace| - 1], id) {
        SettledCancelHolds(trace, id);
      }
    } else {
      var x :| x in st.execs && st.execs[x].run == id && (st.execs[x].phase.Retrying? || st.execs[x].phase.WillRequeue?);
      var trace := RetryUndoesCancel(st, id, x);
      var st' := trace[|trace| - 1];
      assert Continues(st, st') && (Timely(st) ==> TimelyContinues(st, st'));
    }
  }

  // ---- retries are bounded ------------------------------------------------------------------------------

  /** Attempt numbers identify executors: none is shared, and none that was requeued is still in use. */
  ghost predicate AttemptsOk(st: State) {
    AllFit(st) && NumbersDiffer(st) && RequeuesOk(st)
  }

  ghost predicate AllFit(st: State) {
    forall x :: x in st.execs ==> AttemptFits(st.runs, st.execs[x])
  }

  ghost predicate NumbersDiffer(st: State) {
    forall x, y :: x in st.execs && y in st.execs && x != y && st.execs[x].run == st.execs[y].run ==>
      st.execs[x].attempt == 0 || st.execs[x].attempt != st.execs[y].attempt
  }

  ghost predicate RequeuesOk(st: State) {
    && (forall i :: 0 <= i < |st.requeues| ==> RequeueFits(st, st.requeues[i].0, st.requeues[i].1))
    && (forall i, j :: 0 <= i < j < |st.requeues| ==> st.requeues[i] != st.requeues[j])
  }

  ghost predicate AttemptFits(runs: Runs, ex: Executor) {
    && ex.run in runs && ex.attempt <= runs[ex.run].attempts
    && (ex.phase.Claimed? <==> ex.attempt == 0)
    && (ex.phase.Retrying? || ex.phase.WillRequeue? ==> ex.attempt < MAX_ATTEMPTS)
  }

  ghost predicate RequeueFits(st: State, id: int, attempt: nat) {
    && id in st.runs && 1 <= attempt < MAX_ATTEMPTS && attempt <= st.runs[id].attempts
    && forall x :: x in st.execs && st.execs[x].run == id ==> st.execs[x].attempt != attempt
  }

  /** Attempt counts never go down; an executor keeps its number, gets none when it claims, or gets a new one. */
  ghost predicate Grows(st: State, st': State) {
    && (forall id :: id in st.runs ==> id in st'.runs && st.runs[id].attempts <= st'.runs[id].attempts)
    && (forall x :: x in st'.execs ==>
          || (x !in st.execs && st'.execs[x].attempt == 0)
          || (x in st.execs && st'.execs[x].run == st.execs[x].run && st'.execs[x].attempt == st.execs[x].attempt)
          || (x in st.execs && Renumbered(st, st', x)))
    && (forall x, y :: x in st.execs && y in st.execs && x in st'.execs && y in st'.execs ==>
          Renumbered(st, st', x) && Renumbered(st, st', y) ==> x == y)
  }

  ghost predicate Renumbered(st: State, st': State, x: int)
    requires x in st.execs && x in st'.execs
  {
    st'.execs[x].run == st.execs[x].run && st.execs[x].run in st.runs
    && st'.execs[x].attempt > st.runs[st.execs[x].run].attempts
  }

  lemma AttemptsGrow(st: State, e: Event)
    requires AllFit(st) && Enabled(st, e)
    ensures Grows(st, Step(st, e))
  {
    var st' := Step(st, e);
    forall x | x in st.execs && x in st'.execs && !(e.MarkAttempt? && e.x == x)
      ensures st'.execs[x].run == st.execs[x].run && st'.execs[x].attempt == st.execs[x].attempt && !Renumbered(st, st', x)
    {
      assert AttemptFits(st.runs, st.execs[x]);
    }
  }

  lemma StepKeepsFit(st: State, e: Event)
    requires AllFit(st) && Enabled(st, e)
    ensures AllFit(Step(st, e))
  {
    var st' := Step(st, e);
    forall x | x in st'.execs ensures AttemptFits(st'.runs, st'.execs[x]) {
      StepKeepsOneFit(st, e, x);
    }
  }

  lemma StepKeepsOneFit(st: State, e: Event, x: int)
    requires AllFit(st) && Enabled(st, e) && x in Step(st, e).execs
    ensures AttemptFits(Step(st, e).runs, Step(st, e).execs[x])
  {
    assert x in st.execs ==> AttemptFits(st.runs, st.execs[x]);
  }

  lemma GrowingKeepsNumbers(st: State, st': State)
    requires AllFit(st) && NumbersDiffer(st) && Grows(st, st')
    ensures NumbersDiffer(st')
  {
    forall x, y | x in st'.execs && y in st'.execs && x != y && st'.execs[x].run == st'.execs[y].run
      ensures st'.execs[x].attempt == 0 || st'.execs[x].attempt != st'.execs[y].attempt
    {
      assert x in st.execs ==> AttemptFits(st.runs, st.execs[x]);
      assert y in st.execs ==> AttemptFits(st.runs, st.execs[y]);
    }
  }

  lemma GrowingKeepsRequeue(st: State, st': State, id: int, attempt: nat)
    requires RequeueFits(st, id, attempt) && Grows(st, st')
    ensures RequeueFits(st', id, attempt)
  {
  }

  lemma StepKeepsAttempts(st: State, e: Event)
    requires AttemptsOk(st) && Enabled(st, e)
    ensures AttemptsOk(Step(st, e))
  {
    var st' := Step(st, e);
    AttemptsGrow(st, e);
    StepKeepsFit(st, e);
    GrowingKeepsNumbers(st, st');
    forall i | 0 <= i < |st.requeues| ensures RequeueFits(st', st.requeues[i].0, st.requeues[i].1) {
      GrowingKeepsRequeue(st, st', st.requeues[i].0, st.requeues[i].1);
    }
    if e.Requeue? { NewRequeueFits(st, e.x); }
  }

  /** The executor that requeues takes its number with it. */
  lemma NewRequeueFits(st: State, x: int)
    requires AttemptsOk(st) && Enabled(st, Requeue(x))
    ensures var ex := st.execs[x];
            RequeueFits(Step(st, Requeue(x)), ex.run, ex.attempt) && (ex.run, ex.attempt) !in st.requeues
  {
    var ex := st.execs[x];
    assert AttemptFits(st.runs, ex);
    forall i | 0 <= i < |st.requeues| ensures st.requeues[i] != (ex.run, ex.attempt) {
      assert RequeueFits(st, st.requeues[i].0, st.requeues[i].1);
    }
  }

  lemma {:induction false} AttemptsStayOk(trace: seq<State>)
    requires Execution(trace) && Initial(trace[0])
    ensures AttemptsOk(trace[|trace| - 1])
  {
    if |trace| > 1 {
      var before, e := LastStep(trace);
      AttemptsStayOk(before);
      StepKeepsAttempts(trace[|trace| - 2], e);
    }
  }

  function RequeuesOf(log: seq<(int, nat)>, id: int): seq<nat> {
    if log == [] then []
    else (if log[0].0 == id then [log[0].1] else []) + RequeuesOf(log[1..], id)
  }

  lemma {:induction false} RequeuesAreLogged(log: seq<(int, nat)>, id: int)
    requires forall i, j :: 0 <= i < j < |log| ==> log[i] != log[j]
    ensures forall n :: n in RequeuesOf(log, id) <==> (id, n) in log
    ensures forall i, j :: 0 <= i < j < |RequeuesOf(log, id)| ==> RequeuesOf(log, id)[i] != RequeuesOf(log, id)[j]
  {
    if log != [] {
      RequeuesAreLogged(log[1..], id);
      assert log == [log[0]] + log[1..];
      assert log[0] !in log[1..];
    }
  }

  /** Bounded retries, lease or no lease: whatever the interleaving of claims, crashes, reaps and reclaims, the
      worker loop requeues a run at most MAX_ATTEMPTS - 1 times. */
  lemma RetriesAreBounded(trace: seq<State>, id: int)
    requires Execution(trace) && Initial(trace[0])
    ensures |RequeuesOf(trace[|trace| - 1].requeues, id)| <= 2
  {
    var st := trace[|trace| - 1];
    AttemptsStayOk(trace);
    var ns := RequeuesOf(st.requeues, id);
    RequeuesAreLogged(st.requeues, id);
    forall n | n in ns ensures 1 <= n < MAX_ATTEMPTS {
      var k :| 0 <= k < |st.requeues| && st.requeues[k] == (id, n);
      assert RequeueFits(st, st.requeues[k].0, st.requeues[k].1);
    }
    DistinctAndFew(ns, MAX_ATTEMPTS - 1);
  }

  lemma {:induction false} DistinctAndFew(ns: seq<nat>, n: nat)
    requires forall k :: k in ns ==> 1 <= k <= n
    requires forall i, j :: 0 <= i < j < |ns| ==> ns[i] != ns[j]
    ensures |ns| <= n
  {
    if ns != [] {
      if n in ns {
        var i :| 0 <= i < |ns| && ns[i] == n;
        var rest := ns[..i] + ns[i + 1..];
        forall j | 0 <= j < |rest| ensures rest[j] in ns && rest[j] != n {
          assert rest[j] == ns[if j < i then j else j + 1];
        }
        DistinctAndFew(rest, n - 1);
      } else {
        assert ns[0] in ns;
        DistinctAndFew(ns, n - 1);
      }
    }
  }

  // ---- what a late heartbeat costs -------------------------------------------------------------------------

  lemma GoOn(trace: seq<State>, e: Event) returns (longer: seq<State>)
    requires FromEmpty(trace) && Enabled(trace[|trace| - 1], e)
    ensures FromEmpty(longer) && |longer| == |trace| + 1 && longer[|trace|] == Step(trace[|trace| - 1], e)
    ensures forall i {:trigger longer[i]} :: 0 <= i < |trace| ==> longer[i] == trace[i]
  {
    longer := Extend(trace, e);
  }

  /** An executor that has missed its lease, beside a second one that has claimed the reaped run. */
  lemma TwoAtWork(id: int) returns (trace: seq<State>)
    ensures FromEmpty(trace) && !Exclusive(trace[|trace| - 1])
    ensures var st := trace[|trace| - 1];
            && InPhase(st, 0, Executing) && InPhase(st, 1, Claimed) && st.execs[0].run == st.execs[1].run == id
            && st.runs[id].status.Running?
  {
    trace := ReapedAtWork(id);
    SecondClaim(trace[|trace| - 1], id);
    trace := GoOn(trace, Claim(1, id));
  }

  lemma SecondClaim(st: State, id: int)
    requires st.execs.Keys == {0} && InPhase(st, 0, Executing) && st.execs[0].run == id && st.runs[id].status.Pending?
    ensures Enabled(st, Claim(1, id))
    ensures var st' := Step(st, Claim(1, id));
            && InPhase(st', 0, Executing) && InPhase(st', 1, Claimed) && st'.execs[0].run == st'.execs[1].run == id
            && st'.runs[id].status.Running? && !Exclusive(st')
  {
    assert 1 !in st.execs;
    var st' := Step(st, Claim(1, id));
    assert 0 in st'.execs && 1 in st'.execs && st'.execs[0].run == st'.execs[1].run;
  }

  lemma ReapedAtWork(id: int) returns (trace: seq<State>)
    ensures FromEmpty(trace)
    ensures var st := trace[|trace| - 1];
            && st.execs.Keys == {0} && InPhase(st, 0, Executing) && st.execs[0].run == id && st.runs[id].status.Pending?
  {
    trace := OneAtWork(id);
    trace := GoOn(trace, Tick(601));
    trace := GoOn(trace, Reap);
  }

  lemma OneAtWork(id: int) returns (trace: seq<State>)
    ensures FromEmpty(trace)
    ensures var st := trace[|trace| - 1];
            && st.now == 0 && st.lease == 600 && st.execs.Keys == {0} && InPhase(st, 0, Executing) && st.execs[0].run == id
            && st.runs[id].status.Running? && LastSign(st.runs[id]) == Some(0)
  {
    var first := State(0, 600, map[], map[], []);
    trace := [first];
    trace := GoOn(trace, Enqueue(id, "python", false));
    trace := GoOn(trace, Claim(0, id));
    trace := GoOn(trace, MarkAttempt(0));
  }

  /** Timely heartbeats are needed: the late executor can overwrite the success of the second. */
  lemma LateExecutorOverwritesSuccess(id: int) returns (trace: seq<State>, i: nat)
    ensures FromEmpty(trace) && i < |trace| - 1
    ensures id in trace[i].runs && trace[i].runs[id].status.Succeeded?
    ensures id in trace[i + 1].runs && trace[i + 1].runs[id].status.Failed?
  {
    trace := TwoAtWork(id);
    trace := GoOn(trace, MarkAttempt(1));
    trace := GoOn(trace, Finish(1, Exited(0)));
    i := |trace| - 1;
    trace := GoOn(trace, Finish(0, NotExecuted("timeout")));
  }
}
