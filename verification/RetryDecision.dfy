/** Exactly which ends of an execution the worker loop retries (worker.rs), over all interleavings. */
module RetryDecision {
  import opened Wrappers
  import opened RunQueue
  import opened RunProtocol

  /** No exit code, an attempt to spare, and not the script's own time limit. */
  predicate WorthARetry(end: End, attempt: nat, ownLimit: bool) {
    match end
    case Exited(_) => false
    case NotExecuted(error) => attempt < 3 && !(ownLimit && error == "timeout")
  }

  ghost predicate Undisturbed(trace: seq<State>, id: int, row: Run) {
    forall i {:trigger trace[i]} :: 0 <= i < |trace| ==> id in trace[i].runs && trace[i].runs[id] == row
  }

  /** Executor `x` of run `id` is about to requeue it. */
  predicate AboutToRequeue(st: State, x: int, id: int) {
    x in st.execs && st.execs[x].run == id && Enabled(st, Requeue(x))
  }

  ghost predicate LeadsToRequeue(trace: seq<State>, st: State, x: int, id: int) {
    && Execution(trace) && trace[0] == st && id in st.runs && Undisturbed(trace, id, st.runs[id])
    && AboutToRequeue(trace[|trace| - 1], x, id)
  }

  /** Some execution brings executor `x` so far while nobody touches the row. */
  ghost predicate MayRequeue(st: State, x: int, id: int) {
    exists trace :: LeadsToRequeue(trace, st, x, id)
  }

  /** How far an executor can have got that ended as `end`, as long as its row tells that end. */
  predicate Consistent(st: State, x: int, id: int, end: End, attempt: nat, ownLimit: bool) {
    x in st.execs && st.execs[x].run == id ==>
      && st.execs[x].attempt == attempt
      && match st.execs[x].phase
         case Finished => true
         case Retrying => end.NotExecuted? && attempt < 3 && ownLimit
         case WillRequeue => WorthARetry(end, attempt, ownLimit)
         case _ => false
  }

  /** The row of a run that ended as `end`. */
  predicate TellsEnd(r: Run, end: End, ownLimit: bool) {
    && (r.status.Failed? || r.status.Succeeded?) && r.ownLimit == ownLimit
    && match end
       case Exited(code) => r.exitCode == Some(code)
       case NotExecuted(error) => r.exitCode == None && r.error == Some(error) && r.status.Failed?
  }

  lemma StepStaysConsistent(st: State, e: Event, x: int, id: int, end: End, attempt: nat, ownLimit: bool)
    requires Enabled(st, e) && id in st.runs && TellsEnd(st.runs[id], end, ownLimit)
    requires Consistent(st, x, id, end, attempt, ownLimit)
    ensures Consistent(Step(st, e), x, id, end, attempt, ownLimit)
  {
  }

  lemma {:induction false} TraceStaysConsistent(trace: seq<State>, x: int, id: int, end: End, attempt: nat, ownLimit: bool)
    requires Execution(trace) && id in trace[0].runs && TellsEnd(trace[0].runs[id], end, ownLimit)
    requires Undisturbed(trace, id, trace[0].runs[id]) && Consistent(trace[0], x, id, end, attempt, ownLimit)
    ensures Consistent(trace[|trace| - 1], x, id, end, attempt, ownLimit)
  {
    if |trace| > 1 {
      var e := FirstStep(trace);
      StepStaysConsistent(trace[0], e, x, id, end, attempt, ownLimit);
      assert forall i {:trigger trace[1..][i]} :: 0 <= i < |trace| - 1 ==> trace[1..][i] == trace[i + 1];
      assert trace[1].runs[id] == trace[0].runs[id];
      TraceStaysConsistent(trace[1..], x, id, end, attempt, ownLimit);
    }
  }

  /** The executor reads the outcome, then the error if the script has a time limit of its own. */
  lemma WorthGetsThere(st: State, x: int, id: int, error: string) returns (trace: seq<State>)
    requires InPhase(st, x, Finished) && st.execs[x].run == id && TellsEnd(st.runs[id], NotExecuted(error), st.runs[id].ownLimit)
    requires WorthARetry(NotExecuted(error), st.execs[x].attempt, st.runs[id].ownLimit)
    ensures LeadsToRequeue(trace, st, x, id)
  {
    trace := [st];
    trace := Extend(trace, ReadOutcome(x));
    if st.runs[id].ownLimit { trace := Extend(trace, ReadError(x)); }
  }

  /** After an execution has ended on a row that is not canceled: the worker can come to requeue the run, while nobody
      else touches the row, if and only if the execution had no exit code, the attempt was not the third, and it was
      not the script's own time limit that it hit. */
  lemma RetryIff(st: State, x: int, end: End)
    requires Enabled(st, Finish(x, end)) && !st.runs[st.execs[x].run].status.Canceled?
    ensures var id := st.execs[x].run;
            MayRequeue(Step(st, Finish(x, end)), x, id) <==> WorthARetry(end, st.execs[x].attempt, st.runs[id].ownLimit)
  {
    var id, attempt := st.execs[x].run, st.execs[x].attempt;
    var ownLimit, after := st.runs[id].ownLimit, Step(st, Finish(x, end));
    assert TellsEnd(after.runs[id], end, ownLimit) && Consistent(after, x, id, end, attempt, ownLimit);
    if WorthARetry(end, attempt, ownLimit) {
      var trace := WorthGetsThere(after, x, id, end.error);
    }
    forall trace | LeadsToRequeue(trace, after, x, id) ensures WorthARetry(end, attempt, ownLimit) {
      TraceStaysConsistent(trace, x, id, end, attempt, ownLimit);
    }
  }
}
