/** Exactly when a succeeded run can stop being one. Nothing is assumed about heartbeats. */
module SuccessLoss {
  import opened Wrappers
  import opened RunQueue
  import opened RunProtocol

  // ---- a succeeded row names no error -----------------------------------------------------------

  ghost predicate NoErrorOnSuccess(st: State) {
    forall id :: id in st.runs && st.runs[id].status.Succeeded? ==> st.runs[id].error == None
  }

  lemma StepKeepsNoError(st: State, e: Event)
    requires NoErrorOnSuccess(st) && Enabled(st, e)
    ensures NoErrorOnSuccess(Step(st, e))
  {
  }

  /** From an empty queue, every succeeded row is without an error. */
  lemma {:induction false} SucceededHasNoError(trace: seq<State>)
    requires FromEmpty(trace)
    ensures NoErrorOnSuccess(trace[|trace| - 1])
  {
    if |trace| > 1 {
      var before, e := LastStep(trace);
      SucceededHasNoError(before);
      StepKeepsNoError(trace[|trace| - 2], e);
    }
  }

  // ---- when success is safe ----------------------------------------------------------------------

  /** `id` has succeeded, and whoever is still at it has written its outcome and not read it yet. */
  ghost predicate SafeSuccess(st: State, id: int) {
    && id in st.runs && st.runs[id].status.Succeeded?
    && forall x :: x in st.execs && st.execs[x].run == id ==> st.execs[x].phase.Finished?
  }

  lemma SafeSuccessIsFinal(st: State, e: Event, id: int)
    requires SafeSuccess(st, id) && Enabled(st, e)
    ensures SafeSuccess(Step(st, e), id) && Step(st, e).runs[id] == st.runs[id]
  {
  }

  lemma {:induction false} SafeSuccessHolds(trace: seq<State>, id: int)
    requires Execution(trace) && SafeSuccess(trace[0], id)
    ensures SafeSuccess(trace[|trace| - 1], id)
  {
    if |trace| > 1 {
      var e := FirstStep(trace);
      SafeSuccessIsFinal(trace[0], e, id);
      SafeSuccessHolds(trace[1..], id);
    }
  }

  // ---- when it is not ----------------------------------------------------------------------------

  ghost predicate CanLoseSuccess(st: State, id: int) {
    exists st' :: Continues(st, st') && id in st'.runs && !st'.runs[id].status.Succeeded?
  }

  lemma WorkerLosesSuccess(st: State, id: int, x: int)
    requires id in st.runs && st.runs[id].status.Succeeded?
    requires x in st.execs && st.execs[x].run == id && Holding(st.execs[x].phase)
    ensures CanLoseSuccess(st, id)
  {
    ContinuesItself(st);
    var mid := st;
    if st.execs[x].phase.Claimed? {
      mid := Step(st, MarkAttempt(x));
      ContinuesOn(st, st, MarkAttempt(x));
    }
    ContinuesOn(st, mid, Finish(x, NotExecuted("timeout")));
    assert Step(mid, Finish(x, NotExecuted("timeout"))).runs[id].status.Failed?;
  }

  lemma RetrierLosesSuccess(st: State, id: int, x: int)
    requires id in st.runs && st.runs[id].status.Succeeded? && st.runs[id].error == None
    requires x in st.execs && st.execs[x].run == id && (st.execs[x].phase.Retrying? || st.execs[x].phase.WillRequeue?)
    ensures CanLoseSuccess(st, id)
  {
    ContinuesItself(st);
    var mid := st;
    if st.execs[x].phase.Retrying? {
      mid := Step(st, ReadError(x));
      ContinuesOn(st, st, ReadError(x));
    }
    ContinuesOn(st, mid, Requeue(x));
    assert Step(mid, Requeue(x)).runs[id].status.Pending?;
  }

  /** A success can be lost if and only if some executor of the run has not written its outcome yet, or has
      decided on a retry. `SucceededHasNoError` gives the hypothesis in every reachable state. */
  lemma SuccessIsLostIff(st: State, id: int)
    requires NoErrorOnSuccess(st) && id in st.runs && st.runs[id].status.Succeeded?
    ensures CanLoseSuccess(st, id) <==> exists x :: x in st.execs && st.execs[x].run == id && !st.execs[x].phase.Finished?
  {
    if x :| x in st.execs && st.execs[x].run == id && !st.execs[x].phase.Finished? {
      if Holding(st.execs[x].phase) {
        WorkerLosesSuccess(st, id, x);
      } else {
        RetrierLosesSuccess(st, id, x);
      }
    } else {
      forall st' | Continues(st, st') ensures SafeSuccess(st', id) {
        var trace: seq<State> :| Execution(trace) && trace[0] == st && trace[|trace| - 1] == st';
        SafeSuccessHolds(trace, id);
      }
    }
  }
}
