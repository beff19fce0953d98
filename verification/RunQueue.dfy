/** The run queue (db.rs): one function per SQL statement on `runs`, and the table that executes them. */
module RunQueue {
  import opened Wrappers

  datatype RunStatus = Pending | Running | Succeeded | Failed | Canceled

  /** One row of `runs`. `ownLimit`: the script declares its own `timeout_secs`. */
  datatype Run = Run(
    runtime: string,
    ownLimit: bool,
    status: RunStatus,
    attempts: nat,
    exitCode: Option<int>,
    error: Option<string>,
    createdAt: int,
    startedAt: Option<int>,
    heartbeatAt: Option<int>,
    finishedAt: Option<int>)

  type Runs = map<int, Run>

  /** How an execution ended: with an exit code, or without one (timeout, vanished, setup error). */
  datatype End = Exited(code: int) | NotExecuted(error: string)

  const CANCEL_REASON := "canceled by operator"
  const STALE_REASON := "unclaimed: pending past timeout"

  predicate Claimable(rows: Runs, id: int, caps: set<string>) {
    id in rows && rows[id].status.Pending? && rows[id].runtime in caps
  }

  function ClaimedRow(r: Run, now: int): Run {
    r.(status := Running, startedAt := Some(now), heartbeatAt := Some(now))
  }

  function FinishedRow(r: Run, end: End, now: int): Run {
    if r.status.Canceled? then r
    else
      match end
      case Exited(code) =>
        r.(status := if code == 0 then Succeeded else Failed, exitCode := Some(code), error := None, finishedAt := Some(now))
      case NotExecuted(error) =>
        r.(status := Failed, exitCode := None, error := Some(error), finishedAt := Some(now))
  }

  function CanceledRow(r: Run, now: int): Run {
    if r.status.Succeeded? then r
    else r.(status := Canceled, error := Some(CANCEL_REASON), finishedAt := Some(now))
  }

  function TouchedRow(r: Run, now: int): Run {
    if r.status.Running? then r.(heartbeatAt := Some(now)) else r
  }

  /** No guard: whatever the row says now, it goes back to pending. */
  function RequeuedRow(r: Run): Run {
    r.(status := Pending, startedAt := None, heartbeatAt := None)
  }

  /** COALESCE(heartbeat_at, started_at) */
  function LastSign(r: Run): Option<int> {
    if r.heartbeatAt.Some? then r.heartbeatAt else r.startedAt
  }

  predicate Orphaned(r: Run, now: int, lease: int) {
    r.status.Running? && LastSign(r).Some? && LastSign(r).value < now - lease
  }

  function ReapedRow(r: Run, now: int, lease: int): Run {
    if Orphaned(r, now, lease) then RequeuedRow(r) else r
  }

  predicate Stale(r: Run, now: int, maxAge: int) {
    r.status.Pending? && r.createdAt < now - maxAge
  }

  function SweptRow(r: Run, now: int, maxAge: int): Run {
    if Stale(r, now, maxAge) then r.(status := Failed, error := Some(STALE_REASON), finishedAt := Some(now)) else r
  }

  /** How the last execution of a run ended, as its row tells it. */
  function EndOf(r: Run): Option<End> {
    match r.exitCode
    case Some(code) => Some(Exited(code))
    case None => match r.error case Some(error) => Some(NotExecuted(error)) case None => None
  }

  /** What `finish_run` writes can be read back: nothing about the end is lost, and the status follows from it. */
  lemma EndIsRecorded(r: Run, end: End, now: int)
    requires !r.status.Canceled?
    ensures EndOf(FinishedRow(r, end, now)) == Some(end)
    ensures FinishedRow(r, end, now).status.Succeeded? <==> end == Exited(0)
  {
  }

  /** UPDATE ... WHERE id = $1 */
  function Update(rows: Runs, id: int, f: Run -> Run): Runs {
    if id in rows then rows[id := f(rows[id])] else rows
  }

  function UpdateAll(rows: Runs, f: Run -> Run): Runs {
    map id | id in rows :: f(rows[id])
  }

  /** The rows that two tables over the same ids disagree on. */
  ghost function Changed(rows: Runs, rows': Runs): set<int> {
    set id | id in rows && id in rows' && rows'[id] != rows[id]
  }

  /** Only status, exit code, error and end time differ. */
  predicate SameButOutcome(r: Run, r': Run) {
    r.(status := r'.status, exitCode := r'.exitCode, error := r'.error, finishedAt := r'.finishedAt) == r'
  }

  /** Only status, start and heartbeat differ. */
  predicate SameButClaim(r: Run, r': Run) {
    r.(status := r'.status, startedAt := r'.startedAt, heartbeatAt := r'.heartbeatAt) == r'
  }

  /** The reaper changes exactly the orphaned rows, and leaves none orphaned. */
  lemma ReapChanges(rows: Runs, now: int, lease: int)
    ensures var rows' := UpdateAll(rows, r => ReapedRow(r, now, lease));
            && Changed(rows, rows') == (set id | id in rows && Orphaned(rows[id], now, lease))
            && forall id :: id in rows' ==> !Orphaned(rows'[id], now, lease)
  {
  }

  /** The sweep changes exactly the stale rows, and leaves none stale. */
  lemma SweepChanges(rows: Runs, now: int, maxAge: int)
    ensures var rows' := UpdateAll(rows, r => SweptRow(r, now, maxAge));
            && Changed(rows, rows') == (set id | id in rows && Stale(rows[id], now, maxAge))
            && forall id :: id in rows' ==> !Stale(rows'[id], now, maxAge)
  {
  }

  class RunTable {
    var rows: Runs

    constructor ()
      ensures rows == map[]
    {
      rows := map[];
    }

    /** `claim_run`: the oldest pending run a worker can serve, passing over rows other claims have locked. */
    method ClaimRun(caps: set<string>, locked: set<int>, now: int) returns (claimed: Option<int>)
      modifies this
      ensures claimed.None? ==> rows == old(rows) && forall id :: Claimable(rows, id, caps) ==> id in locked
      ensures claimed.Some? ==>
                && Claimable(old(rows), claimed.value, caps) && claimed.value !in locked
                && (forall id :: Claimable(old(rows), id, caps) && id !in locked ==> claimed.value <= id)
                && rows == Update(old(rows), claimed.value, r => ClaimedRow(r, now))
                && SameButClaim(rows[claimed.value], old(rows)[claimed.value]) && rows[claimed.value].status == Running
                && rows[claimed.value].startedAt == Some(now) && rows[claimed.value].heartbeatAt == Some(now)
    {
      claimed := None;
      var rest := rows.Keys;
      while rest != {}
        invariant rows == old(rows) && rest <= rows.Keys
        invariant claimed.Some? ==> Claimable(rows, claimed.value, caps) && claimed.value !in locked
        invariant forall id :: Claimable(rows, id, caps) && id !in locked && id !in rest ==> claimed.Some? && claimed.value <= id
        decreases rest
      {
        var id := AnyOf(rest);
        rest := rest - {id};
        if id !in locked && rows[id].status.Pending? && rows[id].runtime in caps && (claimed.None? || id < claimed.value) {
          claimed := Some(id);
        }
      }
      if claimed.Some? {
        rows := rows[claimed.value := ClaimedRow(rows[claimed.value], now)];
      }
    }

    /** `mark_attempt`: count an attempt and say which one it is. */
    method MarkAttempt(id: int) returns (n: nat)
      requires id in rows
      modifies this
      ensures n == old(rows)[id].attempts + 1
      ensures rows == Update(old(rows), id, (r: Run) => r.(attempts := n))
    {
      n := rows[id].attempts + 1;
      rows := rows[id := rows[id].(attempts := n)];
    }

    /** `touch_run`: only a running row takes the heartbeat. */
    method TouchRun(id: int, now: int)
      modifies this
      ensures rows == Update(old(rows), id, r => TouchedRow(r, now))
    {
      if id in rows && rows[id].status.Running? {
        rows := rows[id := rows[id].(heartbeatAt := Some(now))];
      }
    }

    /** `finish_run`: a canceled row stays as it is; any other says afterwards how the run ended, and keeps what
        the queue needs. */
    method FinishRun(id: int, end: End, now: int)
      modifies this
      ensures rows == Update(old(rows), id, r => FinishedRow(r, end, now))
      ensures rows.Keys == old(rows).Keys && forall k :: k in rows && k != id ==> rows[k] == old(rows)[k]
      ensures id in rows && old(rows)[id].status.Canceled? ==> rows[id] == old(rows)[id]
      ensures id in rows && !old(rows)[id].status.Canceled? ==>
                && EndOf(rows[id]) == Some(end) && rows[id].finishedAt == Some(now)
                && rows[id].status == (if end == Exited(0) then Succeeded else Failed)
                && SameButOutcome(rows[id], old(rows)[id])
    {
      if id in rows && !rows[id].status.Canceled? {
        rows := rows[id := FinishedRow(rows[id], end, now)];
      }
    }

    /** `cancel_run`: a succeeded row stays as it is. */
    method CancelRun(id: int, now: int) returns (canceled: bool)
      modifies this
      ensures rows == Update(old(rows), id, r => CanceledRow(r, now))
      ensures canceled <==> id in rows && !old(rows)[id].status.Succeeded?
    {
      canceled := id in rows && !rows[id].status.Succeeded?;
      if canceled {
        rows := rows[id := rows[id].(status := Canceled, error := Some(CANCEL_REASON), finishedAt := Some(now))];
      }
    }

    /** `requeue` */
    method Requeue(id: int)
      modifies this
      ensures rows == Update(old(rows), id, RequeuedRow)
    {
      if id in rows {
        rows := rows[id := rows[id].(status := Pending, startedAt := None, heartbeatAt := None)];
      }
    }

    /** `reap_orphan_runs`: afterwards no running row is without a sign of life within the lease; the rows that
        changed were such rows, wait again with their attempts counted, and are as many as it says. */
    method ReapOrphanRuns(now: int, lease: int) returns (n: nat)
      modifies this
      ensures rows == UpdateAll(old(rows), r => ReapedRow(r, now, lease))
      ensures forall id :: id in rows && rows[id].status.Running? && LastSign(rows[id]).Some? ==>
                             LastSign(rows[id]).value >= now - lease
      ensures Changed(old(rows), rows) == set id | id in old(rows) && Orphaned(old(rows)[id], now, lease)
      ensures forall id :: id in Changed(old(rows), rows) ==>
                             rows[id].status.Pending? && LastSign(rows[id]) == None && SameButClaim(rows[id], old(rows)[id])
      ensures n == |Changed(old(rows), rows)|
    {
      ReapChanges(rows, now, lease);
      n := |set id | id in rows && Orphaned(rows[id], now, lease)|;
      rows := map id | id in rows :: if Orphaned(rows[id], now, lease) then RequeuedRow(rows[id]) else rows[id];
    }

    /** `fail_stale_pending`: afterwards no pending row is older than the limit; the rows that changed were such
        rows, have failed with the reason, and are as many as it says. */
    method FailStalePending(now: int, maxAge: int) returns (n: nat)
      modifies this
      ensures rows == UpdateAll(old(rows), r => SweptRow(r, now, maxAge))
      ensures forall id :: id in rows && rows[id].status.Pending? ==> rows[id].createdAt >= now - maxAge
      ensures Changed(old(rows), rows) == set id | id in old(rows) && Stale(old(rows)[id], now, maxAge)
      ensures forall id :: id in Changed(old(rows), rows) ==>
                             rows[id].status.Failed? && rows[id].error == Some(STALE_REASON) && SameButOutcome(rows[id], old(rows)[id])
      ensures n == |Changed(old(rows), rows)|
    {
      SweepChanges(rows, now, maxAge);
      n := |set id | id in rows && Stale(rows[id], now, maxAge)|;
      rows := map id | id in rows :: SweptRow(rows[id], now, maxAge);
    }
  }
}
