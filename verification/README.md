# A verified model of dokan's engine

dokan runs small jobs in containers. Everything it has to remember it keeps in Postgres rows: the queue of
runs, the step ledger of declarative flows, logs, secrets and schedules. This project models the logic over
those rows in Dafny and proves what the engine promises about it.

Tables are maps. Each SQL statement is one atomic guarded step, and so is each `begin .. commit` block. Code
that updates state in place is a class whose methods update the same fields; the statements those methods
implement are functions, and the laws are proved about the functions and about all runs made of them. What
lies outside (the JSON parser, the script registry, the outcome of a container run, croner's next occurrence,
Unicode tables) is a parameter, so every result holds for each choice of it.

The parts:

* **Flows** (`DepGraph`, `FlowSpec`, `FlowLedger`, `FlowRefs`, `FanOut`, `FlowSystem`, `FlowMeaning`, `FlowSoundness`,
  `FlowProgress`, `Saga`, `FlowDriver`). A flow's *meaning* is the one assignment of verdicts to steps that satisfies the
  equations "skipped if a dependency is skipped or the gate is false, otherwise what running it on its
  dependencies' outputs yields". The engine is a transition system over the ledger; its driver is a class
  whose every write is a transition. `Sound` ties each reachable ledger to the meaning; confluence, progress,
  termination, completion order and rollback order follow from it. `FlowMeaning` and `FlowSpec` say what verdicts and
  rows are in terms of the JSON of the spec, the inputs and the outputs.
* **Run queue** (`RunQueue`, `RunProtocol`, `RetryDecision`, `SuccessLoss`, `ClaimBounds`). The statements on `runs`, and the
  lease protocol as a labelled transition system with a clock: executors that claim, beat, finish, decide about
  a retry and crash, beside a reaper, a sweep and an operator.
* **Secrets cache** (`SecretsCache`), **rate limiter** (`RateLimiter`, `RateWindows`), **cron ticks** (`CronTicks`) and
  **autoscaler** (`Autoscale`): each is shown to agree with a simpler thing.
* **Text and encodings** (`LogLines`, `ControlLines`, `LogPump`, `Redaction`, `JsonText`, `JsonReader`,
  `CanonicalText`, `InputFiles`, `FileCollisions`, `CacheKey`, `Dsse`, over `Text`, `Decimal`, `Hex`, `Bytes`). What is
  written out is read back by readers that follow RFC 8259, RFC 3629 and the DSSE protocol.

Results that go against what the sources say about themselves, with the code as it is:

* A cancel is not always final. `requeue` has no status guard (`src/db.rs:1269`), and the worker reads the
  outcome and requeues in separate statements (`src/worker.rs:107-121`). `CancelIsLostIff` says exactly when an
  operator's cancel can be undone, with or without timely heartbeats: when it falls between the two.
* The attempt cap bounds the worker loop's own requeues (`RetriesAreBounded`), as the comment at `src/db.rs:1282`
  says, and nothing else: `claim_run` does not look at `attempts`. A run is claimed at most three times more often
  than it is reaped (`ClaimsAreBounded`), for every number of reaps it can be claimed that often
  (`TheClaimBoundIsMet`), and the number of reaps has no bound (`CrashLoop`).
* The guard of `finish_run` does not keep `succeeded` final: an executor that outlives its lease can overwrite a
  later executor's success (`LateExecutorOverwritesSuccess`). `SuccessIsLostIff` says exactly when a success can be
  lost: when some executor of the run has not written its outcome yet or has decided on a retry.
* Not every secret with a `*` in it stays masked. `AlwaysMaskedIff` says which do: those without a star at either
  end and without three in a row. Any other can be put back together by the mask of a later secret.
* The rendering of the input files that goes into the cache key does not tell all uploads apart, and nothing forbids
  the names it fails on (`src/mcp.rs:114-120`). An upload is rendered like another one exactly when it has two files or
  more, or one whose name reads as a file, its hash and a later file's name (`RenderedLikeAnotherIff`). Among sets
  whose names have no comma after a colon and a hash it is injective (`BlobsInjective`), and exactly the names that
  have one can alone make a set look like one of no fewer files (`AmbiguousIffItTears`). A comma does no other harm.
* The separator of the cache key's parts can occur in a file name, too. It does no harm as long as names have no
  U+0000, which `jsonb` cannot hold, and the secrets generation stays below 2^56 (`PreimageInjective`); beyond that,
  runs of two different sources can be hashed alike (`SeparatorInNameCollides`).
* The children of a `map` step do not inherit its `retries` (`src/db.rs:2028`): they follow it exactly when it comes
  to two attempts (`ChildrenFollowRetriesIff`). With 0 a child that fails is run again.
* "attempts = retries + 1" (`src/db.rs:182`) holds exactly below the width of the counter
  (`BudgetIsRetriesPlusOneIff`); at 4294967295, which `validate_spec` accepts, a step gets no attempt at all where
  integer overflow wraps.
* `deps.<id>` reads the output of step `<id>` exactly when the id has no dot (`RefReadsItsOutputIff`); otherwise it
  is a path into the output of another step, if there is one. `validate_spec` accepts dots. The ref `deps` gives the
  object with every output in it (`WholeDepsHoldsEveryOutput`).
* A compensation whose script is missing or has an unknown runtime is passed over (`src/flow.rs:312-319`): a rollback
  reaches every step that needs it exactly when all their scripts can run, and the flow's status does not tell
  (`PassedOverIsSilent`, `PassingOverHappens`).
* A client that chooses a tick's key as its idempotency key (`src/mcp.rs:952-956`) keeps that tick from being
  recorded (`TickIsRecordedIff`, `ForeignRunSwallowsTick`). Webhook keys never do.

## Model

| member | source | states |
|---|---|---|
| DepGraph.CycleFinder.HasCycle | src/flow.rs:697-727 | terminates on any graph and for any order of keys, and says yes exactly when the graph has a cycle; when it says no, the order in which nodes were finished is a topological order |
| DepGraph.CycleFinder.Dfs | src/flow.rs:700-721 | a search from an unseen node either finds a real cycle or closes the node, keeping the colours, the stack and the finishing order consistent |
| DepGraph.TopoOrderIsAcyclic | src/flow.rs:691-693 | a graph with a dependencies-first order has no cycle |
| FlowSpec.ValidateSpec | src/flow.rs:625-695 | accepts exactly the specs whose JSON has good steps with different ids, each string of a `depends_on` the id of a step, and an order of the steps that respects them; every error it reports is true of the spec |
| FlowSpec.AcceptableIsGood | src/flow.rs:625-695 | the same, field by field of the JSON, as what the engine's guarantees rest on |
| FlowSpec.DependenciesAre | src/flow.rs:676-681 | a step depends on exactly the strings in its array under `depends_on` |
| FlowSpec.CheckStep | src/flow.rs:638-675 | one step passes exactly when its id is new and all its fields are well typed; a complaint names a fault it has |
| FlowSpec.FindUnknown | src/flow.rs:684-690 | finds a dependency outside the spec if and only if there is one |
| FlowSpec.DiagnosisRefutes | src/flow.rs:625-695 | no error is ever true of an acceptable spec |
| FlowSpec.InsertFlowRun | src/db.rs:1693-1743 | writes one row per step, each column holding what the step's JSON says or its default, or fails exactly when two steps share an id |
| FlowSpec.AcceptedSpecIsValid | src/flow.rs:625-695 | the first ledger of an accepted spec meets every condition the engine's guarantees rest on, for any input and any world |
| FanOut.ChildIdParts | src/flow.rs:271-282 | a child id `parent#i` reads back as that parent and that index |
| FanOut.FanInAnyOrder | src/flow.rs:529-552 | whatever the order of the rows, aggregation sees exactly the parent's own children: nothing while one is active, failure if one failed, otherwise their outputs in element order |
| FanOut.ChildrenInOrder | src/flow.rs:541-542 | sorting the found children by index gives the rows of element 0, 1, ..., n-1 |
| FanOut.ReexpandIsNoOp | src/db.rs:2016-2047 | inserting the same children again changes nothing |
| FlowLedger.InsertRowsEffect | src/db.rs:2024-2038 | the inserts keep every row there was, add every child, and nothing else |
| FlowRefs.RefReadsOutput | src/flow.rs:557-576 | `deps.<id>` reads that dependency's output, decoded if it is JSON, or nothing |
| FlowRefs.DottedIdReadsAnother | src/flow.rs:557-576 | `deps.a.rest` is a path into the output of dependency `a`, or nothing when there is none |
| FlowRefs.DottedIdIgnoresItsOutput | src/flow.rs:557-576 | for an id with a dot, what `deps.<id>` gives is the same whatever that step's output is |
| FlowRefs.RefReadsItsOutputIff | src/flow.rs:557-576 | `deps.<id>` gives that dependency's output, for all inputs, dependencies and outputs, if and only if the id has no dot |
| FlowRefs.WholeDepsHoldsEveryOutput | src/flow.rs:557-576 | the ref `deps` gives the object that holds every dependency's output, whatever its id |
| FlowRefs.RootRefs | src/flow.rs:557-563 | `flow_input` and `deps` are the two values themselves, and there is no third root |
| FlowRefs.RefField | src/flow.rs:564-576 | a ref and a name read that field of what the ref gives; a string that parses as JSON is taken for what it parses to, at each hop |
| FlowMeaning.GateIsRight | src/flow.rs:579-611 | any gate opens exactly as its op says of the value its ref gives: equal text, different text, contained text, falsy, or truthy for every other op and for none |
| FlowMeaning.GateDecisions | src/flow.rs:579-611 | the five ops one by one, and a gate without one; falsy are null, false, zero, "", "false", "0" and what is empty |
| FlowMeaning.SameTextMeans | src/flow.rs:594-599 | what `eq` accepts and `ne` rejects: equal JSON values, or a string and a value it is the text of |
| FlowRefs.EqComparesValues | src/flow.rs:579-599 | an `eq` gate holds exactly for equal JSON values, or for a string and a value it is the text of |
| FlowRefs.FirstSuccessIsFirst | src/flow.rs:436-514 | a step is done by its first successful attempt and fails only if no attempt within the budget succeeds |
| FlowRefs.BudgetIsRetriesPlusOneIff | src/flow.rs:438 | the number of attempts is the retries plus one if and only if they are below 2^32 - 1 |
| FlowRefs.WrappedBudgetRunsNothing | src/flow.rs:438-514 | at 2^32 - 1 retries a step fails without having run |
| FlowRefs.ChildrenFollowRetriesIff | src/db.rs:2024-2038 | in every world a map child ends as its parent's `retries` says, if and only if that comes to two attempts |
| FlowRefs.ChildOfNoRetriesRunsTwice | src/db.rs:2024-2038 | with 0 retries a child still gets two attempts where its parent gets one |
| FlowSystem.MeaningExists | src/flow.rs:103-228 | evaluating the steps dependencies first satisfies every step's equation |
| FlowSystem.MeaningIsUnique | src/flow.rs:103-228 | no other assignment does: a flow means one thing |
| FlowMeaning.GateDecides | src/flow.rs:190-198 | a step whose dependencies have outputs is skipped if and only if it has a gate that does not open on them |
| FlowMeaning.RunDecides | src/flow.rs:385-516 | a plain step comes to what the first successful attempt within its budget gave, on an input of `flow_input`, `deps` and `step`; without one it fails, with the reason |
| FlowMeaning.MapDecides | src/flow.rs:233-292 | a map step fails unless its ref gives an array of at most 1000 elements that all succeed within two attempts; then it comes to the array of their outputs |
| FlowMeaning.ExpansionWrites | src/db.rs:2016-2047 | an expansion adds a row for each element, with the parent's script and dependencies and the element as input and nothing else, marks the parent, and leaves every other row alone |
| FlowSoundness.NextKeepsSound | src/flow.rs:130-225 | every ledger write of the driver (skip, expand, start, finish, aggregate) keeps each row consistent with the meaning, with a started row's dependencies all succeeded |
| FlowSoundness.ReachableIsSound | src/flow.rs:103-228 | every ledger reachable by any interleaving, including ones left by a crash at a step boundary, is consistent with the meaning |
| FlowSoundness.SkipIsMeant | src/flow.rs:181-196 | a row is skipped only if its verdict is a skip |
| FlowSoundness.AggregateIsMeant | src/flow.rs:145-165 | what a map parent gets from its children is its verdict |
| FlowProgress.FinishedIsMeaning | src/flow.rs:118-128 | in a finished ledger every step's status and output are those of its verdict |
| FlowProgress.FailureIsMeant | src/flow.rs:110-117 | a failed row is found only in a flow in which some step's verdict is a failure |
| FlowProgress.FinishedLedgersAgree | src/flow.rs:103-228 | confluence: two finished ledgers of one flow agree on every row, map children included, up to completion times |
| FlowProgress.StartedDepsSucceeded | src/flow.rs:172-205 | in every reachable ledger a running, expanded, succeeded or failed row has all its dependencies succeeded |
| FlowProgress.Progress | src/flow.rs:221-225 | while a row is active and none runs or has failed, the driver finds something to do: the idle sleep is never reached |
| FlowProgress.ReachableIsStamped | src/db.rs:1967-1987 | finished rows, and only they, carry a completion time; no two alike, each later than those of its dependencies |
| FlowProgress.DependencyFinishedEarlier | src/flow.rs:301-308 | a succeeded step finished after every step it transitively depends on, all of which succeeded |
| Saga.PlanOfRollback | src/flow.rs:304-309 | the plan holds each succeeded, not yet compensated step with a script, once, latest completion first |
| Saga.DependentsRollBackFirst | src/flow.rs:301-303 | a step is compensated before everything it transitively depends on |
| Saga.RollBackOne | src/flow.rs:311-377 | one compensation keeps the log and the marks in step with the plan |
| Saga.RollbackComplete | src/flow.rs:297-381 | at the end of the plan every compensable step has been compensated, once, and nothing else is marked |
| Saga.FailedRollbacksCount | src/flow.rs:370-380 | the counter is the number of compensations in the log that did not succeed |
| Saga.RollbackReachesAllIff | src/flow.rs:311-319 | a rollback marks every step that needs it if and only if each of their scripts can run; the others stay as they are |
| Saga.PassingOverHappens | src/flow.rs:311-319 | some flow of a spec that `validate_spec` accepts fails with a succeeded step whose compensation is passed over and none that failed |
| FlowDriver.Driver.AggregateExpanded | src/flow.rs:144-168 | settles every expanded parent whose children are done and nothing else; reports progress exactly when it made some, and then less work is left |
| FlowDriver.Driver.ResolvePending | src/flow.rs:172-205 | skips, expands or queues every ready step and nothing else; what is queued may start and has the inputs of its succeeded dependencies |
| FlowDriver.Driver.ResolveStep | src/flow.rs:173-204 | one pending step: left alone exactly when it is not ready, otherwise skipped, expanded or queued, and nothing else changes |
| FlowDriver.Driver.ExpandRow | src/flow.rs:233-292 | an expansion is a legal step: children, empty result, or failure by what the reference resolves to |
| FlowDriver.Driver.RunBatch | src/flow.rs:207-219 | runs every queued step in any interleaving to its end, touches no other row, and leaves less work |
| FlowDriver.Driver.RunAttempts | src/flow.rs:436-514 | the first success within the attempt budget, otherwise failure |
| FlowDriver.Driver.InsertChildren | src/db.rs:2016-2047 | the transaction's effect on the ledger: missing children inserted, parent expanded |
| FlowDriver.Driver.Pass | src/flow.rs:130-226 | a pass with work left and nothing failed always brings the ledger closer to the end, in the order (unexpanded maps, pending rows, expanded parents) |
| FlowDriver.Driver.Compensate | src/flow.rs:297-381 | runs the compensations a failed flow calls for, each once, dependents first, on `flow_input`, `step` and `output`, and returns how many did not succeed |
| FlowDriver.Driver.RollBackStep | src/flow.rs:311-377 | one step of the plan: its script runs once if it can, the step is marked, a failure is counted |
| FlowDriver.Driver.NeverIdle | src/flow.rs:221-225 | a pass over rows of which one is active and none failed or runs always finds a ready step or a parent to settle |
| FlowDriver.Driver.DriveInner | src/flow.rs:103-228 | terminates from any reachable ledger without a running step: succeeded with every row succeeded or skipped, or failed with nothing running and the rollback done, `compensation_failed` exactly when a compensation did not succeed |
| FlowDriver.Driver.EndIsMeaning | src/flow.rs:103-228 | a drive ends `succeeded` exactly when no step's verdict is a failure, and then every step has the status and output of its verdict |
| FlowDriver.Driver.EndObeysGates | src/flow.rs:190-198 | after a drive that succeeded, a step whose dependencies succeeded is skipped if and only if its gate does not open on the outputs in their rows |
| FlowDriver.Driver.EndUnwinds | src/flow.rs:297-309 | after a failed drive, of two compensated steps the one that depends on the other was compensated first |
| FlowDriver.Driver.PassedOverIsSilent | src/flow.rs:110-117 | a failed drive ends `failed` exactly when every compensation that could run succeeded, whether or not others were passed over |
| RunQueue.RunTable.ClaimRun | src/db.rs:1219-1256 | claims the oldest pending run with a served runtime that no other claim has locked, or changes nothing when there is none |
| RunQueue.RunTable.MarkAttempt | src/db.rs:1258-1267 | hands out the next attempt number and records it, in one step |
| RunQueue.RunTable.TouchRun | src/db.rs:1298-1304 | a heartbeat reaches a running row only |
| RunQueue.EndIsRecorded | src/db.rs:884-904 | the way an execution ended can be read back from its row, and the status follows from it |
| RunQueue.RunTable.FinishRun | src/db.rs:884-904 | afterwards the row says how the run ended and keeps claim, attempts and age; a canceled row and all other rows stay as they are |
| RunQueue.RunTable.CancelRun | src/db.rs:911-922 | cancels anything but a succeeded row, and says whether there was a row to cancel |
| RunQueue.RunTable.Requeue | src/db.rs:1269-1275 | puts a row back to pending whatever its status |
| RunQueue.RunTable.ReapOrphanRuns | src/db.rs:1284-1294 | afterwards no running row lacks a sign of life within the lease; the rows that changed are those that did, wait again with their attempts kept, and are as many as it says |
| RunQueue.RunTable.FailStalePending | src/db.rs:1348-1359 | afterwards no pending row is older than the limit; the rows that changed are those that were, have failed with the reason, and are as many as it says |
| RunProtocol.StepKeepsLease | src/db.rs:1219-1304 | with every live executor within its lease, each step of claim, beat, finish, reap, sweep, cancel, retry and crash keeps the rows in agreement with the executors |
| RunProtocol.OneRowSteps | src/db.rs:911-922 | a cancel takes effect on every row but a succeeded one, a heartbeat on a running one, and on no other row |
| RunProtocol.AllRowsSteps | src/db.rs:1284-1359 | the reaper puts back exactly the running rows without a sign of life within the lease, the sweep fails exactly the pending rows older than its limit |
| RunProtocol.LeaseSafety | src/exec.rs:328-342 | over whole runs: while live executors beat within the lease, no run ever has two of them |
| RunProtocol.RetryReadsTheEnd | src/worker.rs:107-113 | the retry decision recovers from the row exactly whether the execution ended without an exit code |
| RetryDecision.RetryIff | src/worker.rs:107-121 | over all interleavings that leave the row alone: an executor can come to requeue a run if and only if the execution ended without an exit code, on the first or second attempt, and not by the script's own time limit |
| RunProtocol.SucceededHolds | src/db.rs:884-922 | while live executors beat within the lease, a succeeded row keeps its status, exit code, error, attempts and times for ever |
| RunProtocol.OnlyRequeueUndoesCancel | src/db.rs:1269-1275 | in any state, one step takes a run out of `canceled` if and only if it is the requeue of an executor of that run |
| RunProtocol.SettledCancelHolds | src/db.rs:906-922 | over whole runs, however late heartbeats are: a run canceled while no retry is under way stays canceled |
| RunProtocol.CancelIsLostIff | src/worker.rs:107-121 | a cancel can be undone by some continuation if and only if an executor of the run has checked the outcome and not yet requeued; the same holds among continuations with timely heartbeats |
| RunProtocol.CancelsAreNamed | src/db.rs:911-922 | in every reachable state a canceled row gives the operator's reason, which the retry of a timeout reads |
| RunProtocol.StepKeepsAttempts | src/db.rs:1258-1267 | attempt numbers of one run stay distinct, and a requeued number is never in use again |
| RunProtocol.RetriesAreBounded | src/worker.rs:66-122 | whatever the interleaving of claims, crashes, reaps and reclaims, the worker loop requeues a run at most twice |
| RunProtocol.LateExecutorOverwritesSuccess | src/db.rs:884-904 | without timely heartbeats a run can go from succeeded to failed |
| SuccessLoss.SucceededHasNoError | src/db.rs:884-904 | in every reachable state, timely or not, a succeeded row has no error |
| SuccessLoss.SuccessIsLostIff | src/db.rs:884-904 | some continuation takes a run out of `succeeded` if and only if an executor of it has not written its outcome yet or has decided on a retry; nothing is assumed about heartbeats |
| ClaimBounds.ClaimsAreBounded | src/db.rs:1219-1294 | in every execution, whichever steps it is taken to be made of, a run is claimed at most three times more often than it is reaped |
| ClaimBounds.TheClaimBoundIsMet | src/worker.rs:66-122 | for every number of reaps some execution claims a run exactly that often |
| ClaimBounds.CrashLoop | src/db.rs:1277-1294 | for every n a run can be claimed and reaped n times without one requeue |
| SecretsCache.SharedCache.Store | src/db.rs:1513-1519 | the cache insert: entries of another generation go, those of this one stay |
| SecretsCache.HitAfterStore | src/db.rs:1505-1519 | what was stored is found again under its own generation and agent, and nothing of another generation is ever found |
| SecretsCache.StepKeepsCoherent | src/db.rs:1502-1548 | every step of every call and every upsert keeps all data held under the current generation current |
| SecretsCache.LookupIsCurrent | src/db.rs:1502-1548 | for every interleaving of calls, daemons and upserts, a call that ends with the generation it began with sees a name if and only if the global table or the agent's has it, and the agent's value where there is one |
| SecretsCache.UpsertChangesOneName | src/db.rs:1441-1473 | an upsert changes one name of one table, and counts the generation up |
| SecretsCache.TornRead | src/db.rs:1522-1548 | without that, a call can return a mix of both tables that was current at no time |
| LogLines.SplittingIsExact | src/exec.rs:882-884 | the lines and the tail of a text put together again are the text |
| LogLines.FeedingMore | src/exec.rs:880-884 | more text leaves the lines so far alone and continues the tail |
| LogLines.NoNewlineIsLeft | src/exec.rs:882-884 | no line and no tail has a newline left in it |
| ControlLines.LinesAreRight | src/exec.rs:882-884 | the lines dealt with are those of the text, without carriage returns at their ends, and what follows the last newline |
| ControlLines.KindIsRight | src/exec.rs:887-897 | which marker makes which line |
| LogPump.Pump.HandleLine | src/exec.rs:885-903 | a line on stdout that starts, after white space, with a marker sets the result or the progress to what follows, trimmed; any other line is masked and logged once |
| LogPump.Pump.Push | src/exec.rs:898-903 | one more numbered row; a full batch is written at once |
| LogPump.Pump.Flush | src/exec.rs:849-862 | the batch reaches the table without a skipped or repeated row |
| LogPump.Pump.Feed | src/exec.rs:879-908 | a chunk yields exactly the lines it completes, and leaves the rest in the buffer |
| LogPump.Pump.PumpLogs | src/exec.rs:835-929 | however the output is cut into chunks, the rows logged per stream are the masked lines of its text that carry no marker, numbered without a gap, and result and progress are what the last line with their marker carries; after a stream error, as far as lines are complete |
| LogPump.ChunkIndependence | src/exec.rs:835-929 | two streams of the same text, cut in any two ways, leave the same lines per stream, the same result and the same progress |
| LogPump.AppendedRows | src/db.rs:2181-2200 | appending touches no earlier row and numbers the new ones consecutively |
| Redaction.RedactSecrets | src/exec.rs:825-833 | the loop computes the successive replacements |
| Redaction.RedactionIsExact | src/exec.rs:825-833 | one secret after the other: the text is taken apart at each occurrence, leftmost first, and put together again with three stars in its place |
| Redaction.ReplacementAddsOnlyStars | src/exec.rs:828-830 | a replacement brings back no string that lacks stars at its ends and three in a row: if it is in the result it was there before, and is not what was replaced |
| Redaction.MaskProofSecretsDoNotSurvive | src/exec.rs:825-833 | no such secret occurs in the redacted line, for any list, order and overlap of secrets |
| Redaction.SecretsDoNotSurvive | src/exec.rs:825-833 | in particular no star-free secret does |
| Redaction.StarredSecretCanSurvive | src/exec.rs:825-833 | for any other secret there are a line and a later secret whose mask brings it back |
| Redaction.AlwaysMaskedIff | src/exec.rs:825-833 | a secret is masked on all lines in all lists if and only if it has no star at either end and no three in a row |
| Redaction.CleanLinesAreKept | src/exec.rs:825-833 | a line without secrets is unchanged |
| CanonicalText.CanonicalJsonIsRead | src/mcp.rs:35-52 | a strict JSON reader whose keys are escaped as `{:?}` does reads canonical text back, keys in ascending order |
| CanonicalText.ToTextIsRead | src/flow.rs:594-599 | a strict JSON reader reads the plain text of a value back |
| CanonicalText.CanonicalJsonDeterminesValue | src/mcp.rs:35-52 | two values have the same canonical text if and only if they are equal up to key order |
| CanonicalText.ToTextDeterminesValue | src/flow.rs:594-599 | the same for the plain JSON text that gates compare and map outputs are written in |
| JsonText.SortedKeysIsTheSort | src/mcp.rs:38-39 | sorting the keys gives the same list from whatever order the map yields them |
| CacheKey.PreimageInjective | src/mcp.rs:146-168 | equal hashed bytes mean equal runtime, digest, source, input, secrets generation and input files, if no file name has a comma after a colon and a hash, and either none has the separator in it or names and generations can be stored |
| CacheKey.PreimageIsRead | src/mcp.rs:146-168 | the hashed bytes can be taken apart into runtime, digest, source, canonical input, generation and rendered files, in that order |
| CacheKey.SeparatorInNameCollides | src/mcp.rs:146-168 | for every source and file some other source and some other file name that the upload check lets through give the same hashed bytes, at a generation beyond 2^56 |
| CacheKey.CollisionReachesTheKey | src/mcp.rs:146-168 | sets of files that are rendered alike give a run the same hashed bytes |
| InputFiles.BlobsInjective | src/mcp.rs:73-83 | the rendering of the input files determines them, if no name has a comma after a colon and a hash |
| InputFiles.PlainNamesAreFinest | src/mcp.rs:73-83 | such a set has more files than any other set that is rendered like it |
| FileCollisions.RenderedLikeAnotherIff | src/mcp.rs:73-127 | an upload is rendered like a different upload if and only if it has two files or more, or its one name splits at a colon, a hash and a comma into two names whose pairs are in order |
| FileCollisions.AmbiguousIffItTears | src/mcp.rs:73-83 | a name can be the only one with a break in a set that is rendered like another set of no fewer files, if and only if it has one; in whatever order its parts stand |
| FileCollisions.RenderingSplits | src/mcp.rs:73-83 | without commas in names, splitting the rendering at the commas gives each `name:hash` once, in ascending order |
| CronTicks.TickKeyInjective | src/cron.rs:75-77 | a key names one schedule and one second |
| CronTicks.TickKeyIsRead | src/cron.rs:75-77 | splitting a key at the colons gives "schedule", the schedule's id and the second |
| CronTicks.RunStore.InsertRunIdempotent | src/db.rs:741-775 | a new row exactly when the key is free, otherwise the row that has it; keys stay unique |
| CronTicks.RunStore.InsertRefusedRun | src/db.rs:1319-1341 | a refused tick is recorded under its key unless the key is taken |
| CronTicks.RunStore.EnqueueTick | src/cron.rs:92-172 | at most one insert under the tick's key, refused or not; nothing when the quota check fails |
| CronTicks.TickKeyTakenIff | src/db.rs:741-775 | on any table a tick's key is taken if and only if that very tick has a row or a foreign run has that very key |
| CronTicks.TickIsRecordedIff | src/cron.rs:92-172 | enqueueing or refusing a tick leaves it on record if and only if it was already or no foreign run holds its key |
| CronTicks.ForeignRunSwallowsTick | src/mcp.rs:952-956 | a table that inserts lead to holds one run of a client under a tick's key, and that tick, enqueued or refused, leaves no trace in it |
| CronTicks.WebhookKeyIsNoTickKey | src/http.rs:189-198 | the keys of webhook deliveries are never those of a tick |
| CronTicks.OneRowPerTick | src/cron.rs:92-172 | for any number of daemons in any order, no two rows share a schedule with idempotency on and a second |
| CronTicks.ZonedTicker | src/cron.rs:274-298 | over any sequence of clock readings the ticks are those of the reference: each next occurrence, as soon as a reading reaches it |
| CronTicks.TicksAreRight | src/cron.rs:274-298 | those ticks get strictly later, none is early, and an occurrence is dropped only if it had passed when the tick before it was done |
| RateLimiter.FixedWindowLimiter.CheckAt | src/http.rs:252-267 | one check, pruning included |
| RateLimiter.PruningIsInvisible | src/http.rs:252-267 | with a clock that does not go back, the answers are those of a limiter that never prunes |
| RateWindows.AnswersByKey | src/http.rs:252-267 | with a clock that does not go back, a hit is admitted if and only if it is one of the first `max` of its window; the windows of a key are those of its own hits alone |
| RateLimiter.AtMostTwiceLessOne | src/http.rs:252-267 | any W consecutive seconds admit at most 2 * max - 1 hits of a key |
| RateLimiter.AtMostMostAdmitted | src/http.rs:252-267 | with windows of one second, any second admits at most max hits of a key; with wider ones the bound is 2 * max - 1 |
| RateLimiter.TheBoundIsMet | src/http.rs:252-267 | for every width, limit and key some trace admits exactly that many |
| Autoscale.Concurrency.Acquire | src/scale.rs:38-40 | a permit is handed out exactly when one is available; held plus available stays equal to the size |
| Autoscale.Concurrency.Release | src/scale.rs:38-40 | a dropped permit goes back; held plus available stays equal to the size |
| Autoscale.Concurrency.Set | src/scale.rs:48-59 | resizes to the clamped target, but never below what is held; held plus available stays equal to the size |
| Autoscale.Autoscaler.Tick | src/scale.rs:83-98 | smooths the rate and sets the limiter to the least whole number not below rate * service time * headroom, within the bounds and not below what is held |
| Autoscale.RateApproaches | src/scale.rs:83-87 | under a steady load each tick takes two fifths of the distance between the rate and the arrivals per second |
| Autoscale.IdleReachesFloor | src/scale.rs:83-98 | without arrivals the target is at the floor after finitely many ticks, whatever service times are measured |
| Autoscale.IdleDown | src/scale.rs:81-98 | whatever permits are taken and dropped meanwhile, the last of that many ticks leaves the limiter at the floor, or at what is still held if that is more |
| Dsse.DssePae | src/receipt.rs:102-113 | the buffer built piece by piece is the encoding of the protocol |
| Dsse.PaeIsRead | src/receipt.rs:98-113 | a reader of the protocol's encoding gives payload type and payload back |
| Dsse.PaeInjective | src/receipt.rs:98-113 | different (payload type, payload) pairs never have the same encoding |
| Dsse.ToHex | src/receipt.rs:410-417 | two lower-case digits a byte, in order |
| Dsse.UnhexUndoesHex | src/receipt.rs:410-428 | decoding the hexadecimal text of any bytes gives the bytes |

## Left out

- Docker, the warm pool, image pulls, HTTP routing, MCP tools, metrics and the cockpit: foreign calls and I/O.
- SHA-256, HMAC, Ed25519 and ChaCha20-Poly1305: what is fed to them is modelled, they are not; encrypting a secret and decrypting it again is taken as the identity.
- Flow runs assume one driver, successful database writes and no task that panics; a step attempt is a function of script, input and attempt number, so steps that recall a cached run or take `prev_result` are not covered.
- Resume is stated from ledgers without a `running` step: nothing in the source resets one. Crashes inside a rollback are not covered.
- Completion times: the clock that stamps `finished_at` is taken to give every finish a later stamp; with equal stamps of parallel steps the rollback order between them is open, which no dependency constrains.
- FlowDriver.Driver.ReadSteps: gives the rows in any order, where the source orders them by row id; every result holds for all orders.
- FlowDriver.Driver.RunBatch: a running task's several database writes between start and finish are one start and one finish; the run rows it creates are not part of the ledger.
- FlowSpec.InsertFlowRun: leaves out the `cache` column and the flow run's own row.
- An expanded map parent that has not been aggregated when another step fails is not compensated, in the source as in the model: only succeeded rows are.
- RunProtocol.LeaseSafety: rows that flow steps insert and drive themselves are not claimed exclusively and are outside the protocol; database calls are taken to succeed.
- RunProtocol.CancelIsLostIff: the reason written by a cancel is the operator's constant text.
- RunQueue.RunTable.ClaimRun: says which row is claimed; rows skipped because another transaction holds them are a parameter.
- LogPump.Pump.PumpLogs: works on decoded text; the source decodes each chunk by itself, so a character cut by a chunk boundary is outside the property. Which characters are white space is a parameter.
- Redaction.RedactSecrets: requires non-empty secrets; the source passes only values of eight bytes or more.
- A float is represented by the text it prints as; `CanonicalText` needs only that this text looks like a float.
- Which characters `{:?}` shows unescaped is a parameter of `CanonicalJson`; `PreimageInjective` needs that U+001F is not one of them.
- CacheKey.PreimageInjective: asks for runtime and digest without U+001F, which are the engine's own, and for hashes of 64 hexadecimal digits, which is what uploading gives; the upload check lets U+001F in file names through.
- FileCollisions.AmbiguousIffItTears: takes any strings as names, where `RenderedLikeAnotherIff` takes those the upload check lets through.
- RunProtocol.SucceededHolds: `result`, `output_blobs` and the receipt are not columns of the model; the source writes them after the row has succeeded (`src/exec.rs:609-668`).
- FlowRefs.WrappedBudgetRunsNothing: is about builds in which integer overflow wraps; where it is checked, the addition panics instead.
- CronTicks.OneRowPerTick: no row is garbage-collected, and the quota check's outcome is a parameter. The UTC ticker of the scheduler library is left out; its ticks enter through `EnqueueTick`.
- croner and the time-zone rules: the least occurrence strictly after a second, as a parameter.
- Autoscale.IdleReachesFloor: floating point is taken as real arithmetic, and the warm pool's depth is left out.
- Autoscale.IdleDown: stands for a stretch of the source's endless control loop; the number of permits held, which the source does not count, is a field of the model.
- Dsse.UnhexUndoesHex: `unhex` is modelled on ASCII text only; on other text the source slices inside characters.
- Quotas as a global cap: the check and the insert are separate statements, so there is no such invariant.
- Search, embeddings, self-update, installer and command line.
