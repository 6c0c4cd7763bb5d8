# Step by Step, modelled

Step by Step runs recorded browser Workflows. A Worker executes a Run Step by Step, people cancel it
or take it over, a minute loop fails Runs whose Worker went silent, fires Schedules and moves Batches
on. All of them change the same rows. This project models those actors and the self-contained
algorithms around them, and proves what they keep.

## How it is modelled

One committed transaction is one atomic step, and there is one clock that never runs backwards
(instants are microseconds). A class holds the rows; its methods do what the source's methods do and
are proved against functions on values, and the theorems are about those functions and about whole
histories of steps.

- `run_protocol.dfy` has one Run as its three tables see it, an `Event` for every transaction that
  touches them, and what every interleaving of events keeps. The Worker's promise is the predicate
  `Obeys`; everybody else may commit anything at any time.
- `run_tables.dfy` has the rows themselves: the Worker's store, the Run routes and the reaper, each
  method proved to leave exactly what its event says. A ghost history remembers every transaction.
- `intervals.dfy` has the control intervals over whole histories: what the Worker's own transactions
  make of them, what a close from outside makes of that, and exactly when they end with the Run.
- `executor.dfy` has the Worker's step loop. The control flags, the success checks, what the page
  makes of a Step, how the Run starts, whether it is known to be lost and the clock are those of an
  arbitrary world, read one moment after another, so that contracts speak about what was there to be
  seen and not about what the Worker says it saw. Trace saves and the death of the process are arbitrary
  too, and after each of the Worker's transactions any number of foreign ones follow. It proves that the Worker
  keeps the promise and records what the world made of each Step.
- `tracing.dfy` has trace capture, its nested pause reasons and the numbering of its chunks.
- `dispatch.dfy` has the dispatch list, the Worker that pops it and the reaper with its backstop.
- `batches.dfy` has one Batch with its rows and Runs.
- `statuses.dfy` shows that a Batch and a Schedule, which see a Run by its status alone, keep up with it
  through any history.
- `schedules.dfy` has one Schedule with its holes and Runs. A cron expression is its next-after
  function; nothing is assumed of it but that it steps through a set of instants at least a second
  apart. A ghost ledger remembers what became of every occurrence.
- `edit_distance.dfy`, `reconcile.dfy`, `csv.dfy`, `csv_import.dfy`, `redact.dfy` and
  `recurrence.dfy` have the sequence algorithms.
- `signin_codes.dfy` has sign-in codes: the issuance window and the attempts of a code.

## What came out

Where the code, its documentation and an obvious expectation part ways, the model follows the code:

- An address can be sent nine codes in one half-open hour (the end of one window and the start of the
  next), and never ten: the request that opens a window is itself granted, so it counts.
- Masking is safe exactly for secrets that neither begin nor end with a bullet and do not hold four
  bullets in a row. A secret may hold a bullet elsewhere. For every other secret there is a text whose
  redaction spells the secret again.
- `docs/ARCHITECTURE.md` says that a Batch row's status follows its latest attempt. Cancelling a Batch
  marks a running row as cancelled even if its Run had just succeeded or failed; `OverwrittenExactly`
  says, over whole histories, exactly when.
- Control intervals do not always end with their Run. They do if and only if the Worker started its
  last interval before the Run ended and either ended it by then or left it open for a close from
  outside (`IntervalsEndWithRun`). Failing a Run whose Worker was lost leaves an open interval open, and
  a Worker whose Run was closed under it may start another interval or move the end of one past the
  end of the Run, because neither has a guard.
- A takeover that times out or is abandoned after the last Step fails no Step.
- Reading a file loses a last row that is one unquoted or quoted empty field without a line ending.
- The second half of the confidence test of the column matching never decides anything.
- Stored trace chunks are numbered without a gap if and only if no chunk is stored after a save for
  which the browser wrote none. When stopping the recording fails or leaves no file, the index moves
  on; when storing the chunk raises, it does not, and the error leaves `execute`.
- An import may choose the wrong delimiter: a column of values with one semicolon each is read as two
  columns (`ImportMisreads`). A table is imported as it is if and only if its own delimiter is the one
  chosen, or it has one column and no unquoted field holds the one chosen (`ImportFindsTable`).

## Model

| member | source | states |
|---|---|---|
| RunProtocol.ApplyKeepsInv | apps/worker/src/step_by_step_worker/store.py:16-235 | Every transaction on a Run (guarded claim, results, park, resume, finish, routes, reaper) keeps: results form a prefix while it is live and are complete once it was claimed and ended, failed results are followed only by skipped ones, and a queued or running Run has no holder, no pending hand-back and automatic hand-back on |
| RunProtocol.EveryHistoryKeepsInv | apps/api/src/step_by_step_api/runs/reap.py:30-145 | The same after any interleaving of the Worker, the API, the reaper and other Workers |
| RunProtocol.EndedRunIsComplete | apps/api/src/step_by_step_api/runs/reap.py:45-145 | At every moment of every interleaving, a Run that was claimed and is terminal has exactly one result per Step, shaped as its outcome and failure reason say |
| RunProtocol.EndIsFinal | apps/worker/src/step_by_step_worker/store.py:137-169 | A terminal Run's row and results never change again |
| RunProtocol.ClaimedAtMostOnce | apps/worker/src/step_by_step_worker/store.py:16-42 | Of any number of claims of one Run at most one wins |
| RunProtocol.NeverQueuedAgain | apps/worker/src/step_by_step_worker/store.py:16-42 | A Run that has left the queue never returns to it |
| RunProtocol.HandOverThroughNobody | apps/api/src/step_by_step_api/runs/routes.py:801-897 | Between two moments with different holders lies one without a holder |
| RunProtocol.HeartbeatDecides | apps/api/src/step_by_step_api/runs/reap.py:30-50 | Over every interleaving: after an accepted heartbeat no reaping within ninety seconds of it ends the Run, unless an earlier heartbeat is written after it; and if none is written after it, a reaping ends the live Run if and only if it comes more than ninety seconds later |
| RunProtocol.LostExactly | apps/api/src/step_by_step_api/runs/reap.py:30-50 | A live Run with a heartbeat is failed as lost if and only if the heartbeat is more than ninety seconds old |
| RunProtocol.OverdueExactly | apps/api/src/step_by_step_api/runs/reap.py:53-72 | A waiting Run with a deadline is closed if and only if the deadline has passed |
| RunProtocol.FilledCompletes | apps/api/src/step_by_step_api/runs/reap.py:106-145 | Filling up after a prefix of results keeps the prefix, fails the first unwritten Step if asked to, skips all others and leaves none out |
| RunProtocol.ClosedTakeoverFailsFirstUnreached | apps/api/src/step_by_step_api/runs/reap.py:53-125 | A timed-out or abandoned takeover fails exactly the first Step without a result and skips the later ones; it fails none if and only if every Step had a result |
| RunProtocol.OnlyLostWorkerLeavesIntervalOpen | apps/api/src/step_by_step_api/runs/reap.py:45-103 | After an end from outside some interval is open if and only if the Run was failed for a lost Worker while one was open |
| RunProtocol.AbandonedAfterLastStep | apps/api/src/step_by_step_api/runs/reap.py:106-125 | A history in which an abandoned takeover fails no Step |
| Intervals.IntervalsEndWithRun | apps/api/src/step_by_step_api/runs/reap.py:45-103 | Over every interleaving, whose Worker's own intervals are tiled: an ended Run's intervals have all ended, none after the Run, if and only if the Worker started its last one before the Run ended and ended it by then or left it open for a close from outside; they are tiled then |
| Intervals.HistoryMerges | apps/api/src/step_by_step_api/runs/reap.py:75-103 | Over every interleaving the rows are the Worker's own intervals, those open at the close ended with the Run, and those never ended otherwise left open |
| Intervals.WhatSpoilsAnEndedRun | apps/worker/src/step_by_step_worker/store.py:74-96 | Once a Run has ended with its intervals, only starting another interval, or ending one past the end of the Run or before its start, changes that |
| Intervals.ClosingTiles | apps/api/src/step_by_step_api/runs/reap.py:75-83 | Closing a tiled time line not before its last start leaves it tiled, with the open interval ended at that instant |
| Intervals.LateEndOutlivesRun | apps/worker/src/step_by_step_worker/store.py:90-96 | A history as the Worker makes it, with tiled intervals, in which its late closing of the waiting interval moves that past the end of the abandoned Run |
| RunTables.Tables.Claim | apps/worker/src/step_by_step_worker/store.py:16-72 | Claims the Run exactly if it is queued |
| RunTables.Tables.StartInterval | apps/worker/src/step_by_step_worker/store.py:74-88 | Opens an interval; the rows are the replay of the history with it |
| RunTables.Tables.EndInterval | apps/worker/src/step_by_step_worker/store.py:90-96 | Sets the end of that interval and changes nothing else, whatever the state of the Run |
| RunTables.Tables.AddResult | apps/worker/src/step_by_step_worker/store.py:98-135 | Adds a result, rejected exactly if the position already has one |
| RunTables.Tables.FinishRun | apps/worker/src/step_by_step_worker/store.py:137-169 | Ends a running Run with status and reason; otherwise the row stays; results and intervals are never touched |
| RunTables.Tables.Park | apps/worker/src/step_by_step_worker/store.py:183-200 | A running Run waits with its deadline; otherwise the row stays; results and intervals are never touched |
| RunTables.Tables.Resume | apps/worker/src/step_by_step_worker/store.py:202-218 | A waiting Run runs again without holder and with automatic hand-back on; otherwise the row stays |
| RunTables.Tables.ReleaseHolder | apps/worker/src/step_by_step_worker/store.py:220-235 | A waiting Run loses its holder and keeps its deadline; otherwise the row stays |
| RunTables.Tables.Heartbeat | apps/api/src/step_by_step_api/runs/internal.py:48-95 | Accepted exactly for a live Run with a Worker; then the heartbeat is that instant, the Worker is the one that sent it, and nothing else changes |
| RunTables.Tables.CancelRun | apps/api/src/step_by_step_api/runs/routes.py:725-752 | Queued ends at once, waiting is closed with the rest skipped, running gets a request; refused exactly for a terminal Run |
| RunTables.Tables.PauseRun | apps/api/src/step_by_step_api/runs/routes.py:753-768 | Requests a pause; refused exactly for a terminal Run |
| RunTables.Tables.TakeOverRun | apps/api/src/step_by_step_api/runs/routes.py:801-826 | Gives a waiting Run to a session if nobody else holds it |
| RunTables.Tables.HoldTakeover | apps/api/src/step_by_step_api/runs/routes.py:827-852 | Automatic hand-back is off exactly if it was not asked for, set by nobody but the holder of a waiting Run |
| RunTables.Tables.HandBackRun | apps/api/src/step_by_step_api/runs/routes.py:853-873 | Requests the hand-back, exactly for the holder of a waiting Run |
| RunTables.Tables.AbandonTakeover | apps/api/src/step_by_step_api/runs/routes.py:874-897 | Closes a waiting Run as failed, its first unreached Step failed |
| RunTables.Tables.ReapLostWorker | apps/api/src/step_by_step_api/runs/reap.py:30-50 | A running or waiting Run whose heartbeat is more than ninety seconds old fails as lost, its unreached Steps are skipped and its intervals stay as they are; no other Run changes |
| RunTables.Tables.ReapTakeoverDeadline | apps/api/src/step_by_step_api/runs/reap.py:53-72 | Closes a waiting Run whose deadline has passed |
| RunTables.Tables.EndOpenIntervals | apps/api/src/step_by_step_api/runs/reap.py:75-83 | Ends exactly the open intervals |
| RunTables.Tables.CloseWaitingRun | apps/api/src/step_by_step_api/runs/reap.py:86-103 | Row, results and intervals of the closed Run |
| RunTables.Tables.FailPausedAndSkipRest | apps/api/src/step_by_step_api/runs/reap.py:106-125 | The loop with its pending flag fails the first position without a result and skips the others |
| RunTables.Tables.SkipUnreached | apps/api/src/step_by_step_api/runs/reap.py:128-145 | Skips exactly the positions without a result |
| Tracing.ConsecutiveExactly | apps/worker/src/step_by_step_worker/executor.py:192-201 | For any outcomes of the saves, the stored chunks are numbered 0, 1, 2 and so on if and only if no chunk is stored after a save that wrote none |
| Tracing.GapAfterFailedStop | apps/worker/src/step_by_step_worker/executor.py:816-835 | One save without a chunk and then a stored one give the index 1 alone |
| Tracing.StoredIndicesRise | apps/worker/src/step_by_step_worker/executor.py:192-201 | For any outcomes, stored indices never repeat or fall |
| Tracing.TraceCapture.Pause | apps/worker/src/step_by_step_worker/executor.py:157-180 | When it returns nothing is recorded; it raises exactly if storing the chunk did, and then the capture stays active with the reason held |
| Tracing.TraceCapture.Resume | apps/worker/src/step_by_step_worker/executor.py:161-190 | Recording starts again only when no reason is left |
| Tracing.TraceCapture.Save | apps/worker/src/step_by_step_worker/executor.py:192-201 | A chunk is stored under the current index; the index moves on unless the store raised |
| Executor.Worker.Execute | apps/worker/src/step_by_step_worker/executor.py:208-620 | Whatever happens outside, the Worker keeps its promise. Every result is that of a Step as it was performed, in order, or a verified takeover, and only the end of the Run skips the rest: a Step that was performed, and is neither disabled nor a takeover, passed exactly if its page worked, was skipped exactly if it is optional and the page lacked its target, failed otherwise, and no request to cancel or pause stood when it began and the Run was not known lost when it was over. Between any result and the one before it the flags were looked at and did not ask to cancel. A succeeded Run performed every Step, and if a Step was last, flags that did not ask to cancel and automation time below the limit were seen after it. No secret Step and no takeover is ever traced, and unless it broke off the recording has stopped. On every way out the intervals are tiled and, while the Run is live, are the Run's. When the Run is finished every Step has a result, the results fit the outcome and explain it, and automation time is the true length of the automation intervals, less than a millisecond short for each. It breaks off only if the process was killed or an error is accounted for |
| Executor.LeftIntervals | apps/worker/src/step_by_step_worker/executor.py:592-610 | However the Worker left an ended Run, its intervals ended with it under the same exact condition |
| Executor.Worker.ExecuteStep | apps/worker/src/step_by_step_worker/executor.py:846-914 | The outcome is what the control flags and the page of the next moments make of the Step, unless the Run is lost; one entry says whether it was traced |
| Executor.Worker.Record | apps/worker/src/step_by_step_worker/executor.py:551-558 | The result stored is that of the Step as performed; a failure ends the Run, put down to a challenge exactly if one was flagged, and nothing else does |
| Executor.Worker.ParkForHuman | apps/worker/src/step_by_step_worker/executor.py:285-379 | The Run is parked once, with a deadline of the start plus the timeout. Automation resumes after the first turn at which a person was there and either asked for it or, at every poll of a stretch of at least six seconds in which a person was there, the check was met and automatic hand-back was on; with a success check only if it was met once more at the verification, and "handed back" is answered only without a check. If automation does not resume, no turn since waiting began allowed it, and the Run was lost or the process killed. All of this is said of the world, not of a record of it; and the Run was still this Worker's when each of those turns began |
| Executor.Worker.Turn | apps/worker/src/step_by_step_worker/executor.py:311-348 | A turn of the park loop hands back if and only if what there was to see in the turns so far allows it, and the open interval is the human phase since the first person arrived |
| Executor.GraceDecides | apps/worker/src/step_by_step_worker/executor.py:328-347 | The remembered end of the grace has passed if and only if some stretch of turns up to now, lasting six seconds, held throughout |
| Executor.HandsBackExactly | apps/worker/src/step_by_step_worker/executor.py:311-348 | In looks and microseconds: a turn hands back if and only if a person was seen by then and asks for it, or the Step has a success check and, from some turn by which a person was seen, at every poll up to now and over at least 6,000,000 microseconds, the check was met and automatic hand-back was on |
| Executor.Worker.Verify | apps/worker/src/step_by_step_worker/executor.py:344-379 | One verifying interval from the hand-back to the end of the page check, whose answer is what was to be seen; then automation and a resumed Run, unless the check failed: then waiting again, with the holder released |
| Executor.Worker.Checkpoint | apps/worker/src/step_by_step_worker/executor.py:441-458 | Between Steps: a request to cancel ends the Run as cancelled, one to pause parks it once with the Workflow's timeout and nothing else parks it, and the Run goes on only with automation time below its limit and times out only at or above it; each unless the Run was lost or ended under the Worker |
| Executor.Worker.Attempt | apps/worker/src/step_by_step_worker/executor.py:499-535 | One Step, performed at once or, if a pause interrupted that, once more after it; the outcome is that of the moment, and nothing is written before it |
| Executor.Worker.GuardedAttempt | apps/worker/src/step_by_step_worker/executor.py:493-538 | A Step that uses a secret Variable is bracketed by a trace pause, given back on every way out but the death of the process and an error in that pause itself, after which nothing of the Step runs |
| Executor.Worker.RunStep | apps/worker/src/step_by_step_worker/executor.py:438-576 | One pass of the loop. A request to cancel when it begins, or automation time used up by then, lets no Step be performed: at most the rest is skipped. It goes on only with one more result, as the world made it, and after a Step only if flags seen after the Step did not ask to cancel and automation time was below the limit; otherwise it ends in a settled and explained outcome, with the Run gone, the process killed or an error accounted for |
| Executor.Worker.PerformStep | apps/worker/src/step_by_step_worker/executor.py:491-576 | It goes on only with one more result, of the Step performed, and after flags and clock were looked at once more: no request to cancel, automation time below the limit |
| Executor.Worker.HandOver | apps/worker/src/step_by_step_worker/executor.py:460-489 | A takeover Step parks the Run once, from then until its own timeout or, without one or with zero, the Workflow's; it is recorded as passed by the person exactly after a met verification, and goes on to its own part exactly without a success check |
| Executor.Worker.SkipRemaining | apps/worker/src/step_by_step_worker/executor.py:681-692 | Appends one skipped result for each remaining position, or meets a rejected one, and then the Run had been ended under the Worker |
| Executor.Worker.LeaveAutomation | apps/worker/src/step_by_step_worker/executor.py:244-250 | Automation time grows by the stretch that ends; its interval is closed at the same instant |
| Executor.SkippedRestHasShape | apps/worker/src/step_by_step_worker/executor.py:398-615 | Results that allow an outcome still fit it once the rest is skipped: none failed for succeeded, cancelled and timeout; one failed and only skipped after it for a failed Step or challenge; all skipped for a missing secret or failed start |
| Executor.ForeignKeepsAgreement | apps/api/src/step_by_step_api/runs/reap.py:30-145 | Between two transactions of the Worker nobody else can make its record of a live Run wrong |
| Executor.ResultKeepsAgreement | apps/worker/src/step_by_step_worker/store.py:98-135 | The Worker's next result is rejected exactly when the Run was ended under it |
| Executor.FinishKeepsAgreement | apps/worker/src/step_by_step_worker/store.py:137-169 | Finishing ends a running Run with exactly what the Worker wrote and changes nothing otherwise |
| Executor.ClosedAccount | apps/worker/src/step_by_step_worker/executor.py:235-259 | Closing an interval adds its length to automation time exactly if it is one of automation |
| Dispatch.Dispatcher.WorkOnce | apps/worker/src/step_by_step_worker/dispatch.py:34-83 | Pops until one queued Run is claimed and executes it; every entry passed over named no queued Run, and no other Run is touched |
| Dispatch.Dispatcher.constructor | apps/worker/src/step_by_step_worker/dispatch.py:34-83 | Freshly queued Runs and any list satisfy what the other methods require |
| Dispatch.Dispatcher.Consume | apps/worker/src/step_by_step_worker/main.py:30-43 | Whatever the list held, when it is empty no Run it named is queued |
| Dispatch.Dispatcher.QueuedWithoutAWorker | apps/api/src/step_by_step_api/runs/reap.py:158-170 | Exactly the Runs queued for more than sixty seconds, the longest first |
| Dispatch.Dispatcher.ReapAndBackstop | apps/api/src/step_by_step_api/runs/reap.py:24-27 | Every Run is reaped, and exactly the Runs queued for more than a minute are pushed again, the longest queued first to be popped |
| Dispatch.ReapedIsFit | apps/api/src/step_by_step_api/runs/reap.py:30-72 | After a reaping a live Run with a heartbeat was heard of within ninety seconds and a waiting one is within its deadline; a Run of which that holds already is left as it is |
| Dispatch.Dispatcher.RoundServesEveryQueuedRun | apps/api/src/step_by_step_api/loop.py:20-34 | After a reaping round and a Worker that empties the list, every Run still queued was queued within the last sixty seconds, even if every earlier push was lost |
| Dispatch.ClaimedAfresh | apps/worker/src/step_by_step_worker/store.py:16-42 | A Worker that wins the claim starts from a Run without results and intervals |
| Batches.EveryHistoryKeepsInv | apps/api/src/step_by_step_api/batches/advance.py:72-144 | However ticks, messages, cancel, skip, rerun and the Runs' own progress interleave: at most one Run of the Batch is open, it is the latest of a row marked running, and every row that says how it ended agrees with its latest Run |
| Batches.CancelKeepsInv | apps/api/src/step_by_step_api/batches/routes.py:375-417 | Cancelling keeps that invariant |
| Batches.SkipKeepsInv | apps/api/src/step_by_step_api/batches/routes.py:483-502 | So does skipping a waiting row and starting the next |
| Batches.CancelOverwritesOutcome | apps/api/src/step_by_step_api/batches/routes.py:375-417 | A row settled by cancelling disagrees with its latest Run exactly if that Run had succeeded or failed unnoticed |
| Batches.OutcomeIsOverwritten | apps/api/src/step_by_step_api/batches/routes.py:375-417 | A history in which a succeeded row ends up cancelled |
| Batches.OverwrittenExactly | apps/api/src/step_by_step_api/batches/routes.py:375-417 | Over any history of a Batch, a row says cancelled while its latest Run succeeded or failed if and only if some cancelling found the row running and its Run ended unnoticed |
| Batches.AdvanceTwiceIsOnce | apps/api/src/step_by_step_api/batches/advance.py:34-88 | Advancing is idempotent, so lost or repeated messages do no harm |
| Batches.SettledBatchStays | apps/api/src/step_by_step_api/batches/advance.py:51-69 | Ticking only Batches with queued or running rows equals ticking all |
| Batches.StartsInOrder | apps/api/src/step_by_step_api/batches/advance.py:118-144 | Over any history the rows started for the first time come in strictly increasing order |
| Batches.RoundMakesProgress | apps/api/src/step_by_step_api/batches/advance.py:72-144 | A tick and the end of the open Run, in any final status, leave strictly less outstanding |
| Batches.EveryBatchDrains | apps/api/src/step_by_step_api/batches/advance.py:51-144 | A Batch that is not cancelled goes idle after as many rounds as it has rows outstanding |
| Batches.LatestRun | apps/api/src/step_by_step_api/batches/advance.py:175-181 | The last Run of the row, and none exactly if the row has no Run |
| Batches.BatchTables.ReflectRunningRows | apps/api/src/step_by_step_api/batches/advance.py:91-115 | A running row takes the final status of its latest Run once that has one, everything else stays; one event for each row that changed, in order, with its new status and its latest Run |
| Batches.BatchTables.StartNextQueued | apps/api/src/step_by_step_api/batches/advance.py:118-163 | The first queued row starts, with a queued Run of its own, exactly if the Batch is not cancelled, all its Runs have ended, some row is queued and a Version is published; otherwise nothing changes |
| Batches.BatchTables.ReflectAndAdvance | apps/api/src/step_by_step_api/batches/advance.py:72-88 | Reports a Run or an event exactly if the Batch changed |
| Batches.BatchTables.CancelCurrent | apps/api/src/step_by_step_api/batches/routes.py:542-554 | A queued or waiting Run is cancelled, a running one asked to stop, an ended one left alone |
| Batches.BatchTables.Cancel | apps/api/src/step_by_step_api/batches/routes.py:375-417 | Queued rows are cancelled, and running ones unless their latest Run runs, which is asked to stop; a queued or waiting Run of a running row is cancelled; every other row and Run stays |
| Batches.BatchTables.SkipRow | apps/api/src/step_by_step_api/batches/routes.py:483-502 | Accepted exactly if the row's latest Run waits for a person: then the Run is cancelled, the row skipped and the next one started; otherwise nothing changes |
| Batches.BatchTables.RerunRow | apps/api/src/step_by_step_api/batches/routes.py:510-539 | The refusals in their order; accepted exactly for a failed or skipped row of an idle Batch with a published Version, and then the row runs with one more queued Run |
| Batches.BatchTables.constructor | apps/api/src/step_by_step_api/batches/routes.py:190-249 | A row is skipped exactly if it is incomplete and incomplete ones are not to run; the others are queued, and the first of them starts if a Version is published |
| Batches.ReflectEventsMean | apps/api/src/step_by_step_api/batches/advance.py:91-115 | The events are, row by row and in order, exactly one for each row that changed |
| Statuses.BatchKeepsUp | apps/api/src/step_by_step_api/batches/advance.py:175-203 | Through any history of a Run, its Batch's view of it has its status, and nothing else of the Batch changes |
| Statuses.BatchSeesMove | apps/api/src/step_by_step_api/batches/advance.py:175-203 | Every transaction on a Run is, for its Batch, a move to the status it leaves |
| Statuses.ScheduleSeesMove | apps/api/src/step_by_step_api/schedules/fire.py:114-120 | And so for its Schedule |
| Statuses.CancellingIsCancelling | apps/api/src/step_by_step_api/batches/routes.py:542-554 | Cancelling a Batch does to the status of its Run what cancelling the Run does |
| Schedules.OccurrenceSettledOnce | apps/api/src/step_by_step_api/schedules/fire.py:41-76 | In an enabled, unchanged stretch every occurrence up to the last tick has exactly one entry: a fired Run, a hole, or a place in a clipped backlog |
| Schedules.HolesAreUnique | apps/api/src/step_by_step_api/schedules/fire.py:123-153 | No occurrence has two holes, over all edits, pauses and resumes, and all lie before the next due time |
| Schedules.ClippingLosesNothing | apps/api/src/step_by_step_api/schedules/fire.py:47-76 | Clipping a backlog to 500 and pruning keeps the newest 499 holes that recording all of it would keep, all 500 when no Run fires, and fires alike |
| Schedules.ClippedIsLate | apps/api/src/step_by_step_api/schedules/models.py:21-22 | Nothing that is clipped could have been on time |
| Schedules.ClassifyIsFaithful | apps/api/src/step_by_step_api/schedules/fire.py:41-89 | One entry per due occurrence in order; at most one fires, only within the grace window, with nothing open and a published Version |
| Schedules.ClassifyExactly | apps/api/src/step_by_step_api/schedules/fire.py:53-89 | The entry of each due occurrence: missing values if some are missing; missed if it is more than 120 seconds late; overlap with the open Run if there is one; missed without a published Version; overlap with the new Run if an earlier occurrence was on time; else it fires |
| Schedules.HolesRecorded | apps/api/src/step_by_step_api/schedules/fire.py:123-153 | The recorded holes are notes of the ledger, at most 500, and every other note is older than all of them |
| Schedules.AllButOneAreHoles | apps/api/src/step_by_step_api/schedules/fire.py:41-76 | Every due occurrence but the one that fires becomes a hole |
| Schedules.FiresExactly | apps/api/src/step_by_step_api/schedules/fire.py:41-76 | A tick starts a Run if and only if some due occurrence is within the grace window, values are complete, a Version is published and no Run is open |
| Schedules.AfterIsExact | apps/api/src/step_by_step_api/schedules/cron.py:32-75 | The occurrences of an interval are found exactly, in order, at least a second apart |
| Schedules.OccurrencesThrough | apps/api/src/step_by_step_api/schedules/cron.py:54-75 | The walker finds exactly the occurrences from start to end, both included |
| Schedules.SplitByGrace | apps/api/src/step_by_step_api/schedules/fire.py:79-89 | An increasing list is cut into the late and the on-time part |
| Schedules.Schedule.HandleDue | apps/api/src/step_by_step_api/schedules/fire.py:41-76 | Adds for everything due the entry it should have, and for a backlog longer than 500 a mark for each of the older ones; blocked only by a Run that is really open; starts a Run if and only if one is on time and nothing stands against it; moves the next due time to the least occurrence after now |
| Schedules.Schedule.RecordOnTime | apps/api/src/step_by_step_api/schedules/fire.py:57-73 | The loop over on-time occurrences: the first free one fires, later ones overlap with it |
| Schedules.Schedule.Tick | apps/api/src/step_by_step_api/schedules/fire.py:26-38 | After each tick the next due time is the least occurrence after now and the ledger covers the stretch up to now; a Run starts if and only if the Schedule is enabled, an unsettled occurrence is within the grace window, values are complete, a Version is published and no Run is open |
| Schedules.Schedule.Prune | apps/api/src/step_by_step_api/schedules/fire.py:140-153 | Keeps the newest 500 holes |
| Schedules.Schedule.constructor | apps/api/src/step_by_step_api/schedules/routes.py:381-414 | A new Schedule is due at the first occurrence after now if it is enabled |
| Schedules.Schedule.Update | apps/api/src/step_by_step_api/schedules/routes.py:443-475 | Enabled exactly when a next due time is set; a new cron or turning on starts a new stretch at now |
| Schedules.Schedule.RunNow | apps/api/src/step_by_step_api/schedules/routes.py:483-515 | Refused for missing values, then for an open Run, then without a published Version; otherwise starts a Run |
| EditDistance.Levenshtein | apps/web/lib/reconcile.ts:142-164 | The single row with a saved corner computes the recursive edit distance |
| EditDistance.DistIsShortestScript | apps/web/lib/reconcile.ts:142-164 | The distance is the length of a shortest script of single-character edits |
| EditDistance.SameIsZero | apps/web/lib/reconcile.ts:142-145 | Zero exactly for equal words |
| EditDistance.Symmetric | apps/web/lib/reconcile.ts:142-164 | The distance is symmetric |
| EditDistance.Triangle | apps/web/lib/reconcile.ts:142-164 | It obeys the triangle inequality |
| EditDistance.LengthBounds | apps/web/lib/reconcile.ts:142-164 | It lies between the difference of the lengths and the longer length |
| Reconcile.Reconcile | apps/web/lib/reconcile.ts:23-127 | A header is dropped exactly if it is like a secret Variable, no assigned or ignored header is, and the headers are the dropped, assigned and ignored ones, each as often as it occurs; the mapping has the Variables that are not secret, in their order; a header is assigned without being a suggestion exactly if it and the Variable match each other and nothing else, and the result is confident exactly if every Variable is so matched |
| Reconcile.OneVariablePerHeader | apps/web/lib/reconcile.ts:58-119 | No header goes to two Variables |
| Reconcile.ColumnsAreConserved | apps/web/lib/reconcile.ts:23-127 | The header multiset is exactly dropped plus assigned plus ignored, and nothing assigned or ignored has a secret's name |
| Reconcile.MatchingIgnoresOrder | apps/web/lib/reconcile.ts:23-127 | The mapping depends neither on header nor on Variable order |
| Reconcile.CoverageIsConfidence | apps/web/lib/reconcile.ts:77-78 | Coverage of every Variable already implies confidence |
| Reconcile.ExactMeans | apps/web/lib/reconcile.ts:58-75 | A Variable has an exact match if and only if it is mutual: one such header, once, and one such Variable |
| Reconcile.SuggestionMeans | apps/web/lib/reconcile.ts:88-118 | A header is suggested if and only if it is the only one that occurs once, is near this Variable and near no other unmatched one |
| Reconcile.NearMeans | apps/web/lib/reconcile.ts:129-164 | Two forms are near if and only if neither is empty and one holds the other or at most two edits of a character lead from one to the other |
| Csv.ParseTable | apps/web/components/value-grid/csv-import.ts:200-253 | The loop over mutable row, field and quoting reads what the recursive reader reads |
| Csv.RoundTrip | apps/web/components/value-grid/csv-import.ts:200-253 | Any table without empty rows, any delimiter but quote, CR and LF, any one line ending and any quoting allowed by section 2 of RFC 4180 is read back unchanged |
| Csv.RoundTripWithoutLastEnding | apps/web/components/value-grid/csv-import.ts:248-251 | Without the last line ending the same, except exactly for a last row of one empty field, which is lost |
| Csv.QuotesAnywhere | apps/web/components/value-grid/csv-import.ts:207-251 | Quotes may open and close anywhere in a field, which is then its quoted and plain pieces put together |
| Csv.UnclosedQuote | apps/web/components/value-grid/csv-import.ts:207-251 | A quote that is never closed takes the rest of the text into the field, whatever it holds |
| Csv.ExportIsReadBack | apps/api/src/step_by_step_api/batches/routes.py:787-793 | A table as the Batch export writes it is read back unchanged |
| CsvImport.SniffDelimiter | apps/web/components/value-grid/csv-import.ts:179-198 | The loop finds the first of comma, tab, semicolon and bar of maximal score |
| CsvImport.BestIsFirstMaximum | apps/web/components/value-grid/csv-import.ts:179-198 | No candidate scores more and no earlier one as much |
| CsvImport.ScoreOf | apps/web/components/value-grid/csv-import.ts:183-192 | Width times number of the first ten rows that are not blank if all are as wide, nothing if not, and less than nothing without such rows |
| CsvImport.RowIsKept | apps/web/components/value-grid/csv-import.ts:41 | Wherever it stands, a row is kept if and only if some field of it is not empty |
| CsvImport.AbsentDelimiterJoins | apps/web/components/value-grid/csv-import.ts:200-253 | Under a delimiter that does not occur in it, any text has the same rows, each one field with the real delimiters left in |
| CsvImport.ParseCsv | apps/web/components/value-grid/csv-import.ts:38-45 | Without its byte order mark the text is read with the chosen delimiter; the first row with a field that is not empty gives the headers, each later one a row of as many fields, cut or filled with empty ones |
| CsvImport.ImportFindsTable | apps/web/components/value-grid/csv-import.ts:38-45 | A rectangular table without blank rows, written with any candidate delimiter and legal quoting, is imported unchanged, marked or not, if and only if that delimiter is the one chosen, or the table has one column and no unquoted field holds the one chosen |
| CsvImport.ImportedExactly | apps/web/components/value-grid/csv-import.ts:38-45 | Any text that reads as a rectangle under one candidate is imported as that if and only if that candidate is chosen, or it has one column and the chosen one reads the same |
| CsvImport.SniffedExactly | apps/web/components/value-grid/csv-import.ts:179-198 | A candidate is chosen if and only if it outscores the earlier ones and no later one outscores it |
| CsvImport.DelimitersAgree | apps/web/components/value-grid/csv-import.ts:200-253 | Read with any two delimiters, a text has the same rows but for where they are split |
| CsvImport.ColumnReadsAlike | apps/web/components/value-grid/csv-import.ts:200-253 | A column written for one delimiter is read the same with another if and only if no unquoted field holds that other |
| CsvImport.ImportMisreads | apps/web/components/value-grid/csv-import.ts:179-198 | A legal one-column file that is imported as two columns |
| Redact.Redact | apps/worker/src/step_by_step_worker/redact.py:13-17 | The loop masks every non-empty secret in turn, the longest first |
| Redact.LongestFirstSorts | apps/worker/src/step_by_step_worker/redact.py:15 | The order is by falling length and keeps every secret |
| Redact.LongestFirstIsStable | apps/worker/src/step_by_step_worker/redact.py:15 | Secrets of one length keep their order |
| Redact.ReplaceFirst | apps/worker/src/step_by_step_worker/redact.py:16 | Replacing keeps the text before the first occurrence, masks that occurrence and goes on after it |
| Redact.NoSecretLeaks | apps/worker/src/step_by_step_worker/redact.py:13-17 | No clean secret is a substring of the output, for every text and whatever the other secrets, overlapping or nested |
| Redact.NoBulletIsClean | apps/worker/src/step_by_step_worker/redact.py:9 | A secret without the mask character is clean |
| Redact.SafeExactlyWhenClean | apps/worker/src/step_by_step_worker/redact.py:13-17 | One secret is absent from the redaction of every text if and only if it is clean |
| Redact.OtherTextIsKept | apps/worker/src/step_by_step_worker/redact.py:13-17 | A text without secrets is unchanged |
| Redact.DelimitedSecretIsMasked | apps/worker/src/step_by_step_worker/redact.py:15-16 | A secret between two characters foreign to all secrets becomes exactly the mask, even with shorter secrets nested in it, and its surroundings are redacted on their own |
| Recurrences.RoundTrip | apps/web/lib/recurrence.ts:34-133 | Every recurrence that can be printed is read back as itself |
| Recurrences.ReadsBack | apps/web/lib/recurrence.ts:76-133 | Whatever is read can be printed and reads back the same |
| Recurrences.PrintingIsInjective | apps/web/lib/recurrence.ts:34-66 | Different recurrences are printed differently |
| Recurrences.PrintableExactly | apps/web/lib/recurrence.ts:21-66 | Exactly the recurrences with numbers in range and with some weekdays, all different, can be printed |
| Recurrences.ReadsExactly | apps/web/lib/recurrence.ts:76-133 | A text is read as a recurrence if and only if its five fields say it: which numbers and in which range, stars, 1-5, or different days with commas between them |
| Recurrences.FieldsAreWords | apps/web/lib/recurrence.ts:76-80 | The fields of a text are its words, whatever white space stands before, between and after them |
| Recurrences.NormalIsIdempotent | apps/web/lib/recurrence.ts:34-133 | Normalising is idempotent, and two texts normalise alike exactly if they are read alike |
| Recurrences.ReadingKeepsMeaning | apps/web/lib/recurrence.ts:76-133 | A text read as a recurrence matches, by the usual meaning of cron fields, exactly the minutes at which the recurrence is due |
| Recurrences.PrintingKeepsMeaning | apps/web/lib/recurrence.ts:34-66 | So does a printed one |
| Recurrences.NumberOfPrint | apps/web/lib/recurrence.ts:68-74 | Decimal printing and reading are inverse |
| SigninCodes.AtMostNineAnHour | apps/api/src/step_by_step_api/accounts/codes.py:32-60 | Over any history an address is sent at most nine codes in any half-open hour |
| SigninCodes.NineAreReached | apps/api/src/step_by_step_api/accounts/codes.py:32-60 | Nine is reached |
| SigninCodes.AtMostFiveAWindow | apps/api/src/step_by_step_api/accounts/codes.py:32-52 | The counter is the number of codes sent since the window opened, at most five |
| SigninCodes.SweepingIsInvisible | apps/api/src/step_by_step_api/accounts/codes.py:55-60 | Deleting closed windows never changes a decision, now or later |
| SigninCodes.AtMostFiftyGuessesAnHour | apps/api/src/step_by_step_api/accounts/codes.py:84-104 | Guesses are compared at most five times per code sent plus five, so at most fifty times an hour |
| SigninCodes.SignInUsesLatestCode | apps/api/src/step_by_step_api/accounts/codes.py:63-104 | Whoever signs in names the code of the last granted request, less than ten minutes old and not used before |
| SigninCodes.SignsInExactly | apps/api/src/step_by_step_api/accounts/codes.py:63-104 | Over every history a guess signs in if and only if it names the code of the last request granted to the address, less than ten minutes old, not used since, and with fewer than five guesses compared since |
| SigninCodes.CodeTables.CountIssuance | apps/api/src/step_by_step_api/accounts/codes.py:32-52 | Counts on in an open window, opens a new one otherwise |
| SigninCodes.CodeTables.SweepClosedWindows | apps/api/src/step_by_step_api/accounts/codes.py:55-60 | Keeps exactly the open windows |
| SigninCodes.CodeTables.RequestCode | apps/api/src/step_by_step_api/accounts/service.py:81-90 | A refused request changes nothing; a granted one counts, sweeps and replaces the outstanding code |
| SigninCodes.CodeTables.Claim | apps/api/src/step_by_step_api/accounts/codes.py:84-104 | Accepts the outstanding code before it expires if fewer than five wrong guesses were compared, and removes it; counts a wrong guess; removes an expired code; after five is exhausted |

## Left out

- Browser, noVNC, Redis, object storage, mail, HTTP plumbing and SQL detail: flags, page checks and Step outcomes are arbitrary inputs; events, logs, artifacts and screenshots are not modelled.
- Executor.Worker.Execute: control flags are arbitrary at every moment, which covers messages that are lost, repeated or never cleared; `control.py` itself and writing back auth states are not modelled. Of the store's errors only the rejected result and the failed chunk are modelled.
- Executor.Worker.ParkForHuman: the loop ends because the process is killed after an arbitrary number of polls; that a takeover ends by itself at its deadline is the reaper's doing.
- Executor.Worker.Attempt: a second pause during the retry leaves `execute` as an uncaught exception, like a rejected result; the Worker then stops without finishing the Run and the reaper ends it.
- Dispatch.Dispatcher.WorkOnce: while one Worker pops, other Workers and routes touch only the Run it executes; what they may do to that Run in between is arbitrary. A Run's id read from text and its text are inverse functions and otherwise arbitrary.
- Dispatch.Dispatcher.Consume: it goes on after an execution that broke off; in `main.py` such an error ends the process, and whatever starts the Worker again goes on.
- Races inside one transaction: every committed route is one atomic step, although some read without a row lock.
- `delete_run` and ending an organization, which remove or end Runs without filling in results.
- `tick` as one transaction over Runs, Schedules and Batches: each part is a step of its own module. The Runs of a Batch or Schedule are seen there only by their status, which `statuses.dfy` ties to their histories.
- Batches: editing and filling rows, statistics and output tables; Runs are ordered by when they were enqueued.
- Schedules.AfterIsExact: cron fields, time zones and daylight saving are inside croniter, which is not part of this model; the next occurrence always exists.
- Schedules.Schedule.HandleDue: the branch for an empty list of due occurrences is unreachable when the next due time has passed (`DueAreAll`) and is not modelled.
- Reconcile.Reconcile: the normal form is an arbitrary function, so the results hold for any; Variable names are distinct, as the Workflow document already demands.
- Strings are sequences of characters, not of UTF-16 code units.
- Filling the grid from the parsed file (`applyImport`), which adds only easy members.
- Recurrences.RoundTrip: numbers are whole, so the refusal of fractions is not modelled; `humanize` is not modelled.
- Redact.DelimitedSecretIsMasked: what is left of secrets that overlap each other in the text is not described beyond the absence of every clean secret. Zip handling of traces is not modelled.
- SigninCodes.CodeTables.Claim: codes are compared directly; hashing, the minting of random codes and address normalisation are not modelled.
