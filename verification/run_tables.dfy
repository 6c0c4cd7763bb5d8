/**
 The rows of one Run and the transactions that change them: the Worker's store
 (`store.py`), the Run routes (`runs/routes.py`) and the reaper (`runs/reap.py`).
 `history` remembers every transaction; the rows are always its replay.
 */
module RunTables {
  import opened Wrappers
  import opened RunProtocol

  class Tables {
    const n: nat             // how many Steps the Run's document has
    const queuedAt: int
    var row: Row
    var results: Results
    var intervals: seq<Interval>
    ghost var history: seq<Event>

    ghost function State(): State
      reads this
    {
      RunProtocol.State(row, results, intervals)
    }

    ghost predicate Valid()
      reads this
    {
      State() == Replay(n, queuedAt, history)
    }

    constructor (n: nat, queuedAt: int)
      ensures Valid() && this.n == n && this.queuedAt == queuedAt && history == []
    {
      this.n := n;
      this.queuedAt := queuedAt;
      row := Fresh(queuedAt).row;
      results := map[];
      intervals := [];
      history := [];
    }

    /** Ghost bookkeeping at the end of every transaction. */
    ghost method Commit(e: Event)
      requires State() == Apply(n, Replay(n, queuedAt, history), e)
      modifies `history
      ensures Valid() && history == old(history) + [e]
    {
      history := history + [e];
      assert history[..|history| - 1] == old(history);
    }

    // ------------------------------------------------------------ the Worker's store

    method Claim(worker: string, at: int) returns (claimed: bool)
      requires Valid()
      modifies this
      ensures Valid() && history == old(history) + [Event.Claim(worker, at)]
      ensures claimed == old(row.status.Queued?)
      ensures results == old(results) && intervals == old(intervals)
      ensures row == if claimed then old(row).(status := Running, worker := Some(worker), startedAt := Some(at),
                                               heartbeatAt := Some(at))
                     else old(row)
    {
      claimed := row.status.Queued?;
      if claimed {
        row := row.(status := Running, worker := Some(worker), startedAt := Some(at), heartbeatAt := Some(at));
      }
      Commit(Event.Claim(worker, at));
    }

    method StartInterval(kind: Kind, at: int) returns (handle: nat)
      requires Valid()
      modifies this
      ensures Valid() && history == old(history) + [Event.StartInterval(kind, at)]
      ensures handle == |old(intervals)|
      ensures row == old(row) && results == old(results)
      ensures intervals == old(intervals) + [Interval(kind, at, None)]
    {
      handle := |intervals|;
      intervals := intervals + [Interval(kind, at, None)];
      Commit(Event.StartInterval(kind, at));
    }

    method EndInterval(handle: nat, at: int)
      requires Valid()
      modifies this
      ensures Valid() && history == old(history) + [Event.EndInterval(handle, at)]
      ensures row == old(row) && results == old(results)
      ensures handle >= |old(intervals)| ==> intervals == old(intervals)
      ensures handle < |old(intervals)| ==>
                && |intervals| == |old(intervals)| && intervals[handle].endedAt == Some(at)
                && forall i :: 0 <= i < |intervals| && i != handle ==> intervals[i] == old(intervals)[i]
    {
      if handle < |intervals| {
        intervals := intervals[handle := intervals[handle].(endedAt := Some(at))];
      }
      Commit(Event.EndInterval(handle, at));
    }

    /** `added` is false when the unique (run, position) key rejects the row. */
    method AddResult(position: nat, result: StepStatus) returns (added: bool)
      requires Valid()
      modifies this
      ensures Valid() && history == old(history) + [Event.AddResult(position, result)]
      ensures added == (position !in old(results))
      ensures row == old(row) && intervals == old(intervals)
      ensures results == if added then old(results)[position := result] else old(results)
    {
      added := position !in results;
      if added {
        results := results[position := result];
      }
      Commit(Event.AddResult(position, result));
    }

    method Park(deadlineAt: int, at: int)
      requires Valid()
      modifies this
      ensures Valid() && history == old(history) + [Event.Park(deadlineAt, at)]
      ensures results == old(results) && intervals == old(intervals)
      ensures row == if old(row.status.Running?)
                     then old(row).(status := Waiting, deadlineAt := Some(deadlineAt), pauseRequestedAt := None,
                            handbackRequestedAt := None, autoHandbackDisabled := false, heartbeatAt := Some(at))
                     else old(row)
    {
      if row.status.Running? {
        row := row.(status := Waiting, deadlineAt := Some(deadlineAt), pauseRequestedAt := None,
                    handbackRequestedAt := None, autoHandbackDisabled := false, heartbeatAt := Some(at));
      }
      Commit(Event.Park(deadlineAt, at));
    }

    method Resume(at: int)
      requires Valid()
      modifies this
      ensures Valid() && history == old(history) + [Event.Resume(at)]
      ensures results == old(results) && intervals == old(intervals)
      ensures row == if old(row.status.Waiting?)
                     then old(row).(status := Running, holder := None, handbackRequestedAt := None,
                            autoHandbackDisabled := false, heartbeatAt := Some(at))
                     else old(row)
    {
      if row.status.Waiting? {
        row := row.(status := Running, holder := None, handbackRequestedAt := None,
                    autoHandbackDisabled := false, heartbeatAt := Some(at));
      }
      Commit(Event.Resume(at));
    }

    method ReleaseHolder(at: int)
      requires Valid()
      modifies this
      ensures Valid() && history == old(history) + [Event.ReleaseHolder(at)]
      ensures results == old(results) && intervals == old(intervals)
      ensures row == if old(row.status.Waiting?)
                     then old(row).(holder := None, handbackRequestedAt := None,
                            autoHandbackDisabled := false, heartbeatAt := Some(at))
                     else old(row)
    {
      if row.status.Waiting? {
        row := row.(holder := None, handbackRequestedAt := None, autoHandbackDisabled := false,
                    heartbeatAt := Some(at));
      }
      Commit(Event.ReleaseHolder(at));
    }

    method FinishRun(status: RunStatus, reason: Option<FailureReason>, automationMs: nat, at: int)
      requires Valid()
      modifies this
      ensures Valid() && history == old(history) + [Event.Finish(status, reason, automationMs, at)]
      ensures results == old(results) && intervals == old(intervals)
      ensures row == if old(row.status.Running?)
                     then old(row).(status := status, reason := reason, automationMs := automationMs,
                            heartbeatAt := Some(at), endedAt := Some(at))
                     else old(row)
    {
      if row.status.Running? {
        row := row.(status := status, reason := reason, automationMs := automationMs,
                    heartbeatAt := Some(at), endedAt := Some(at));
      }
      Commit(Event.Finish(status, reason, automationMs, at));
    }

    // ------------------------------------------------------------ the API routes

    method Heartbeat(worker: string, at: int) returns (answer: Answer)
      requires Valid()
      modifies this
      ensures Valid() && history == old(history) + [Event.Beat(worker, at)]
      ensures answer.Accepted? <==> old(Live(row.status) && row.worker.Some?)
      ensures results == old(results) && intervals == old(intervals)
      ensures answer.Accepted? <==> old((row.status.Running? || row.status.Waiting?) && row.worker.Some?)
      ensures row == if answer.Accepted? then old(row).(heartbeatAt := Some(at), worker := Some(worker)) else old(row)
    {
      if !Live(row.status) || row.worker.None? {
        answer := Conflict("run_terminal");
      } else {
        row := row.(heartbeatAt := Some(at), worker := Some(worker));
        answer := Accepted;
      }
      Commit(Event.Beat(worker, at));
    }

    method CancelRun(at: int) returns (answer: Answer)
      requires Valid()
      modifies this
      ensures Valid() && history == old(history) + [Event.Cancel(at)]
      ensures answer.Accepted? <==> !old(Terminal(row.status))
      ensures old(row.status.Queued?) ==>
                && row == old(row).(status := Cancelled, endedAt := Some(at))
                && results == old(results) && intervals == old(intervals)
      ensures old(row.status.Waiting?) ==>
                && row == old(row).(status := Cancelled, reason := None, endedAt := Some(at), holder := None)
                && FilledUp(n, old(results), results, false) && AllClosed(old(intervals), intervals, at)
      ensures old(row.status.Running?) ==>
                && row == old(row).(cancelRequestedAt := if old(row.cancelRequestedAt).Some?
                                                         then old(row.cancelRequestedAt) else Some(at))
                && results == old(results) && intervals == old(intervals)
      ensures !answer.Accepted? ==> State() == old(State())
    {
      answer := Accepted;
      if Terminal(row.status) {
        answer := Conflict("run_terminal");
      } else if row.status.Queued? {
        row := row.(status := Cancelled, endedAt := Some(at));
      } else if row.status.Waiting? {
        CloseWaitingRun(at, Cancelled, None, false);
      } else if row.cancelRequestedAt.None? {
        row := row.(cancelRequestedAt := Some(at));
      }
      Commit(Event.Cancel(at));
    }

    method PauseRun(at: int) returns (answer: Answer)
      requires Valid()
      modifies this
      ensures Valid() && history == old(history) + [Event.Pause(at)]
      ensures answer.Accepted? <==> !old(Terminal(row.status))
      ensures results == old(results) && intervals == old(intervals)
      ensures row == if answer.Accepted? && old(row.pauseRequestedAt).None?
                     then old(row).(pauseRequestedAt := Some(at)) else old(row)
    {
      if Terminal(row.status) {
        answer := Conflict("run_terminal");
      } else {
        answer := Accepted;
        if row.pauseRequestedAt.None? {
          row := row.(pauseRequestedAt := Some(at));
        }
      }
      Commit(Event.Pause(at));
    }

    method TakeOverRun(session: Session) returns (answer: Answer)
      requires Valid()
      modifies this
      ensures Valid() && history == old(history) + [Event.TakeOver(session)]
      ensures answer.Accepted? ==> row.holder == Some(session)
      ensures answer == Conflict("already_held") ==> row.holder == old(row.holder) && row.holder.Some?
      ensures results == old(results) && intervals == old(intervals)
      ensures answer.Accepted? <==>
              old(row.status.Waiting? && (row.holder.None? || row.holder == Some(session)))
      ensures row == if answer.Accepted? then old(row).(holder := Some(session)) else old(row)
    {
      if !row.status.Waiting? {
        answer := Conflict("not_waiting");
      } else if row.holder.Some? && row.holder != Some(session) {
        answer := Conflict("already_held");
      } else {
        row := row.(holder := Some(session));
        answer := Accepted;
      }
      Commit(Event.TakeOver(session));
    }

    method HoldTakeover(session: Session, autoHandback: bool) returns (answer: Answer)
      requires Valid()
      modifies this
      ensures Valid() && history == old(history) + [Event.Hold(session, autoHandback)]
      ensures answer.Accepted? <==> old(row.status.Waiting? && row.holder == Some(session))
      ensures results == old(results) && intervals == old(intervals)
      ensures row == if answer.Accepted? then old(row).(autoHandbackDisabled := !autoHandback) else old(row)
    {
      if !row.status.Waiting? {
        answer := Conflict("not_waiting");
      } else if row.holder != Some(session) {
        answer := Conflict("not_held");
      } else {
        row := row.(autoHandbackDisabled := !autoHandback);
        answer := Accepted;
      }
      Commit(Event.Hold(session, autoHandback));
    }

    method HandBackRun(session: Session, at: int) returns (answer: Answer)
      requires Valid()
      modifies this
      ensures Valid() && history == old(history) + [Event.HandBack(session, at)]
      ensures answer.Accepted? <==> old(row.status.Waiting? && row.holder == Some(session))
      ensures results == old(results) && intervals == old(intervals)
      ensures row == if answer.Accepted? && old(row.handbackRequestedAt).None?
                     then old(row).(handbackRequestedAt := Some(at)) else old(row)
    {
      if !row.status.Waiting? {
        answer := Conflict("not_waiting");
      } else if row.holder != Some(session) {
        answer := Conflict("not_held");
      } else {
        if row.handbackRequestedAt.None? {
          row := row.(handbackRequestedAt := Some(at));
        }
        answer := Accepted;
      }
      Commit(Event.HandBack(session, at));
    }

    method AbandonTakeover(at: int) returns (answer: Answer)
      requires Valid()
      modifies this
      ensures Valid() && history == old(history) + [Event.Abandon(at)]
      ensures answer.Accepted? <==> old(row.status.Waiting?)
      ensures answer.Accepted? ==>
                && row == old(row).(status := RunStatus.Failed, reason := Some(TakeoverAbandoned),
                                    endedAt := Some(at), holder := None)
                && FilledUp(n, old(results), results, true) && AllClosed(old(intervals), intervals, at)
      ensures !answer.Accepted? ==> State() == old(State())
    {
      if !row.status.Waiting? {
        answer := Conflict("not_waiting");
      } else {
        CloseWaitingRun(at, RunStatus.Failed, Some(TakeoverAbandoned), true);
        answer := Accepted;
      }
      Commit(Event.Abandon(at));
    }

    // ------------------------------------------------------------ the reaper

    method ReapLostWorker(now: int)
      requires Valid()
      modifies this
      ensures Valid() && history == old(history) + [Event.ReapLost(now)]
      ensures if old(row.status.Running? || row.status.Waiting?) && old(row.heartbeatAt).Some?
                 && now - old(row.heartbeatAt).value > 90_000_000
              then
                && row == old(row).(status := RunStatus.Failed, reason := Some(WorkerLost), endedAt := Some(now))
                && FilledUp(n, old(results), results, false) && intervals == old(intervals)
              else State() == old(State())
    {
      if Stale(row, now) {
        row := row.(status := RunStatus.Failed, reason := Some(WorkerLost), endedAt := Some(now));
        SkipUnreached();
      }
      Commit(Event.ReapLost(now));
    }

    method ReapTakeoverDeadline(now: int)
      requires Valid()
      modifies this
      ensures Valid() && history == old(history) + [Event.ReapTakeover(now)]
      ensures if old(row.status.Waiting?) && old(row.deadlineAt).Some? && old(row.deadlineAt).value < now
              then
                && row == old(row).(status := RunStatus.Failed, reason := Some(TakeoverTimeout),
                                    endedAt := Some(now), holder := None)
                && FilledUp(n, old(results), results, true) && AllClosed(old(intervals), intervals, now)
              else State() == old(State())
    {
      if Overdue(row, now) {
        CloseWaitingRun(now, RunStatus.Failed, Some(TakeoverTimeout), true);
      }
      Commit(Event.ReapTakeover(now));
    }

    method CloseWaitingRun(at: int, status: RunStatus, reason: Option<FailureReason>, failPaused: bool)
      modifies `row, `results, `intervals
      ensures State() == Closed(n, old(State()), at, status, reason, failPaused)
      ensures row == old(row).(status := status, reason := reason, endedAt := Some(at), holder := None)
      ensures FilledUp(n, old(results), results, failPaused) && AllClosed(old(intervals), intervals, at)
    {
      row := row.(status := status, reason := reason, endedAt := Some(at), holder := None);
      EndOpenIntervals(at);
      if failPaused {
        FailPausedAndSkipRest();
      } else {
        SkipUnreached();
      }
    }

    method EndOpenIntervals(at: int)
      modifies `intervals
      ensures intervals == AllEnded(old(intervals), at)
      ensures AllClosed(old(intervals), intervals, at)
    {
      var i := 0;
      while i < |intervals|
        invariant i <= |intervals| == |old(intervals)|
        invariant forall j :: 0 <= j < |intervals| ==>
                    intervals[j] == if j < i then Ended(old(intervals)[j], at) else old(intervals)[j]
      {
        if intervals[i].endedAt.None? {
          intervals := intervals[i := intervals[i].(endedAt := Some(at))];
        }
        i := i + 1;
      }
    }

    method FailPausedAndSkipRest()
      modifies `results
      ensures results == Filled(n, old(results), true)
      ensures FilledUp(n, old(results), results, true)
    {
      hide Filled;
      var written := results.Keys;
      var pending := true;
      var position := 0;
      FilledStep(0, results, true);
      while position < n
        invariant position <= n
        invariant written == old(results).Keys
        invariant pending <==> forall q: nat :: q < position ==> q in old(results)
        invariant results == Filled(position, old(results), true)
      {
        FilledStep(position, old(results), true);
        if position !in written {
          results := results[position := if pending then StepStatus.Failed else Skipped];
          pending := false;
        }
        position := position + 1;
      }
      FilledIsFilledUp(n, old(results), true);
    }

    method SkipUnreached()
      modifies `results
      ensures results == Filled(n, old(results), false)
      ensures FilledUp(n, old(results), results, false)
    {
      hide Filled;
      var written := results.Keys;
      var position := 0;
      FilledStep(0, results, false);
      while position < n
        invariant position <= n
        invariant written == old(results).Keys
        invariant results == Filled(position, old(results), false)
      {
        FilledStep(position, old(results), false);
        if position !in written {
          results := results[position := Skipped];
        }
        position := position + 1;
      }
      FilledIsFilledUp(n, old(results), false);
    }

    /** One transaction of somebody other than the Run's Worker. */
    method Outside(e: Event)
      requires Valid() && !FromWorker(e)
      modifies this
      ensures Valid() && history == old(history) + [e]
    {
      var answer: Answer;
      match e
      case Beat(worker, at) => answer := Heartbeat(worker, at);
      case Cancel(at) => answer := CancelRun(at);
      case Pause(at) => answer := PauseRun(at);
      case TakeOver(session) => answer := TakeOverRun(session);
      case Hold(session, autoHandback) => answer := HoldTakeover(session, autoHandback);
      case HandBack(session, at) => answer := HandBackRun(session, at);
      case Abandon(at) => answer := AbandonTakeover(at);
      case ReapLost(now) => ReapLostWorker(now);
      case ReapTakeover(now) => ReapTakeoverDeadline(now);
    }
  }
}
