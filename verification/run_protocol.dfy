/**
 One Run as its three tables see it: the `runs` row, its `step_results` and its
 `run_control_intervals`.  Every committed transaction that touches them is an
 `Event`; `Apply` says what the transaction leaves behind, including when its
 guard makes it do nothing.  Times are whole microseconds of one clock.
 */
module RunProtocol {
  import opened Wrappers

  type Session = string

  datatype RunStatus = Queued | Running | Waiting | Succeeded | Failed | Cancelled

  datatype FailureReason =
    | StepFailed | AuthChallenge | TakeoverTimeout | TakeoverAbandoned
    | RunTimeout | WorkerLost | MissingSecret | StartupFailed

  datatype StepStatus = Passed | Failed | Skipped

  datatype Kind = Automation | WaitingForPerson | Human | Verifying

  datatype Interval = Interval(kind: Kind, startedAt: int, endedAt: Option<int>)

  datatype Row = Row(
    status: RunStatus,
    reason: Option<FailureReason>,
    worker: Option<string>,
    queuedAt: int,
    heartbeatAt: Option<int>,
    startedAt: Option<int>,
    endedAt: Option<int>,
    cancelRequestedAt: Option<int>,
    pauseRequestedAt: Option<int>,
    handbackRequestedAt: Option<int>,
    holder: Option<Session>,
    deadlineAt: Option<int>,
    autoHandbackDisabled: bool,
    automationMs: nat)

  /** `step_results` keyed by the unique (run, position) key. */
  type Results = map<nat, StepStatus>

  datatype State = State(row: Row, results: Results, intervals: seq<Interval>)

  const HEARTBEAT_STALE_AFTER := 90_000_000
  const QUEUED_BACKSTOP_AFTER := 60_000_000

  datatype Event =
    // the Worker
    | Claim(worker: string, at: int)
    | StartInterval(kind: Kind, at: int)
    | EndInterval(handle: nat, at: int)
    | AddResult(position: nat, result: StepStatus)
    | Park(deadlineAt: int, at: int)
    | Resume(at: int)
    | ReleaseHolder(at: int)
    | Finish(status: RunStatus, reason: Option<FailureReason>, automationMs: nat, at: int)
    // the API routes
    | Beat(worker: string, at: int)
    | Cancel(at: int)
    | Pause(at: int)
    | TakeOver(session: Session)
    | Hold(session: Session, autoHandback: bool)
    | HandBack(session: Session, at: int)
    | Abandon(at: int)
    // the minute loop
    | ReapLost(now: int)
    | ReapTakeover(now: int)

  predicate FromWorker(e: Event) {
    e.Claim? || e.StartInterval? || e.EndInterval? || e.AddResult? || e.Park? || e.Resume? ||
    e.ReleaseHolder? || e.Finish?
  }

  predicate Terminal(status: RunStatus) {
    status.Succeeded? || status.Failed? || status.Cancelled?
  }

  predicate Live(status: RunStatus) {
    status.Running? || status.Waiting?
  }

  function Fresh(queuedAt: int): State {
    State(
      Row(Queued, None, None, queuedAt, None, None, None, None, None, None, None, None, false, 0),
      map[], [])
  }

  /** What is left once every position below `n` without a result has been given one. */
  function Filled(n: nat, results: Results, failFirst: bool): Results {
    results +
    map p: nat | p < n && p !in results ::
      if failFirst && (forall q: nat :: q < p ==> q in results) then StepStatus.Failed else Skipped
  }

  function Ended(interval: Interval, at: int): Interval {
    if interval.endedAt.None? then interval.(endedAt := Some(at)) else interval
  }

  function AllEnded(intervals: seq<Interval>, at: int): seq<Interval> {
    seq(|intervals|, i requires 0 <= i < |intervals| => Ended(intervals[i], at))
  }

  /** `close_waiting_run`. */
  function Closed(n: nat, s: State, at: int, status: RunStatus, reason: Option<FailureReason>,
                  failPaused: bool): State {
    State(
      s.row.(status := status, reason := reason, endedAt := Some(at), holder := None),
      Filled(n, s.results, failPaused),
      AllEnded(s.intervals, at))
  }

  predicate Stale(row: Row, now: int) {
    Live(row.status) && row.heartbeatAt.Some? && row.heartbeatAt.value < now - HEARTBEAT_STALE_AFTER
  }

  predicate Overdue(row: Row, now: int) {
    row.status.Waiting? && row.deadlineAt.Some? && row.deadlineAt.value < now
  }

  /** A Run of a document with `n` Steps, after one more committed transaction. */
  function Apply(n: nat, s: State, e: Event): State {
    var row := s.row;
    match e
    case Claim(worker, at) =>
      if row.status.Queued?
      then s.(row := row.(status := Running, worker := Some(worker), startedAt := Some(at), heartbeatAt := Some(at)))
      else s
    case StartInterval(kind, at) =>
      s.(intervals := s.intervals + [Interval(kind, at, None)])
    case EndInterval(handle, at) =>
      if handle < |s.intervals|
      then s.(intervals := s.intervals[handle := s.intervals[handle].(endedAt := Some(at))])
      else s
    case AddResult(position, result) =>
      if position in s.results then s else s.(results := s.results[position := result])
    case Park(deadlineAt, at) =>
      if row.status.Running?
      then s.(row := row.(status := Waiting, deadlineAt := Some(deadlineAt), pauseRequestedAt := None,
                          handbackRequestedAt := None, autoHandbackDisabled := false, heartbeatAt := Some(at)))
      else s
    case Resume(at) =>
      if row.status.Waiting?
      then s.(row := row.(status := Running, holder := None, handbackRequestedAt := None,
                          autoHandbackDisabled := false, heartbeatAt := Some(at)))
      else s
    case ReleaseHolder(at) =>
      if row.status.Waiting?
      then s.(row := row.(holder := None, handbackRequestedAt := None, autoHandbackDisabled := false,
                          heartbeatAt := Some(at)))
      else s
    case Finish(status, reason, automationMs, at) =>
      if row.status.Running?
      then s.(row := row.(status := status, reason := reason, automationMs := automationMs,
                          heartbeatAt := Some(at), endedAt := Some(at)))
      else s
    case Beat(worker, at) =>
      if Live(row.status) && row.worker.Some?
      then s.(row := row.(heartbeatAt := Some(at), worker := Some(worker)))
      else s
    case Cancel(at) =>
      if row.status.Queued? then s.(row := row.(status := Cancelled, endedAt := Some(at)))
      else if row.status.Waiting? then Closed(n, s, at, Cancelled, None, false)
      else if row.status.Running? && row.cancelRequestedAt.None? then s.(row := row.(cancelRequestedAt := Some(at)))
      else s
    case Pause(at) =>
      if !Terminal(row.status) && row.pauseRequestedAt.None? then s.(row := row.(pauseRequestedAt := Some(at))) else s
    case TakeOver(session) =>
      if row.status.Waiting? && (row.holder.None? || row.holder == Some(session))
      then s.(row := row.(holder := Some(session)))
      else s
    case Hold(session, autoHandback) =>
      if row.status.Waiting? && row.holder == Some(session)
      then s.(row := row.(autoHandbackDisabled := !autoHandback))
      else s
    case HandBack(session, at) =>
      if row.status.Waiting? && row.holder == Some(session) && row.handbackRequestedAt.None?
      then s.(row := row.(handbackRequestedAt := Some(at)))
      else s
    case Abandon(at) =>
      if row.status.Waiting? then Closed(n, s, at, RunStatus.Failed, Some(TakeoverAbandoned), true) else s
    case ReapLost(now) =>
      if Stale(row, now)
      then State(row.(status := RunStatus.Failed, reason := Some(WorkerLost), endedAt := Some(now)),
                 Filled(n, s.results, false), s.intervals)
      else s
    case ReapTakeover(now) =>
      if Overdue(row, now) then Closed(n, s, now, RunStatus.Failed, Some(TakeoverTimeout), true) else s
  }

  function Replay(n: nat, queuedAt: int, h: seq<Event>): State {
    if h == [] then Fresh(queuedAt) else Apply(n, Replay(n, queuedAt, h[..|h| - 1]), h[|h| - 1])
  }

  // ------------------------------------------------------------------ results

  ghost predicate Complete(n: nat, results: Results) {
    forall p: nat :: p in results <==> p < n
  }

  /** Exactly the first `k` positions have a result. */
  ghost predicate PrefixOf(results: Results, k: nat) {
    forall p: nat :: p in results <==> p < k
  }

  ghost predicate NoneFailed(results: Results) {
    forall p: nat :: p in results ==> !results[p].Failed?
  }

  ghost predicate AllSkipped(results: Results) {
    forall p: nat :: p in results ==> results[p].Skipped?
  }

  /** Nothing but Skipped follows a failed Step, so at most one Step failed. */
  ghost predicate FailFast(results: Results) {
    forall p: nat, q: nat :: p in results && q in results && p < q && results[p].Failed? ==> results[q].Skipped?
  }

  /** What the results of an ended Run look like, by how it ended. */
  ghost predicate Shape(status: RunStatus, reason: Option<FailureReason>, results: Results) {
    match status
    case Succeeded => reason.None? && NoneFailed(results)
    case Cancelled => reason.None? && NoneFailed(results)
    case Failed =>
      reason.Some? &&
      (match reason.value
       case RunTimeout => NoneFailed(results)
       case StepFailed => !NoneFailed(results) && FailFast(results)
       case AuthChallenge => !NoneFailed(results) && FailFast(results)
       case MissingSecret => AllSkipped(results)
       case StartupFailed => AllSkipped(results)
       case TakeoverTimeout => FailFast(results)
       case TakeoverAbandoned => FailFast(results)
       case WorkerLost => FailFast(results))
    case _ => false
  }

  // ------------------------------------------------------ the Worker's promise

  /** What the Worker that claimed the Run promises about each of its own transactions.
      Everyone else may do anything at any time. */
  ghost predicate Disciplined(n: nat, s: State, e: Event) {
    match e
    case AddResult(position, result) =>
      position < n &&
      if Terminal(s.row.status) then s.row.startedAt.Some?
      else s.row.status.Running? && PrefixOf(s.results, position) && (!NoneFailed(s.results) ==> result.Skipped?)
    case Park(_, _) => s.row.status.Running? ==> NoneFailed(s.results)
    case Finish(status, reason, _, _) =>
      s.row.status.Running? ==> Complete(n, s.results) && Shape(status, reason, s.results)
    case StartInterval(_, _) => s.row.startedAt.Some?
    case _ => true
  }

  ghost predicate Obeys(n: nat, queuedAt: int, h: seq<Event>) {
    h == [] ||
    (Obeys(n, queuedAt, h[..|h| - 1]) && Disciplined(n, Replay(n, queuedAt, h[..|h| - 1]), h[|h| - 1]))
  }

  // -------------------------------------------------------------- the invariant

  /** The `runs` row on its own. */
  ghost predicate RowInv(row: Row) {
    && (row.status.Queued? || row.status.Running? ==>
          row.holder.None? && row.handbackRequestedAt.None? && !row.autoHandbackDisabled)
    && (row.startedAt.None? ==> row.status.Queued? || row.status.Cancelled?)
    && (row.status.Queued? ==> row.startedAt.None?)
    && (row.startedAt.Some? ==> row.worker.Some? && row.heartbeatAt.Some?)
    && (row.status.Waiting? ==> row.deadlineAt.Some?)
    && (Terminal(row.status) <==> row.endedAt.Some?)
    && (!Terminal(row.status) ==> row.reason.None?)
  }

  /** The results a Run has, by its status. */
  ghost predicate ResultsInv(n: nat, s: State) {
    if s.row.startedAt.None? then s.results == map[] && s.intervals == []
    else if Terminal(s.row.status) then Complete(n, s.results) && Shape(s.row.status, s.row.reason, s.results)
    else
      && (exists k: nat :: k <= n && PrefixOf(s.results, k))
      && FailFast(s.results)
      && (s.row.status.Waiting? ==> NoneFailed(s.results))
  }

  ghost predicate Inv(n: nat, s: State) {
    RowInv(s.row) && ResultsInv(n, s)
  }

  /** Every Step without a result was given one: the first of them failed if asked for, the others skipped. */
  ghost predicate FilledUp(n: nat, before: Results, after: Results, failFirst: bool) {
    && (forall p: nat :: p in after <==> p in before || p < n)
    && (forall p: nat :: p in before ==> after[p] == before[p])
    && forall p: nat :: p < n && p !in before ==>
         after[p] == if failFirst && (forall q: nat :: q < p ==> q in before) then StepStatus.Failed else Skipped
  }

  /** Every open interval was ended, the others kept. */
  ghost predicate AllClosed(before: seq<Interval>, after: seq<Interval>, at: int) {
    && |after| == |before|
    && forall i :: 0 <= i < |before| ==>
         && after[i].kind == before[i].kind && after[i].startedAt == before[i].startedAt
         && after[i].endedAt == if before[i].endedAt.None? then Some(at) else before[i].endedAt
  }

  lemma FilledIsFilledUp(n: nat, results: Results, failFirst: bool)
    ensures FilledUp(n, results, Filled(n, results, failFirst), failFirst)
  {
  }

  function Filler(results: Results, failFirst: bool, p: nat): StepStatus {
    if failFirst && (forall q: nat :: q < p ==> q in results) then StepStatus.Failed else Skipped
  }

  lemma FilledAt(n: nat, results: Results, failFirst: bool, p: nat)
    ensures p in Filled(n, results, failFirst) <==> p in results || p < n
    ensures p in results ==> Filled(n, results, failFirst)[p] == results[p]
    ensures p < n && p !in results ==> Filled(n, results, failFirst)[p] == Filler(results, failFirst, p)
  {
  }

  /** Filling one position more. */
  lemma FilledStep(k: nat, results: Results, failFirst: bool)
    ensures Filled(k + 1, results, failFirst) ==
            if k in results then Filled(k, results, failFirst)
            else Filled(k, results, failFirst)[k := Filler(results, failFirst, k)]
    ensures Filled(0, results, failFirst) == results
  {
    hide Filled, Filler;
    var before, after := Filled(k, results, failFirst), Filled(k + 1, results, failFirst);
    var more := if k in results then before else before[k := Filler(results, failFirst, k)];
    forall p: nat
      ensures p in after <==> p in more
      ensures p in after ==> after[p] == more[p]
    {
      FilledAt(k, results, failFirst, p);
      FilledAt(k + 1, results, failFirst, p);
    }
    assert after == more;
    forall p: nat
      ensures p in Filled(0, results, failFirst) <==> p in results
      ensures p in results ==> Filled(0, results, failFirst)[p] == results[p]
    {
      FilledAt(0, results, failFirst, p);
    }
    assert Filled(0, results, failFirst) == results;
  }

  lemma FilledCompletes(n: nat, results: Results, failFirst: bool, k: nat)
    requires PrefixOf(results, k) && k <= n
    ensures Complete(n, Filled(n, results, failFirst))
    ensures forall p: nat :: p < k ==> Filled(n, results, failFirst)[p] == results[p]
    ensures forall p: nat :: k <= p < n ==>
              Filled(n, results, failFirst)[p] == if failFirst && p == k then StepStatus.Failed else Skipped
  {
    forall p: nat | k <= p < n
      ensures Filled(n, results, failFirst)[p] == if failFirst && p == k then StepStatus.Failed else Skipped
    {
      assert k !in results;
      assert (forall q: nat :: q < p ==> q in results) <==> p == k;
    }
  }

  /** Ending a live Run from outside leaves one result per Step. */
  lemma FilledHasShape(n: nat, s: State, failFirst: bool)
    requires Inv(n, s) && Live(s.row.status)
    ensures Complete(n, Filled(n, s.results, failFirst))
    ensures NoneFailed(s.results) || !failFirst ==> FailFast(Filled(n, s.results, failFirst))
    ensures NoneFailed(s.results) && !failFirst ==> NoneFailed(Filled(n, s.results, failFirst))
  {
    var k: nat :| k <= n && PrefixOf(s.results, k);
    FilledCompletes(n, s.results, failFirst, k);
  }

  lemma AddResultKeepsInv(n: nat, s: State, position: nat, result: StepStatus)
    requires Inv(n, s) && Disciplined(n, s, AddResult(position, result))
    ensures Inv(n, Apply(n, s, AddResult(position, result)))
  {
    if !Terminal(s.row.status) {
      assert PrefixOf(s.results[position := result], position + 1);
    }
  }

  lemma RowKeepsInv(n: nat, s: State, e: Event)
    requires Inv(n, s) && Disciplined(n, s, e)
    ensures RowInv(Apply(n, s, e).row)
  {
    hide ResultsInv, Complete, PrefixOf, NoneFailed, FailFast, Filled, AllEnded;
  }

  /** A step that leaves the results alone and does not end a live Run. */
  lemma SameResultsKeepInv(n: nat, s: State, e: Event)
    requires Inv(n, s) && Disciplined(n, s, e) && !e.AddResult?
    requires Live(s.row.status) && Terminal(Apply(n, s, e).row.status) ==> e.Finish?
    ensures ResultsInv(n, Apply(n, s, e))
  {
    var t := Apply(n, s, e);
    assert t.results == s.results;
    assert e.Claim? && s.row.status.Queued? ==> PrefixOf(t.results, 0);
  }

  lemma EndingKeepsInv(n: nat, s: State, e: Event)
    requires Inv(n, s) && Live(s.row.status) && Terminal(Apply(n, s, e).row.status) && !FromWorker(e)
    ensures ResultsInv(n, Apply(n, s, e))
  {
    hide Filled, Complete, PrefixOf, NoneFailed, FailFast, AllEnded;
    FilledHasShape(n, s, true);
    FilledHasShape(n, s, false);
  }

  lemma ApplyKeepsInv(n: nat, s: State, e: Event)
    requires Inv(n, s) && Disciplined(n, s, e)
    ensures Inv(n, Apply(n, s, e))
  {
    hide Apply, Disciplined, RowInv, ResultsInv;
    RowKeepsInv(n, s, e);
    if e.AddResult? {
      AddResultKeepsInv(n, s, e.position, e.result);
    } else if Live(s.row.status) && Terminal(Apply(n, s, e).row.status) && !e.Finish? {
      EndsFromOutside(n, s, e);
      EndingKeepsInv(n, s, e);
    } else {
      SameResultsKeepInv(n, s, e);
    }
  }

  lemma EndsFromOutside(n: nat, s: State, e: Event)
    requires Live(s.row.status) && Terminal(Apply(n, s, e).row.status) && !e.Finish?
    ensures !FromWorker(e)
  {
  }

  /** Whatever the API, the minute loop and other Workers do in between, a Run whose
      Worker keeps its promise always satisfies the invariant. */
  lemma {:induction false} EveryHistoryKeepsInv(n: nat, queuedAt: int, h: seq<Event>)
    requires Obeys(n, queuedAt, h)
    ensures Inv(n, Replay(n, queuedAt, h))
  {
    if h != [] {
      EveryHistoryKeepsInv(n, queuedAt, h[..|h| - 1]);
      ApplyKeepsInv(n, Replay(n, queuedAt, h[..|h| - 1]), h[|h| - 1]);
    }
  }

  // ------------------------------------------------------ facts of whole histories

  /** The Run after the first `i` transactions. */
  function At(n: nat, queuedAt: int, h: seq<Event>, i: nat): State
    requires i <= |h|
  {
    Replay(n, queuedAt, h[..i])
  }

  lemma Next(n: nat, queuedAt: int, h: seq<Event>, i: nat)
    requires i < |h|
    ensures At(n, queuedAt, h, i + 1) == Apply(n, At(n, queuedAt, h, i), h[i])
  {
    assert h[..i + 1][..i] == h[..i];
  }

  lemma {:induction false} PrefixObeys(n: nat, queuedAt: int, h: seq<Event>, i: nat)
    requires Obeys(n, queuedAt, h) && i <= |h|
    ensures Obeys(n, queuedAt, h[..i])
    ensures i < |h| ==> Disciplined(n, At(n, queuedAt, h, i), h[i])
  {
    if i == |h| {
      assert h[..i] == h;
    } else {
      var shorter := h[..|h| - 1];
      if i < |shorter| {
        assert shorter[..i] == h[..i] && shorter[i] == h[i];
      } else {
        assert h[..i] == shorter;
      }
      PrefixObeys(n, queuedAt, shorter, i);
      assert shorter[..i] == h[..i];
    }
  }

  /** Main result: at every moment of every interleaving, a Run that was claimed and has
      ended has exactly one result for each Step, shaped as its outcome says; and a Run
      nobody is driving has no holder, no pending hand-back and automatic hand-back on. */
  lemma EndedRunIsComplete(n: nat, queuedAt: int, h: seq<Event>, i: nat)
    requires Obeys(n, queuedAt, h) && i <= |h|
    ensures var s := At(n, queuedAt, h, i);
            && (Terminal(s.row.status) && s.row.startedAt.Some? ==>
                  Complete(n, s.results) && Shape(s.row.status, s.row.reason, s.results))
            && (s.row.startedAt.None? ==> s.results == map[])
            && (s.row.status.Queued? || s.row.status.Running? ==>
                  s.row.holder.None? && s.row.handbackRequestedAt.None? && !s.row.autoHandbackDisabled)
  {
    PrefixObeys(n, queuedAt, h, i);
    EveryHistoryKeepsInv(n, queuedAt, h[..i]);
  }

  lemma TerminalStays(n: nat, s: State, e: Event)
    requires Inv(n, s) && Disciplined(n, s, e) && Terminal(s.row.status)
    ensures Apply(n, s, e).row == s.row && Apply(n, s, e).results == s.results
  {
  }

  /** Once a Run has ended nothing changes its row or its results again. */
  lemma {:induction false} EndIsFinal(n: nat, queuedAt: int, h: seq<Event>, i: nat, j: nat)
    requires Obeys(n, queuedAt, h) && i <= j <= |h|
    requires Terminal(At(n, queuedAt, h, i).row.status)
    ensures At(n, queuedAt, h, j).row == At(n, queuedAt, h, i).row
    ensures At(n, queuedAt, h, j).results == At(n, queuedAt, h, i).results
    decreases j
  {
    hide Apply, Replay, Obeys, Inv, Disciplined;
    if i < j {
      EndIsFinal(n, queuedAt, h, i, j - 1);
      Next(n, queuedAt, h, j - 1);
      PrefixObeys(n, queuedAt, h, j - 1);
      EveryHistoryKeepsInv(n, queuedAt, h[..j - 1]);
      TerminalStays(n, At(n, queuedAt, h, j - 1), h[j - 1]);
    }
  }

  /** The `i`th transaction is a claim that the guard let through. */
  predicate Wins(n: nat, queuedAt: int, h: seq<Event>, i: nat)
    requires i < |h|
  {
    h[i].Claim? && At(n, queuedAt, h, i).row.status.Queued?
  }

  lemma NobodyRequeues(n: nat, s: State, e: Event)
    requires Disciplined(n, s, e) && !s.row.status.Queued?
    ensures !Apply(n, s, e).row.status.Queued?
  {
  }

  lemma {:induction false} NeverQueuedAgain(n: nat, queuedAt: int, h: seq<Event>, i: nat, j: nat)
    requires Obeys(n, queuedAt, h)
    requires i <= j <= |h| && !At(n, queuedAt, h, i).row.status.Queued?
    ensures !At(n, queuedAt, h, j).row.status.Queued?
    decreases j
  {
    if i < j {
      NeverQueuedAgain(n, queuedAt, h, i, j - 1);
      Next(n, queuedAt, h, j - 1);
      PrefixObeys(n, queuedAt, h, j - 1);
      NobodyRequeues(n, At(n, queuedAt, h, j - 1), h[j - 1]);
    }
  }

  /** However often a Run's id is dispatched, and to however many Workers, one claim wins. */
  lemma ClaimedAtMostOnce(n: nat, queuedAt: int, h: seq<Event>, i: nat, j: nat)
    requires Obeys(n, queuedAt, h)
    requires i < j < |h| && Wins(n, queuedAt, h, i)
    ensures !Wins(n, queuedAt, h, j)
  {
    Next(n, queuedAt, h, i);
    NeverQueuedAgain(n, queuedAt, h, i + 1, j);
  }

  lemma HolderStays(n: nat, s: State, e: Event)
    ensures var t := Apply(n, s, e);
            s.row.holder.Some? && t.row.holder.Some? ==> t.row.holder == s.row.holder
  {
  }

  /** Control passes from one session to another only through a moment without a holder. */
  lemma {:induction false} HandOverThroughNobody(n: nat, queuedAt: int, h: seq<Event>, i: nat, j: nat)
    requires i <= j <= |h|
    requires At(n, queuedAt, h, i).row.holder.Some? && At(n, queuedAt, h, j).row.holder.Some?
    requires At(n, queuedAt, h, i).row.holder != At(n, queuedAt, h, j).row.holder
    ensures exists k :: i < k < j && At(n, queuedAt, h, k).row.holder.None?
    decreases j
  {
    hide Apply, Replay;
    if i < j {
      Next(n, queuedAt, h, j - 1);
      HolderStays(n, At(n, queuedAt, h, j - 1), h[j - 1]);
      var before := At(n, queuedAt, h, j - 1).row.holder;
      if before.Some? {
        assert before == At(n, queuedAt, h, j).row.holder;
        HandOverThroughNobody(n, queuedAt, h, i, j - 1);
      }
    }
  }

  // ------------------------------------------------------ who is reaped

  /** A live Run is failed as lost if and only if its heartbeat is more than ninety seconds old. */
  lemma LostExactly(n: nat, s: State, now: int)
    requires (s.row.status.Running? || s.row.status.Waiting?) && s.row.heartbeatAt.Some?
    ensures Terminal(Apply(n, s, ReapLost(now)).row.status) <==> now - s.row.heartbeatAt.value > 90_000_000
    ensures Terminal(Apply(n, s, ReapLost(now)).row.status) ==>
              Apply(n, s, ReapLost(now)).row.reason == Some(WorkerLost)
  {
  }

  /** A waiting Run is closed if and only if its deadline has passed. */
  lemma OverdueExactly(n: nat, s: State, now: int)
    requires s.row.status.Waiting? && s.row.deadlineAt.Some?
    ensures Terminal(Apply(n, s, ReapTakeover(now)).row.status) <==> s.row.deadlineAt.value < now
    ensures Terminal(Apply(n, s, ReapTakeover(now)).row.status) ==>
              Apply(n, s, ReapTakeover(now)).row.reason == Some(TakeoverTimeout)
  {
  }

  /** The instant a transaction may write as the Run's heartbeat. */
  function Stamp(e: Event): Option<int> {
    match e
    case Claim(_, at) => Some(at)
    case Park(_, at) => Some(at)
    case Resume(at) => Some(at)
    case ReleaseHolder(at) => Some(at)
    case Finish(_, _, _, at) => Some(at)
    case Beat(_, at) => Some(at)
    case _ => None
  }

  /** A claimed Run, if it is live, has a heartbeat no older than this, or exactly this one. */
  predicate BeatenSince(row: Row, at: int, only: bool) {
    && !row.status.Queued?
    && (Live(row.status) ==> row.heartbeatAt.Some? && row.heartbeatAt.value >= at)
    && (Live(row.status) && only ==> row.heartbeatAt == Some(at))
  }

  lemma HeartbeatStep(n: nat, s: State, e: Event, at: int, only: bool)
    requires Disciplined(n, s, e) && (Stamp(e).Some? ==> Stamp(e).value >= at) && BeatenSince(s.row, at, only)
    ensures BeatenSince(Apply(n, s, e).row, at, only && Stamp(e).None?)
  {
    hide Filled, Complete, PrefixOf, NoneFailed, FailFast, AllSkipped;
  }

  lemma BeatStamps(n: nat, s: State, e: Event)
    requires e.Beat? && (s.row.status.Running? || s.row.status.Waiting?) && s.row.worker.Some?
    ensures BeatenSince(Apply(n, s, e).row, e.at, true)
  {
  }

  /** A heartbeat was accepted as the `i`th transaction. */
  predicate Beats(n: nat, queuedAt: int, h: seq<Event>, i: nat)
    requires i < |h|
  {
    var row := At(n, queuedAt, h, i).row;
    h[i].Beat? && (row.status.Running? || row.status.Waiting?) && row.worker.Some?
  }

  /** Between two transactions every heartbeat written is at least this late. */
  ghost predicate StampsFrom(h: seq<Event>, i: nat, j: nat, at: int) {
    forall k :: i < k < j && k < |h| && Stamp(h[k]).Some? ==> Stamp(h[k]).value >= at
  }

  ghost predicate NoStamps(h: seq<Event>, i: nat, j: nat) {
    forall k :: i < k < j && k < |h| ==> Stamp(h[k]).None?
  }

  lemma OneStampMore(h: seq<Event>, i: nat, j: nat, at: int)
    requires i + 1 < j <= |h| && StampsFrom(h, i, j, at)
    ensures StampsFrom(h, i, j - 1, at) && (Stamp(h[j - 1]).Some? ==> Stamp(h[j - 1]).value >= at)
    ensures NoStamps(h, i, j) <==> NoStamps(h, i, j - 1) && Stamp(h[j - 1]).None?
  {
    hide Stamp;
  }

  lemma NoneBetween(h: seq<Event>, i: nat)
    ensures NoStamps(h, i, i + 1)
  {
  }

  lemma {:induction false} HeartbeatSince(n: nat, queuedAt: int, h: seq<Event>, i: nat, j: nat)
    requires Obeys(n, queuedAt, h) && i < j <= |h| && Beats(n, queuedAt, h, i) && StampsFrom(h, i, j, h[i].at)
    ensures BeatenSince(At(n, queuedAt, h, j).row, h[i].at, NoStamps(h, i, j))
    decreases j
  {
    hide Apply, Obeys, Disciplined, At, BeatenSince, Stamp, StampsFrom, NoStamps;
    if i + 1 == j {
      Next(n, queuedAt, h, i);
      NoneBetween(h, i);
      BeatStamps(n, At(n, queuedAt, h, i), h[i]);
    } else {
      hide Beats;
      Next(n, queuedAt, h, j - 1);
      OneStampMore(h, i, j, h[i].at);
      HeartbeatSince(n, queuedAt, h, i, j - 1);
      PrefixObeys(n, queuedAt, h, j - 1);
      HeartbeatStep(n, At(n, queuedAt, h, j - 1), h[j - 1], h[i].at, NoStamps(h, i, j - 1));
    }
  }

  /** Main result, over every interleaving: after an accepted heartbeat no reaping within ninety seconds
      ends the Run, unless its heartbeat was set back; and if nothing wrote a heartbeat since, a live Run
      is ended exactly by the reapings after that. */
  lemma HeartbeatDecides(n: nat, queuedAt: int, h: seq<Event>, i: nat, j: nat)
    requires Obeys(n, queuedAt, h) && i < j < |h| && Beats(n, queuedAt, h, i) && StampsFrom(h, i, j, h[i].at)
    requires h[j].ReapLost? && Live(At(n, queuedAt, h, j).row.status)
    ensures h[j].now <= h[i].at + 90_000_000 ==> At(n, queuedAt, h, j + 1) == At(n, queuedAt, h, j)
    ensures NoStamps(h, i, j) ==>
              (Terminal(At(n, queuedAt, h, j + 1).row.status) <==> h[j].now > h[i].at + 90_000_000)
  {
    HeartbeatSince(n, queuedAt, h, i, j);
    Next(n, queuedAt, h, j);
    hide At, Obeys;
  }

  // ------------------------------------------------------ how a takeover closes

  /** A takeover that times out or is abandoned fails the first Step without a result and
      skips the rest; it fails no Step exactly when every Step already had a result, which
      is what a pause honoured after the last Step leaves. */
  lemma ClosedTakeoverFailsFirstUnreached(n: nat, s: State, e: Event)
    requires Inv(n, s) && s.row.status.Waiting?
    requires e.Abandon? || (e.ReapTakeover? && Overdue(s.row, e.now))
    ensures var t := Apply(n, s, e);
            && Terminal(t.row.status)
            && (NoneFailed(t.results) <==> Complete(n, s.results))
            && (forall p: nat :: p in s.results ==>
                  p in t.results && t.results[p] == s.results[p] && !t.results[p].Failed?)
            && (forall p: nat :: p < n && p !in s.results ==>
                  (t.results[p].Failed? <==> forall q: nat :: q < p ==> q in s.results) && !t.results[p].Passed?)
  {
    assert Apply(n, s, e).results == Filled(n, s.results, true) && Terminal(Apply(n, s, e).row.status);
    var k: nat :| k <= n && PrefixOf(s.results, k);
    assert NoneFailed(s.results);
    hide Apply, Inv;
    FilledCompletes(n, s.results, true, k);
    FilledAfterPrefix(n, s.results, k, Filled(n, s.results, true));
  }

  lemma FilledAfterPrefix(n: nat, before: Results, k: nat, after: Results)
    requires k <= n && PrefixOf(before, k) && Complete(n, after) && NoneFailed(before)
    requires forall p: nat :: p < k ==> after[p] == before[p]
    requires forall p: nat :: k <= p < n ==> after[p] == if p == k then StepStatus.Failed else Skipped
    ensures NoneFailed(after) <==> Complete(n, before)
    ensures forall p: nat :: p in before ==> p in after && after[p] == before[p] && !after[p].Failed?
    ensures forall p: nat :: p < n && p !in before ==>
              (after[p].Failed? <==> forall q: nat :: q < p ==> q in before) && !after[p].Passed?
  {
    assert Complete(n, before) <==> k == n by {
      assert k < n ==> k !in before;
    }
    if k < n {
      assert after[k].Failed?;
    }
    forall p: nat | p < n && p !in before
      ensures (forall q: nat :: q < p ==> q in before) <==> p == k
    {
      assert k !in before;
    }
  }

  /** It happens: the only Step passes, a pause is honoured after it, and the takeover is abandoned. */
  lemma AbandonedAfterLastStep() returns (h: seq<Event>)
    ensures Obeys(1, 0, h)
    ensures var s := Replay(1, 0, h);
            && s.row.status.Failed? && s.row.reason == Some(TakeoverAbandoned)
            && Complete(1, s.results) && NoneFailed(s.results)
  {
    var h1 := [Claim("w", 1)];
    var h2 := h1 + [AddResult(0, Passed)];
    var h3 := h2 + [Park(8, 3)];
    h := h3 + [Abandon(4)];
    assert h1[..0] == [] && h2[..1] == h1 && h3[..2] == h2 && h[..3] == h3;
    assert Obeys(1, 0, h1);
    var s1 := Replay(1, 0, h1);
    assert PrefixOf(s1.results, 0) && s1.row.status.Running?;
    assert Obeys(1, 0, h2);
    var s2 := Replay(1, 0, h2);
    assert s2.results == map[0 := StepStatus.Passed];
    assert Obeys(1, 0, h3);
    var s3 := Replay(1, 0, h3);
    assert s3.results == s2.results && s3.row.status.Waiting?;
    assert Replay(1, 0, h) == Closed(1, s3, 4, RunStatus.Failed, Some(TakeoverAbandoned), true);
    assert Replay(1, 0, h).results == s2.results;
  }

  /** Of the ways to end a live Run from outside, only a lost Worker leaves an interval open. */
  lemma OnlyLostWorkerLeavesIntervalOpen(n: nat, s: State, e: Event)
    requires Live(s.row.status) && Terminal(Apply(n, s, e).row.status) && !FromWorker(e)
    ensures (exists i :: 0 <= i < |Apply(n, s, e).intervals| && Apply(n, s, e).intervals[i].endedAt.None?) <==>
            e.ReapLost? && (exists i :: 0 <= i < |s.intervals| && s.intervals[i].endedAt.None?)
  {
    var t := Apply(n, s, e);
    if e.ReapLost? {
      assert t.intervals == s.intervals;
    } else {
      forall i | 0 <= i < |t.intervals|
        ensures t.intervals[i].endedAt.Some?
      {
        assert t.intervals[i] == Ended(s.intervals[i], t.row.endedAt.value);
      }
    }
  }
}
