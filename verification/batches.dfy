/**
 One Batch: its rows, the Runs started for them and the steps that move it on
 (`batches/advance.py`, `batches/routes.py`).  Runs are listed in the order they
 were enqueued, so the latest Run of a row is the last one listed for it.
 Between any two steps a Run may change its status on its own.
 */
module Batches {
  import opened Wrappers
  import opened RunProtocol

  datatype RowStatus = RowQueued | RowRunning | RowSucceeded | RowFailed | RowSkipped | RowCancelled

  datatype BatchRun = BatchRun(row: nat, status: RunStatus, cancelRequested: bool)

  datatype RowEvent = RowEvent(index: nat, status: RowStatus, run: Option<nat>)

  /** Rows, Runs, whether the Batch was cancelled. */
  datatype Batch = Batch(rows: seq<RowStatus>, runs: seq<BatchRun>, cancelled: bool)

  predicate Open(run: BatchRun) {
    !Terminal(run.status)
  }

  /** `latest_run`. */
  function LatestRun(runs: seq<BatchRun>, row: nat): (latest: Option<nat>)
    ensures latest.Some? ==> latest.value < |runs| && runs[latest.value].row == row
    ensures latest.Some? ==> forall k :: latest.value < k < |runs| ==> runs[k].row != row
    ensures latest.None? ==> forall k :: 0 <= k < |runs| ==> runs[k].row != row
  {
    if runs == [] then None
    else if runs[|runs| - 1].row == row then Some(|runs| - 1)
    else LatestRun(runs[..|runs| - 1], row)
  }

  /** `open_run_id`, as far as the scheduler looks at it. */
  predicate AnyOpen(runs: seq<BatchRun>) {
    exists k :: 0 <= k < |runs| && Open(runs[k])
  }

  /** The first queued row, or the number of rows. */
  function FirstQueued(rows: seq<RowStatus>): nat {
    if rows == [] then 0
    else if rows[0].RowQueued? then 0
    else 1 + FirstQueued(rows[1..])
  }

  /** `status_from_run`. */
  function StatusFromRun(status: RunStatus, current: RowStatus): RowStatus {
    if current.RowSkipped? then current
    else match status
      case Succeeded => RowSucceeded
      case Failed => RowFailed
      case Cancelled => RowCancelled
      case _ => current
  }

  /** What `reflect_running_rows` makes of row `i`. */
  function ReflectedRow(rows: seq<RowStatus>, runs: seq<BatchRun>, i: nat): RowStatus
    requires i < |rows|
  {
    var latest := LatestRun(runs, i);
    if rows[i].RowRunning? && latest.Some? && !Open(runs[latest.value])
    then StatusFromRun(runs[latest.value].status, rows[i])
    else rows[i]
  }

  function Reflect(s: Batch): Batch {
    s.(rows := seq(|s.rows|, i requires 0 <= i < |s.rows| => ReflectedRow(s.rows, s.runs, i)))
  }

  predicate MayStart(s: Batch, published: bool) {
    !s.cancelled && !AnyOpen(s.runs) && FirstQueued(s.rows) < |s.rows| && published
  }

  /** `enqueue_row` and marking the row as running. */
  function Enqueued(s: Batch, i: nat): Batch
    requires i < |s.rows|
  {
    s.(rows := s.rows[i := RowRunning], runs := s.runs + [BatchRun(i, Queued, false)])
  }

  function StartNext(s: Batch, published: bool): Batch {
    if MayStart(s, published) then Enqueued(s, FirstQueued(s.rows)) else s
  }

  function Advance(s: Batch, published: bool): Batch {
    StartNext(Reflect(s), published)
  }

  /** What cancelling the Batch does to one Run that is the latest of a running row. */
  function CancelledRun(run: BatchRun): BatchRun {
    match run.status
    case Queued => run.(status := Cancelled)
    case Waiting => run.(status := Cancelled)
    case Running => run.(cancelRequested := true)
    case _ => run
  }

  function CancelRuns(rows: seq<RowStatus>, runs: seq<BatchRun>): seq<BatchRun> {
    seq(|runs|, k requires 0 <= k < |runs| =>
      if runs[k].row < |rows| && rows[runs[k].row].RowRunning? && LatestRun(runs, runs[k].row) == Some(k)
      then CancelledRun(runs[k]) else runs[k])
  }

  function CancelledRow(rows: seq<RowStatus>, runs: seq<BatchRun>, i: nat): RowStatus
    requires i < |rows|
  {
    var latest := LatestRun(runs, i);
    if rows[i].RowQueued? then RowCancelled
    else if rows[i].RowRunning? && (latest.None? || !Open(CancelledRun(runs[latest.value]))) then RowCancelled
    else rows[i]
  }

  function CancelBatch(s: Batch): Batch {
    Batch(seq(|s.rows|, i requires 0 <= i < |s.rows| => CancelledRow(s.rows, s.runs, i)),
          CancelRuns(s.rows, s.runs), true)
  }

  predicate MaySkip(s: Batch, i: nat) {
    i < |s.rows| && LatestRun(s.runs, i).Some? && s.runs[LatestRun(s.runs, i).value].status.Waiting?
  }

  function Skip(s: Batch, i: nat, published: bool): Batch {
    if MaySkip(s, i) then
      var k := LatestRun(s.runs, i).value;
      StartNext(s.(runs := s.runs[k := s.runs[k].(status := Cancelled)], rows := s.rows[i := RowSkipped]), published)
    else s
  }

  predicate MayRerun(s: Batch, i: nat, published: bool) {
    i < |s.rows| && (s.rows[i].RowFailed? || s.rows[i].RowSkipped?) && !AnyOpen(s.runs) && published
  }

  function Rerun(s: Batch, i: nat, published: bool): Batch {
    if MayRerun(s, i, published) then Enqueued(s, i) else s
  }

  function Create(incomplete: seq<bool>, runIncomplete: bool, published: bool): Batch {
    StartNext(
      Batch(seq(|incomplete|, i requires 0 <= i < |incomplete| =>
              if runIncomplete || !incomplete[i] then RowQueued else RowSkipped),
            [], false),
      published)
  }

  /** A Run moves on by itself: claimed, parked, resumed or ended, but never out of a final status. */
  function Move(s: Batch, k: nat, status: RunStatus): Batch {
    if k < |s.runs| && Open(s.runs[k]) then s.(runs := s.runs[k := s.runs[k].(status := status)]) else s
  }

  // -------------------------------------------------------------- the invariant

  /** A row that says how it ended says what its latest Run says. */
  ghost predicate RowAgrees(s: Batch, i: nat)
    requires i < |s.rows|
  {
    var latest := LatestRun(s.runs, i);
    match s.rows[i]
    case RowQueued => latest.None?
    case RowRunning => latest.Some?
    case RowSucceeded => latest.Some? && s.runs[latest.value].status.Succeeded?
    case RowFailed => latest.Some? && s.runs[latest.value].status.Failed?
    case RowSkipped => latest.Some? ==> s.runs[latest.value].status.Cancelled?
    case RowCancelled => latest.Some? ==> !Open(s.runs[latest.value])
  }

  ghost predicate Inv(s: Batch) {
    && (forall k :: 0 <= k < |s.runs| ==> s.runs[k].row < |s.rows|)
    && (forall i :: 0 <= i < |s.rows| ==> RowAgrees(s, i))
    // at most one open Run, and it is the latest of a row marked running
    && (forall k, l :: 0 <= k < l < |s.runs| ==> !(Open(s.runs[k]) && Open(s.runs[l])))
    && (forall k :: 0 <= k < |s.runs| && Open(s.runs[k]) ==>
          s.rows[s.runs[k].row].RowRunning? && LatestRun(s.runs, s.runs[k].row) == Some(k))
  }

  /** Only which rows the Runs belong to decides which Run is the latest. */
  lemma {:induction false} LatestIgnoresStatus(a: seq<BatchRun>, b: seq<BatchRun>, row: nat)
    requires |a| == |b| && forall k :: 0 <= k < |a| ==> a[k].row == b[k].row
    ensures LatestRun(a, row) == LatestRun(b, row)
  {
    if a != [] && a[|a| - 1].row != row {
      LatestIgnoresStatus(a[..|a| - 1], b[..|b| - 1], row);
    }
  }

  lemma LatestAfterEnqueue(runs: seq<BatchRun>, run: BatchRun, row: nat)
    ensures LatestRun(runs + [run], row) == if run.row == row then Some(|runs|) else LatestRun(runs, row)
  {
    var more := runs + [run];
    assert more[..|more| - 1] == runs;
  }

  lemma {:induction false} FirstQueuedIsFirst(rows: seq<RowStatus>)
    ensures var i := FirstQueued(rows);
            && i <= |rows| && (i < |rows| ==> rows[i].RowQueued?)
            && forall j :: 0 <= j < i ==> !rows[j].RowQueued?
  {
    if rows != [] && !rows[0].RowQueued? {
      FirstQueuedIsFirst(rows[1..]);
      var i := FirstQueued(rows[1..]);
      forall j | 0 <= j < i + 1
        ensures !rows[j].RowQueued?
      {
        assert j > 0 ==> !rows[1..][j - 1].RowQueued?;
      }
    }
  }

  /** Runs that changed only in their status keep their places. */
  lemma SameLatest(a: seq<BatchRun>, b: seq<BatchRun>)
    requires |a| == |b| && forall k :: 0 <= k < |a| ==> a[k].row == b[k].row
    ensures forall i: nat :: LatestRun(a, i) == LatestRun(b, i)
  {
    forall i: nat
      ensures LatestRun(a, i) == LatestRun(b, i)
    {
      LatestIgnoresStatus(a, b, i);
    }
  }

  lemma ReflectKeepsInv(s: Batch)
    requires Inv(s)
    ensures Inv(Reflect(s))
  {
    var t := Reflect(s);
    forall i | 0 <= i < |t.rows|
      ensures RowAgrees(t, i)
    {
      assert RowAgrees(s, i);
    }
    forall k | 0 <= k < |t.runs| && Open(t.runs[k])
      ensures t.rows[t.runs[k].row].RowRunning?
    {
      assert LatestRun(s.runs, s.runs[k].row) == Some(k);
    }
  }

  lemma EnqueueKeepsInv(s: Batch, i: nat)
    requires Inv(s) && i < |s.rows| && !AnyOpen(s.runs)
    ensures Inv(Enqueued(s, i))
  {
    var t := Enqueued(s, i);
    forall j: nat
      ensures LatestRun(t.runs, j) == if i == j then Some(|s.runs|) else LatestRun(s.runs, j)
    {
      LatestAfterEnqueue(s.runs, BatchRun(i, Queued, false), j);
    }
    forall j | 0 <= j < |t.rows|
      ensures RowAgrees(t, j)
    {
      assert RowAgrees(s, j);
    }
  }

  lemma StartNextKeepsInv(s: Batch, published: bool)
    requires Inv(s)
    ensures Inv(StartNext(s, published))
  {
    if MayStart(s, published) {
      EnqueueKeepsInv(s, FirstQueued(s.rows));
    }
  }

  lemma CancelledRowAgrees(s: Batch, i: nat)
    requires Inv(s) && i < |s.rows|
    ensures RowAgrees(CancelBatch(s), i)
  {
    hide LatestRun;
    var t := CancelBatch(s);
    LatestIgnoresStatus(s.runs, t.runs, i);
    assert RowAgrees(s, i);
    var latest := LatestRun(s.runs, i);
    if latest.Some? {
      assert Open(s.runs[latest.value]) ==> s.rows[i].RowRunning?;
    }
  }

  /** A Run that cancelling leaves open was open before and its row goes on running. */
  lemma StillOpen(s: Batch, k: nat)
    requires Inv(s) && k < |s.runs| && Open(CancelBatch(s).runs[k])
    ensures Open(s.runs[k]) && CancelBatch(s).rows[s.runs[k].row].RowRunning?
  {
    var i := s.runs[k].row;
    assert Open(s.runs[k]);
    assert LatestRun(s.runs, i) == Some(k);
  }

  lemma CancelledRuns(s: Batch)
    ensures var t := CancelBatch(s);
            && |t.rows| == |s.rows| && |t.runs| == |s.runs|
            && forall k :: 0 <= k < |s.runs| ==>
                 t.runs[k].row == s.runs[k].row && (Open(t.runs[k]) ==> Open(s.runs[k]))
  {
    assert forall run :: CancelledRun(run).row == run.row && (Open(CancelledRun(run)) ==> Open(run));
    hide CancelledRun, LatestRun, CancelledRow;
  }

  lemma CancelKeepsInv(s: Batch)
    requires Inv(s)
    ensures Inv(CancelBatch(s))
  {
    var t := CancelBatch(s);
    CancelledRuns(s);
    SameLatest(s.runs, t.runs);
    hide RowAgrees, LatestRun, CancelBatch;
    forall i | 0 <= i < |t.rows|
      ensures RowAgrees(t, i)
    {
      CancelledRowAgrees(s, i);
    }
    forall k | 0 <= k < |t.runs| && Open(t.runs[k])
      ensures t.rows[t.runs[k].row].RowRunning? && LatestRun(t.runs, t.runs[k].row) == Some(k)
    {
      StillOpen(s, k);
    }
  }

  lemma SkipKeepsInv(s: Batch, i: nat, published: bool)
    requires Inv(s)
    ensures Inv(Skip(s, i, published))
  {
    if MaySkip(s, i) {
      var k := LatestRun(s.runs, i).value;
      var t := s.(runs := s.runs[k := s.runs[k].(status := Cancelled)], rows := s.rows[i := RowSkipped]);
      SameLatest(s.runs, t.runs);
      forall j | 0 <= j < |t.rows|
        ensures RowAgrees(t, j)
      {
        assert RowAgrees(s, j);
      }
      StartNextKeepsInv(t, published);
    }
  }

  lemma MoveKeepsInv(s: Batch, k: nat, status: RunStatus)
    requires Inv(s)
    ensures Inv(Move(s, k, status))
  {
    var t := Move(s, k, status);
    SameLatest(s.runs, t.runs);
    forall j | 0 <= j < |t.rows|
      ensures RowAgrees(t, j)
    {
      assert RowAgrees(s, j);
    }
  }

  // ------------------------------------------------------ facts of whole histories

  /** One committed step.  `published` says whether the Workflow has a published Version then. */
  datatype Step =
    | Tick(published: bool)              // the minute loop or a terminal message
    | CancelAll
    | SkipRow(index: nat, published: bool)
    | RerunRow(index: nat, published: bool)
    | RunMoves(run: nat, status: RunStatus)

  function Apply(s: Batch, step: Step): Batch {
    match step
    case Tick(published) => Advance(s, published)
    case CancelAll => CancelBatch(s)
    case SkipRow(index, published) => Skip(s, index, published)
    case RerunRow(index, published) => Rerun(s, index, published)
    case RunMoves(run, status) => Move(s, run, status)
  }

  function Replay(start: Batch, h: seq<Step>): Batch {
    if h == [] then start else Apply(Replay(start, h[..|h| - 1]), h[|h| - 1])
  }

  lemma ApplyKeepsInv(s: Batch, step: Step)
    requires Inv(s)
    ensures Inv(Apply(s, step))
  {
    match step
    case Tick(published) =>
      ReflectKeepsInv(s);
      StartNextKeepsInv(Reflect(s), published);
    case CancelAll => CancelKeepsInv(s);
    case SkipRow(index, published) => SkipKeepsInv(s, index, published);
    case RerunRow(index, published) =>
      if MayRerun(s, index, published) {
        EnqueueKeepsInv(s, index);
      }
    case RunMoves(run, status) => MoveKeepsInv(s, run, status);
  }

  lemma CreateKeepsInv(incomplete: seq<bool>, runIncomplete: bool, published: bool)
    ensures Inv(Create(incomplete, runIncomplete, published))
  {
    var s := Batch(seq(|incomplete|, i requires 0 <= i < |incomplete| =>
                     if runIncomplete || !incomplete[i] then RowQueued else RowSkipped), [], false);
    assert Inv(s);
    StartNextKeepsInv(s, published);
  }

  /** Main result: however ticks, messages, cancelling, skipping, re-running and the Runs' own
      progress interleave, at most one Run of the Batch is open, it is the latest Run of a row
      marked running, and every row that says how it ended agrees with its latest Run. */
  lemma {:induction false} EveryHistoryKeepsInv(
    incomplete: seq<bool>, runIncomplete: bool, published: bool, h: seq<Step>)
    ensures Inv(Replay(Create(incomplete, runIncomplete, published), h))
  {
    var start := Create(incomplete, runIncomplete, published);
    if h == [] {
      CreateKeepsInv(incomplete, runIncomplete, published);
    } else {
      EveryHistoryKeepsInv(incomplete, runIncomplete, published, h[..|h| - 1]);
      ApplyKeepsInv(Replay(start, h[..|h| - 1]), h[|h| - 1]);
    }
  }

  /** Advancing twice is advancing once, so a repeated or late message does no harm. */
  lemma AdvanceTwiceIsOnce(s: Batch, published: bool)
    ensures Advance(Advance(s, published), published) == Advance(s, published)
  {
    var r := Reflect(s);
    assert Reflect(r) == r;
    if MayStart(r, published) {
      var i := FirstQueued(r.rows);
      var t := Enqueued(r, i);
      assert Open(t.runs[|r.runs|]);
      forall j | 0 <= j < |t.rows|
        ensures ReflectedRow(t.rows, t.runs, j) == t.rows[j]
      {
        LatestAfterEnqueue(r.runs, BatchRun(i, Queued, false), j);
        assert ReflectedRow(r.rows, r.runs, j) == Reflect(r).rows[j];
      }
      assert Reflect(t) == t;
    }
  }

  /** The tick may leave out Batches without queued or running rows. */
  lemma SettledBatchStays(s: Batch, published: bool)
    requires forall i :: 0 <= i < |s.rows| ==> !s.rows[i].RowQueued? && !s.rows[i].RowRunning?
    ensures Advance(s, published) == s
  {
    assert Reflect(s) == s;
    FirstQueuedIsFirst(s.rows);
  }

  /** The row `start_next_queued` starts in this step, if any. */
  function Started(s: Batch, step: Step): Option<nat> {
    match step
    case Tick(published) =>
      if MayStart(Reflect(s), published) then Some(FirstQueued(Reflect(s).rows)) else None
    case SkipRow(index, published) =>
      if MaySkip(s, index) then
        var k := LatestRun(s.runs, index).value;
        var t := s.(runs := s.runs[k := s.runs[k].(status := Cancelled)], rows := s.rows[index := RowSkipped]);
        if MayStart(t, published) then Some(FirstQueued(t.rows)) else None
      else None
    case _ => None
  }

  /** No row up to `i` is queued. */
  ghost predicate Passed(s: Batch, i: nat) {
    forall j :: 0 <= j < |s.rows| && j <= i ==> !s.rows[j].RowQueued?
  }

  lemma NothingIsQueuedAgain(s: Batch, step: Step)
    ensures |Apply(s, step).rows| == |s.rows|
    ensures forall i :: 0 <= i < |s.rows| && Apply(s, step).rows[i].RowQueued? ==> s.rows[i].RowQueued?
  {
  }

  lemma StartPasses(s: Batch, step: Step)
    requires Started(s, step).Some?
    ensures Passed(Apply(s, step), Started(s, step).value)
    ensures var i := Started(s, step).value; i < |s.rows| && s.rows[i].RowQueued?
  {
    match step
    case Tick(published) => FirstQueuedIsFirst(Reflect(s).rows);
    case SkipRow(index, published) =>
      var k := LatestRun(s.runs, index).value;
      FirstQueuedIsFirst(s.rows[index := RowSkipped]);
  }

  lemma OneMoreStep(start: Batch, h: seq<Step>, b: nat)
    requires b < |h|
    ensures Replay(start, h[..b + 1]) == Apply(Replay(start, h[..b]), h[b])
  {
    assert h[..b + 1][..b] == h[..b];
  }

  lemma PassedByRows(s: Batch, t: Batch, i: nat)
    requires Passed(s, i) && |t.rows| == |s.rows|
    requires forall j :: 0 <= j < |s.rows| && t.rows[j].RowQueued? ==> s.rows[j].RowQueued?
    ensures Passed(t, i)
  {
  }

  lemma {:induction false} PassedStays(start: Batch, h: seq<Step>, a: nat, b: nat, i: nat)
    requires a <= b <= |h| && Passed(Replay(start, h[..a]), i)
    ensures Passed(Replay(start, h[..b]), i)
    decreases b
  {
    if a < b {
      hide Apply, Replay, Passed;
      PassedStays(start, h, a, b - 1, i);
      OneMoreStep(start, h, b - 1);
      NothingIsQueuedAgain(Replay(start, h[..b - 1]), h[b - 1]);
      PassedByRows(Replay(start, h[..b - 1]), Replay(start, h[..b]), i);
    }
  }

  /** Rows are started in order: a later start is of a later row. */
  lemma StartsInOrder(start: Batch, h: seq<Step>, a: nat, b: nat)
    requires a < b < |h|
    requires Started(Replay(start, h[..a]), h[a]).Some? && Started(Replay(start, h[..b]), h[b]).Some?
    ensures Started(Replay(start, h[..a]), h[a]).value < Started(Replay(start, h[..b]), h[b]).value
  {
    var i := Started(Replay(start, h[..a]), h[a]).value;
    StartPasses(Replay(start, h[..a]), h[a]);
    assert h[..a + 1][..a] == h[..a];
    PassedStays(start, h, a + 1, b, i);
    StartPasses(Replay(start, h[..b]), h[b]);
  }

  // ------------------------------------------------------------------- progress

  function QueuedCount(rows: seq<RowStatus>): nat {
    if rows == [] then 0
    else QueuedCount(rows[..|rows| - 1]) + if rows[|rows| - 1].RowQueued? then 1 else 0
  }

  lemma {:induction false} QueuedCountUpdate(rows: seq<RowStatus>, i: nat, status: RowStatus)
    requires i < |rows| && rows[i].RowQueued? && !status.RowQueued?
    ensures QueuedCount(rows[i := status]) == QueuedCount(rows) - 1
  {
    var last := |rows| - 1;
    if i < last {
      assert rows[i := status][..last] == rows[..last][i := status];
      QueuedCountUpdate(rows[..last], i, status);
    } else {
      assert rows[i := status][..last] == rows[..last];
    }
  }

  lemma {:induction false} QueuedCountSame(a: seq<RowStatus>, b: seq<RowStatus>)
    requires |a| == |b| && forall i :: 0 <= i < |a| ==> (a[i].RowQueued? <==> b[i].RowQueued?)
    ensures QueuedCount(a) == QueuedCount(b)
  {
    if a != [] {
      QueuedCountSame(a[..|a| - 1], b[..|b| - 1]);
    }
  }

  /** How many Runs must still end before the Batch is idle. */
  function Outstanding(s: Batch): nat {
    QueuedCount(s.rows) + if AnyOpen(s.runs) then 1 else 0
  }

  /** End the open Run, whichever it is. */
  function EndOpen(s: Batch, status: RunStatus): Batch {
    s.(runs := seq(|s.runs|, k requires 0 <= k < |s.runs| =>
                if Open(s.runs[k]) then s.runs[k].(status := status) else s.runs[k]))
  }

  ghost predicate Idle(s: Batch) {
    !AnyOpen(s.runs) && forall i :: 0 <= i < |s.rows| ==> !s.rows[i].RowQueued? && !s.rows[i].RowRunning?
  }

  /** Tick, let the open Run end somehow, tick again, and so on. */
  function Rounds(s: Batch, endings: seq<RunStatus>): Batch
    decreases |endings|
  {
    if endings == [] then Advance(s, true) else Rounds(EndOpen(Advance(s, true), endings[0]), endings[1..])
  }

  lemma {:induction false} NoQueued(rows: seq<RowStatus>)
    ensures QueuedCount(rows) == 0 <==> FirstQueued(rows) == |rows|
  {
    FirstQueuedIsFirst(rows);
    if exists i :: 0 <= i < |rows| && rows[i].RowQueued? {
      var i :| 0 <= i < |rows| && rows[i].RowQueued?;
      QueuedCountUpdate(rows, i, RowSkipped);
    } else {
      var none := seq(|rows|, i => RowSkipped);
      QueuedCountSame(rows, none);
      AllSkippedCount(none);
    }
  }

  lemma {:induction false} AllSkippedCount(rows: seq<RowStatus>)
    requires forall i :: 0 <= i < |rows| ==> !rows[i].RowQueued?
    ensures QueuedCount(rows) == 0
  {
    if rows != [] {
      AllSkippedCount(rows[..|rows| - 1]);
    }
  }

  /** A round with something outstanding leaves less outstanding. */
  lemma RoundMakesProgress(s: Batch, ending: RunStatus)
    requires Inv(s) && !s.cancelled && Terminal(ending) && Outstanding(s) > 0
    ensures var t := EndOpen(Advance(s, true), ending);
            Inv(t) && !t.cancelled && Outstanding(t) < Outstanding(s)
  {
    var r := Reflect(s);
    ReflectKeepsInv(s);
    QueuedCountSame(s.rows, r.rows);
    var u := StartNext(r, true);
    StartNextKeepsInv(r, true);
    FirstQueuedIsFirst(r.rows);
    if MayStart(r, true) {
      QueuedCountUpdate(r.rows, FirstQueued(r.rows), RowRunning);
    } else {
      NoQueued(r.rows);
    }
    EndOpenKeepsInv(u, ending);
    var t := EndOpen(u, ending);
    forall k | 0 <= k < |t.runs|
      ensures !Open(t.runs[k])
    {
    }
  }

  lemma EndOpenKeepsInv(s: Batch, ending: RunStatus)
    requires Inv(s) && Terminal(ending)
    ensures Inv(EndOpen(s, ending))
  {
    if AnyOpen(s.runs) {
      var k :| 0 <= k < |s.runs| && Open(s.runs[k]);
      MoveKeepsInv(s, k, ending);
      assert EndOpen(s, ending).runs == Move(s, k, ending).runs;
    } else {
      assert EndOpen(s, ending).runs == s.runs;
    }
  }

  /** Progress: if every Run ends somehow, a Batch that is not cancelled goes idle after as many
      rounds as it has rows outstanding; no failure stops the later rows. */
  lemma {:induction false} EveryBatchDrains(s: Batch, endings: seq<RunStatus>)
    requires Inv(s) && !s.cancelled && Outstanding(s) <= |endings|
    requires forall i :: 0 <= i < |endings| ==> Terminal(endings[i])
    ensures Idle(Rounds(s, endings))
    decreases |endings|
  {
    if Outstanding(s) == 0 {
      IdleStays(s, endings);
    } else {
      RoundMakesProgress(s, endings[0]);
      EveryBatchDrains(EndOpen(Advance(s, true), endings[0]), endings[1..]);
    }
  }

  lemma {:induction false} IdleStays(s: Batch, endings: seq<RunStatus>)
    requires Inv(s) && Outstanding(s) == 0
    ensures Idle(Rounds(s, endings))
    decreases |endings|
  {
    var r := Reflect(s);
    ReflectKeepsInv(s);
    QueuedCountSame(s.rows, r.rows);
    NoQueued(r.rows);
    FirstQueuedIsFirst(r.rows);
    assert Advance(s, true) == r;
    forall i | 0 <= i < |r.rows|
      ensures !r.rows[i].RowRunning?
    {
      assert RowAgrees(s, i);
    }
    if endings != [] {
      assert EndOpen(r, endings[0]).runs == r.runs;
      IdleStays(EndOpen(r, endings[0]), endings[1..]);
    }
  }

  /** A row that cancelling the Batch settles may disagree with its latest Run: exactly when that
      Run had ended without being cancelled and nobody had advanced the Batch since. */
  lemma CancelOverwritesOutcome(s: Batch, i: nat)
    requires Inv(s) && i < |s.rows| && s.rows[i].RowRunning? && !CancelBatch(s).rows[i].RowRunning?
    ensures LatestRun(s.runs, i).Some?
    ensures var k := LatestRun(s.runs, i).value;
            CancelBatch(s).runs[k].status.Cancelled? <==> !(s.runs[k].status.Succeeded? || s.runs[k].status.Failed?)
  {
    assert RowAgrees(s, i);
  }

  /** It happens: the only row's Run succeeds, and the Batch is cancelled before anybody looks. */
  lemma OutcomeIsOverwritten() returns (h: seq<Step>)
    ensures var s := Replay(Create([false], false, true), h);
            s.rows == [RowCancelled] && |s.runs| == 1 && s.runs[0].status.Succeeded?
  {
    h := [RunMoves(0, Succeeded), CancelAll];
    var start := Create([false], false, true);
    assert h[..1] == [RunMoves(0, Succeeded)] && h[..1][..0] == [];
    assert FirstQueued([RowQueued]) == 0;
    assert start.rows == [RowRunning] && start.runs == [BatchRun(0, Queued, false)];
    var ended := Replay(start, h[..1]);
    assert Replay(start, []) == start && ended == Move(start, 0, Succeeded);
    assert ended.rows == [RowRunning] && ended.runs == [BatchRun(0, Succeeded, false)];
    assert LatestRun(ended.runs, 0) == Some(0);
  }

  ghost predicate LatestEnded(s: Batch, i: nat) {
    var latest := LatestRun(s.runs, i);
    latest.Some? && (s.runs[latest.value].status.Succeeded? || s.runs[latest.value].status.Failed?)
  }

  /** The row says cancelled, its latest Run succeeded or failed. */
  ghost predicate Overwritten(s: Batch, i: nat) {
    i < |s.rows| && s.rows[i].RowCancelled? && LatestEnded(s, i)
  }

  /** This step cancels the Batch and finds the row running, its Run ended unnoticed. */
  ghost predicate FindsEnded(s: Batch, step: Step, i: nat) {
    step.CancelAll? && i < |s.rows| && s.rows[i].RowRunning? && LatestEnded(s, i)
  }

  lemma ReflectOverwrites(s: Batch, i: nat)
    ensures Overwritten(Reflect(s), i) <==> Overwritten(s, i)
  {
    hide LatestRun;
  }

  lemma EnqueueOverwrites(s: Batch, j: nat, i: nat)
    requires j < |s.rows| && (s.rows[j].RowQueued? || s.rows[j].RowFailed? || s.rows[j].RowSkipped?)
    ensures Overwritten(Enqueued(s, j), i) <==> Overwritten(s, i)
  {
    LatestAfterEnqueue(s.runs, BatchRun(j, Queued, false), i);
    hide LatestRun;
  }

  lemma StartOverwrites(s: Batch, published: bool, i: nat)
    ensures Overwritten(StartNext(s, published), i) <==> Overwritten(s, i)
  {
    FirstQueuedIsFirst(s.rows);
    hide Overwritten, Enqueued, AnyOpen;
    if MayStart(s, published) {
      EnqueueOverwrites(s, FirstQueued(s.rows), i);
    }
  }

  /** What cancelling does to one row and its latest Run. */
  lemma CancelAtRow(s: Batch, i: nat)
    requires Inv(s) && i < |s.rows|
    ensures var t, latest := CancelBatch(s), LatestRun(s.runs, i);
            && |t.rows| == |s.rows| && |t.runs| == |s.runs| && t.rows[i] == CancelledRow(s.rows, s.runs, i)
            && LatestRun(t.runs, i) == latest
            && (latest.Some? ==>
                  t.runs[latest.value] ==
                  if s.rows[i].RowRunning? then CancelledRun(s.runs[latest.value]) else s.runs[latest.value])
  {
    assert forall run :: CancelledRun(run).row == run.row;
    hide LatestRun, CancelledRun, CancelledRow, Inv;
    LatestIgnoresStatus(s.runs, CancelBatch(s).runs, i);
  }

  lemma CancelOverwrites(s: Batch, i: nat)
    requires Inv(s)
    ensures Overwritten(CancelBatch(s), i) <==> Overwritten(s, i) || FindsEnded(s, CancelAll, i)
  {
    CancelledRuns(s);
    if i < |s.rows| {
      assert RowAgrees(s, i);
      CancelAtRow(s, i);
      hide LatestRun, Inv, CancelBatch, Open;
      EndedRunsStay();
      var latest := LatestRun(s.runs, i);
      if s.rows[i].RowRunning? && latest.Some? {
        assert CancelBatch(s).rows[i].RowCancelled? <==> !Open(CancelledRun(s.runs[latest.value]));
      }
    }
  }

  lemma EndedRunsStay()
    ensures forall run: BatchRun :: run.status.Succeeded? || run.status.Failed? ==>
              CancelledRun(run) == run && !Open(run)
    ensures forall run :: CancelledRun(run).status.Succeeded? || CancelledRun(run).status.Failed? ==>
              CancelledRun(run) == run
  {
  }

  lemma SkipOverwrites(s: Batch, index: nat, published: bool, i: nat)
    requires Inv(s)
    ensures Overwritten(Skip(s, index, published), i) <==> Overwritten(s, i)
  {
    if MaySkip(s, index) {
      var k := LatestRun(s.runs, index).value;
      var t := s.(runs := s.runs[k := s.runs[k].(status := Cancelled)], rows := s.rows[index := RowSkipped]);
      LatestIgnoresStatus(s.runs, t.runs, i);
      assert RowAgrees(s, index);
      StartOverwrites(t, published, i);
      hide LatestRun, Inv, StartNext;
      assert Overwritten(t, i) <==> Overwritten(s, i);
    }
  }

  lemma MoveOverwrites(s: Batch, k: nat, status: RunStatus, i: nat)
    requires Inv(s)
    ensures Overwritten(Move(s, k, status), i) <==> Overwritten(s, i)
  {
    var t := Move(s, k, status);
    LatestIgnoresStatus(s.runs, t.runs, i);
    if i < |s.rows| {
      assert RowAgrees(s, i);
    }
    hide LatestRun;
  }

  /** Only cancelling the Batch overwrites an outcome, and nothing takes that back. */
  lemma OverwrittenStep(s: Batch, step: Step, i: nat)
    requires Inv(s)
    ensures Overwritten(Apply(s, step), i) <==> Overwritten(s, i) || FindsEnded(s, step, i)
  {
    hide Overwritten, Inv, Reflect, StartNext, CancelBatch, Skip, Enqueued, Move;
    match step
    case Tick(published) =>
      ReflectOverwrites(s, i);
      StartOverwrites(Reflect(s), published, i);
    case CancelAll => CancelOverwrites(s, i);
    case SkipRow(index, published) => SkipOverwrites(s, index, published, i);
    case RerunRow(index, published) =>
      if MayRerun(s, index, published) {
        EnqueueOverwrites(s, index, i);
      }
    case RunMoves(run, status) => MoveOverwrites(s, run, status, i);
  }

  ghost predicate WasFoundEnded(start: Batch, h: seq<Step>, i: nat) {
    exists a :: 0 <= a < |h| && FindsEnded(Replay(start, h[..a]), h[a], i)
  }

  lemma FoundEndedStep(start: Batch, h: seq<Step>, i: nat)
    requires h != []
    ensures var init := h[..|h| - 1];
            WasFoundEnded(start, h, i) <==>
            WasFoundEnded(start, init, i) || FindsEnded(Replay(start, init), h[|h| - 1], i)
  {
    hide FindsEnded, Replay;
    var init := h[..|h| - 1];
    forall a | 0 <= a < |init|
      ensures init[..a] == h[..a] && init[a] == h[a]
    {
    }
    if WasFoundEnded(start, h, i) {
      var a :| 0 <= a < |h| && FindsEnded(Replay(start, h[..a]), h[a], i);
      assert a < |init| ==> FindsEnded(Replay(start, init[..a]), init[a], i);
    }
    if WasFoundEnded(start, init, i) {
      var a :| 0 <= a < |init| && FindsEnded(Replay(start, init[..a]), init[a], i);
      assert FindsEnded(Replay(start, h[..a]), h[a], i);
    }
  }

  /** Main result: a row says cancelled while its latest Run succeeded or failed if and only if some
      cancelling of the Batch found the row running and its Run ended unnoticed. */
  lemma {:induction false} OverwrittenExactly(incomplete: seq<bool>, runIncomplete: bool, published: bool,
                                              h: seq<Step>, i: nat)
    ensures var start := Create(incomplete, runIncomplete, published);
            Overwritten(Replay(start, h), i) <==> WasFoundEnded(start, h, i)
  {
    var start := Create(incomplete, runIncomplete, published);
    if h == [] {
      StartOverwrites(Batch(seq(|incomplete|, j requires 0 <= j < |incomplete| =>
                              if runIncomplete || !incomplete[j] then RowQueued else RowSkipped), [], false),
                      published, i);
    } else {
      hide Overwritten, FindsEnded, WasFoundEnded, Inv, Apply, Create;
      var init := h[..|h| - 1];
      OverwrittenExactly(incomplete, runIncomplete, published, init, i);
      EveryHistoryKeepsInv(incomplete, runIncomplete, published, init);
      OverwrittenStep(Replay(start, init), h[|h| - 1], i);
      FoundEndedStep(start, h, i);
    }
  }

  // -------------------------------------------------------------------- the rows

  /** The events of reflecting the rows below `n`: one for each row whose status changes. */
  function ReflectEvents(rows: seq<RowStatus>, runs: seq<BatchRun>, n: nat): seq<RowEvent>
    requires n <= |rows|
  {
    if n == 0 then []
    else
      var status := ReflectedRow(rows, runs, n - 1);
      ReflectEvents(rows, runs, n - 1) +
      if status != rows[n - 1] then [RowEvent(n - 1, status, LatestRun(runs, n - 1))] else []
  }

  lemma {:induction false} NoChangeNoEvents(rows: seq<RowStatus>, runs: seq<BatchRun>, n: nat)
    requires n <= |rows|
    ensures ReflectEvents(rows, runs, n) == [] <==> forall i :: 0 <= i < n ==> ReflectedRow(rows, runs, i) == rows[i]
  {
    if n > 0 {
      NoChangeNoEvents(rows, runs, n - 1);
    }
  }

  lemma ReflectedRowIsLocal(a: seq<RowStatus>, b: seq<RowStatus>, runs: seq<BatchRun>, i: nat)
    requires i < |a| == |b| && a[i] == b[i]
    ensures ReflectedRow(a, runs, i) == ReflectedRow(b, runs, i)
  {
  }

  // ------------------------------------------------- the operations, row by row and Run by Run

  predicate RunEnded(run: BatchRun) {
    run.status.Succeeded? || run.status.Failed? || run.status.Cancelled?
  }

  /** The first queued row starts, in a Batch that is published, not cancelled and has no live Run;
      otherwise nothing does. */
  ghost predicate StartedNext(s: Batch, published: bool, t: Batch) {
    if && published && !s.cancelled && (forall k :: 0 <= k < |s.runs| ==> RunEnded(s.runs[k]))
       && exists i :: 0 <= i < |s.rows| && s.rows[i].RowQueued?
    then
      exists i ::
        && 0 <= i < |s.rows| && s.rows[i].RowQueued? && (forall j :: 0 <= j < i ==> !s.rows[j].RowQueued?)
        && t == Batch(s.rows[i := RowRunning], s.runs + [BatchRun(i, Queued, false)], false)
    else t == s
  }

  lemma StartNextMeans(s: Batch, published: bool)
    ensures StartedNext(s, published, StartNext(s, published))
  {
    FirstQueuedIsFirst(s.rows);
    assert forall run :: RunEnded(run) <==> !Open(run);
  }

  /** Incomplete rows are skipped unless they are to be run, and the first of the others starts. */
  ghost predicate CreatedFrom(incomplete: seq<bool>, runIncomplete: bool, published: bool, t: Batch) {
    exists rows: seq<RowStatus> ::
      && |rows| == |incomplete|
      && (forall i :: 0 <= i < |rows| ==> rows[i] == if incomplete[i] && !runIncomplete then RowSkipped else RowQueued)
      && StartedNext(Batch(rows, [], false), published, t)
  }

  lemma CreateMeans(incomplete: seq<bool>, runIncomplete: bool, published: bool)
    ensures CreatedFrom(incomplete, runIncomplete, published, Create(incomplete, runIncomplete, published))
  {
    hide StartNext, StartedNext;
    var rows := seq(|incomplete|, i requires 0 <= i < |incomplete| =>
                  if runIncomplete || !incomplete[i] then RowQueued else RowSkipped);
    StartNextMeans(Batch(rows, [], false), published);
  }

  /** Queued rows are cancelled; a running one goes on only while its latest Run runs, which is asked to
      stop; a queued or waiting Run ends at once.  Everything else stays. */
  ghost predicate CancelledAs(s: Batch, t: Batch) {
    && t.cancelled && |t.rows| == |s.rows| && |t.runs| == |s.runs|
    && (forall i :: 0 <= i < |s.rows| ==>
          var latest := LatestRun(s.runs, i);
          t.rows[i] ==
          if s.rows[i].RowQueued? then RowCancelled
          else if s.rows[i].RowRunning? && !(latest.Some? && s.runs[latest.value].status.Running?) then RowCancelled
          else s.rows[i])
    && forall k :: 0 <= k < |s.runs| ==> CancelledOrKept(s, k, t.runs[k])
  }

  ghost predicate CancelledOrKept(s: Batch, k: nat, after: BatchRun)
    requires k < |s.runs|
  {
    var run := s.runs[k];
    if run.row < |s.rows| && s.rows[run.row].RowRunning? && LatestRun(s.runs, run.row) == Some(k) then
      if run.status.Queued? || run.status.Waiting? then after == BatchRun(run.row, Cancelled, run.cancelRequested)
      else if run.status.Running? then after == BatchRun(run.row, Running, true)
      else after == run
    else after == run
  }

  lemma CancelMeans(s: Batch)
    ensures CancelledAs(s, CancelBatch(s))
  {
    hide LatestRun;
  }

  /** A running row takes the outcome of its latest Run once that has ended.  Everything else stays. */
  ghost predicate ReflectedAs(s: Batch, t: Batch) {
    && t.runs == s.runs && t.cancelled == s.cancelled && |t.rows| == |s.rows|
    && forall i :: 0 <= i < |s.rows| ==>
         var latest := LatestRun(s.runs, i);
         t.rows[i] ==
         if s.rows[i].RowRunning? && latest.Some? then
           match s.runs[latest.value].status
           case Succeeded => RowSucceeded
           case Failed => RowFailed
           case Cancelled => RowCancelled
           case _ => RowRunning
         else s.rows[i]
  }

  lemma ReflectMeans(s: Batch)
    ensures ReflectedAs(s, Reflect(s))
  {
    hide LatestRun;
  }

  /** Row by row, one event for each row that changed, with its new status and its latest Run. */
  ghost predicate EventsOfChanges(before: seq<RowStatus>, after: seq<RowStatus>, runs: seq<BatchRun>,
                                  events: seq<RowEvent>) {
    && |before| == |after|
    && (forall e :: e in events ==>
          e.index < |after| && after[e.index] != before[e.index] &&
          e == RowEvent(e.index, after[e.index], LatestRun(runs, e.index)))
    && (forall i :: 0 <= i < |after| && after[i] != before[i] ==>
          RowEvent(i, after[i], LatestRun(runs, i)) in events)
    && IndicesRise(events)
  }

  /** The event of a row below `n` that changes. */
  predicate EventBelow(rows: seq<RowStatus>, runs: seq<BatchRun>, n: nat, e: RowEvent)
    requires n <= |rows|
  {
    && e.index < n && ReflectedRow(rows, runs, e.index) != rows[e.index]
    && e == RowEvent(e.index, ReflectedRow(rows, runs, e.index), LatestRun(runs, e.index))
  }

  ghost predicate IndicesRise(events: seq<RowEvent>) {
    forall k, l :: 0 <= k < l < |events| ==> events[k].index < events[l].index
  }

  lemma {:induction false} EventsBelow(rows: seq<RowStatus>, runs: seq<BatchRun>, n: nat)
    requires n <= |rows|
    ensures forall e :: e in ReflectEvents(rows, runs, n) <==> EventBelow(rows, runs, n, e)
    ensures IndicesRise(ReflectEvents(rows, runs, n))
  {
    hide ReflectedRow, LatestRun;
    if n > 0 {
      EventsBelow(rows, runs, n - 1);
      var before := ReflectEvents(rows, runs, n - 1);
      forall k | 0 <= k < |before|
        ensures before[k].index < n - 1
      {
        assert before[k] in before && EventBelow(rows, runs, n - 1, before[k]);
      }
    }
  }

  lemma ReflectEventsMean(s: Batch)
    ensures EventsOfChanges(s.rows, Reflect(s).rows, s.runs, ReflectEvents(s.rows, s.runs, |s.rows|))
  {
    hide ReflectedRow, LatestRun, IndicesRise;
    EventsBelow(s.rows, s.runs, |s.rows|);
  }

  /** The Runs after cancelling row `i`. */
  function CancelledFor(rows: seq<RowStatus>, runs: seq<BatchRun>, i: nat): seq<BatchRun>
    requires i < |rows|
  {
    var latest := LatestRun(runs, i);
    if rows[i].RowRunning? && latest.Some? then runs[latest.value := CancelledRun(runs[latest.value])] else runs
  }

  /** The rows below `n` have been cancelled. */
  ghost predicate CancelledBelow(rows: seq<RowStatus>, runs: seq<BatchRun>, nowRows: seq<RowStatus>,
                                 nowRuns: seq<BatchRun>, n: nat) {
    && n <= |nowRows| == |rows| && |nowRuns| == |runs|
    && (forall j :: 0 <= j < |rows| ==> nowRows[j] == if j < n then CancelledRow(rows, runs, j) else rows[j])
    && forall k :: 0 <= k < |runs| ==>
         && nowRuns[k].row == runs[k].row
         && nowRuns[k] == if runs[k].row < n then CancelRuns(rows, runs)[k] else runs[k]
  }

  lemma CancelOneMore(rows: seq<RowStatus>, runs: seq<BatchRun>, nowRows: seq<RowStatus>, nowRuns: seq<BatchRun>,
                      n: nat)
    requires CancelledBelow(rows, runs, nowRows, nowRuns, n) && n < |rows|
    ensures CancelledBelow(rows, runs, nowRows[n := CancelledRow(nowRows, nowRuns, n)],
                           CancelledFor(nowRows, nowRuns, n), n + 1)
  {
    assert forall run :: CancelledRun(run).row == run.row;
    hide LatestRun, CancelledRun;
    LatestIgnoresStatus(runs, nowRuns, n);
    var latest := LatestRun(runs, n);
    if latest.Some? {
      assert nowRuns[latest.value] == runs[latest.value];
    }
  }

  lemma CancelledAll(rows: seq<RowStatus>, runs: seq<BatchRun>, nowRows: seq<RowStatus>, nowRuns: seq<BatchRun>)
    requires CancelledBelow(rows, runs, nowRows, nowRuns, |rows|)
    ensures Batch(nowRows, nowRuns, true) == CancelBatch(Batch(rows, runs, false))
    ensures forall c :: CancelBatch(Batch(rows, runs, c)) == CancelBatch(Batch(rows, runs, false))
  {
    hide LatestRun, CancelledRow, CancelledRun;
    var t := CancelBatch(Batch(rows, runs, false));
    assert nowRows == t.rows;
    forall k | 0 <= k < |runs| ensures nowRuns[k] == t.runs[k] {
    }
    assert nowRuns == t.runs;
  }

  class BatchTables {
    var rows: seq<RowStatus>
    var runs: seq<BatchRun>
    var cancelled: bool

    ghost function View(): Batch
      reads this
    {
      Batch(rows, runs, cancelled)
    }

    /** `create_batch`, once the rows are known to be acceptable. */
    constructor (incomplete: seq<bool>, runIncomplete: bool, published: bool)
      ensures View() == Create(incomplete, runIncomplete, published)
      ensures CreatedFrom(incomplete, runIncomplete, published, View())
    {
      rows := seq(|incomplete|, i requires 0 <= i < |incomplete| =>
                if runIncomplete || !incomplete[i] then RowQueued else RowSkipped);
      runs := [];
      cancelled := false;
      new;
      var started, event := StartNextQueued(published);
      CreateMeans(incomplete, runIncomplete, published);
    }

    /** One round of the loop of `reflect_running_rows`. */
    method ReflectOne(i: nat) returns (event: Option<RowEvent>)
      requires i < |rows|
      modifies `rows
      ensures rows == old(rows)[i := ReflectedRow(old(rows), runs, i)]
      ensures event == if rows[i] != old(rows)[i] then Some(RowEvent(i, rows[i], LatestRun(runs, i))) else None
    {
      hide LatestRun, StatusFromRun;
      event := None;
      if rows[i].RowRunning? {
        var latest := LatestRun(runs, i);
        if latest.Some? && !Open(runs[latest.value]) {
          var status := StatusFromRun(runs[latest.value].status, rows[i]);
          if status != rows[i] {
            rows := rows[i := status];
            event := Some(RowEvent(i, status, latest));
          }
        }
      }
    }

    method ReflectRunningRows() returns (events: seq<RowEvent>)
      modifies `rows
      ensures View() == Reflect(old(View())) && ReflectedAs(old(View()), View())
      ensures events == ReflectEvents(old(rows), runs, |rows|) && EventsOfChanges(old(rows), rows, runs, events)
    {
      hide ReflectedRow, LatestRun;
      events := [];
      var i := 0;
      while i < |rows|
        invariant i <= |rows| == |old(rows)|
        invariant forall j :: 0 <= j < |rows| ==>
                    rows[j] == if j < i then ReflectedRow(old(rows), runs, j) else old(rows)[j]
        invariant events == ReflectEvents(old(rows), runs, i)
      {
        ReflectedRowIsLocal(rows, old(rows), runs, i);
        var event := ReflectOne(i);
        if event.Some? {
          events := events + [event.value];
        }
        i := i + 1;
      }
      assert rows == Reflect(old(View())).rows;
      hide Reflect, ReflectedAs, EventsOfChanges;
      ReflectMeans(old(View()));
      ReflectEventsMean(old(View()));
    }

    method AnyOpenRun() returns (found: bool)
      ensures found == AnyOpen(runs)
    {
      found := false;
      var k := 0;
      while k < |runs| && !found
        invariant k <= |runs|
        invariant found <==> exists l :: 0 <= l < k && Open(runs[l])
      {
        found := Open(runs[k]);
        k := k + 1;
      }
    }

    method StartNextQueued(published: bool) returns (started: Option<nat>, event: Option<RowEvent>)
      modifies `rows, `runs
      ensures View() == StartNext(old(View()), published) && StartedNext(old(View()), published, View())
      ensures started == if MayStart(old(View()), published) then Some(|old(runs)|) else None
      ensures event == if MayStart(old(View()), published)
                       then Some(RowEvent(FirstQueued(old(rows)), RowRunning, started)) else None
    {
      StartNextMeans(View(), published);
      started, event := None, None;
      if cancelled {
        return;
      }
      var busy := AnyOpenRun();
      if busy {
        return;
      }
      FirstQueuedIsFirst(rows);
      var i := FirstQueued(rows);
      if i == |rows| || !published {
        return;
      }
      started := Some(|runs|);
      runs := runs + [BatchRun(i, Queued, false)];
      rows := rows[i := RowRunning];
      event := Some(RowEvent(i, RowRunning, started));
    }

    /** A second call starts nothing and reports nothing. */
    method ReflectAndAdvance(published: bool) returns (started: Option<nat>, events: seq<RowEvent>)
      modifies `rows, `runs
      ensures View() == Advance(old(View()), published)
      ensures started.None? && events == [] <==> View() == old(View())
      ensures old(View()) == Advance(old(View()), published) ==> started.None? && events == []
    {
      ghost var before := View();
      events := ReflectRunningRows();
      NoChangeNoEvents(before.rows, runs, |before.rows|);
      assert events == [] <==> Reflect(before).rows == before.rows;
      var event;
      started, event := StartNextQueued(published);
      if event.Some? {
        events := events + [event.value];
      }
    }

    /** `cancel_current`. */
    method CancelCurrent(k: nat)
      requires k < |runs|
      modifies `runs
      ensures var run := old(runs)[k];
              runs == old(runs)[k :=
                if run.status.Queued? || run.status.Waiting? then BatchRun(run.row, Cancelled, run.cancelRequested)
                else if run.status.Running? then BatchRun(run.row, Running, true) else run]
      ensures runs == old(runs)[k := CancelledRun(old(runs)[k])]
    {
      var run := runs[k];
      if Terminal(run.status) {
        return;
      }
      if run.status.Queued? || run.status.Waiting? {
        runs := runs[k := run.(status := Cancelled)];
      } else {
        runs := runs[k := run.(cancelRequested := true)];
      }
    }

    /** One round of the loop of `cancel_batch`. */
    method CancelRow(i: nat)
      requires i < |rows|
      modifies `rows, `runs
      ensures rows == old(rows)[i := CancelledRow(old(rows), old(runs), i)]
      ensures runs == CancelledFor(old(rows), old(runs), i)
    {
      hide LatestRun;
      if rows[i].RowQueued? {
        rows := rows[i := RowCancelled];
      } else if rows[i].RowRunning? {
        var latest := LatestRun(runs, i);
        if latest.Some? {
          CancelCurrent(latest.value);
        }
        if latest.None? || !Open(runs[latest.value]) {
          rows := rows[i := RowCancelled];
        }
      }
    }

    method Cancel()
      modifies this
      ensures View() == CancelBatch(old(View())) && CancelledAs(old(View()), View())
    {
      cancelled := true;
      var i := 0;
      assert CancelledBelow(rows, runs, rows, runs, 0);
      hide CancelledBelow, CancelledRow, CancelledFor;
      while i < |rows|
        invariant i <= |rows| == |old(rows)|
        invariant cancelled
        invariant CancelledBelow(old(rows), old(runs), rows, runs, i)
      {
        CancelOneMore(old(rows), old(runs), rows, runs, i);
        CancelRow(i);
        i := i + 1;
      }
      CancelledAll(old(rows), old(runs), rows, runs);
      CancelMeans(old(View()));
    }

    method SkipRow(i: nat, published: bool) returns (answer: Answer, started: Option<nat>)
      requires i < |rows|
      modifies `rows, `runs
      ensures View() == Skip(old(View()), i, published)
      ensures answer.Accepted? <==> MaySkip(old(View()), i)
      ensures var latest := LatestRun(old(runs), i);
              if latest.Some? && old(runs)[latest.value].status.Waiting? then
                && answer.Accepted?
                && StartedNext(Batch(old(rows)[i := RowSkipped],
                                     old(runs)[latest.value := old(runs)[latest.value].(status := Cancelled)],
                                     cancelled),
                               published, View())
              else answer == Conflict("not_waiting") && View() == old(View())
    {
      var latest := LatestRun(runs, i);
      if latest.None? || !runs[latest.value].status.Waiting? {
        return Conflict("not_waiting"), None;
      }
      runs := runs[latest.value := runs[latest.value].(status := Cancelled)];
      rows := rows[i := RowSkipped];
      var event;
      started, event := StartNextQueued(published);
      answer := Accepted;
    }

    method RerunRow(i: nat, published: bool) returns (answer: Answer)
      requires i < |rows|
      modifies `rows, `runs
      ensures View() == Rerun(old(View()), i, published)
      ensures answer.Accepted? <==> MayRerun(old(View()), i, published)
      ensures if !old(rows)[i].RowFailed? && !old(rows)[i].RowSkipped? then answer == Conflict("row_not_rerunnable")
              else if exists k :: 0 <= k < |old(runs)| && !RunEnded(old(runs)[k]) then answer == Conflict("batch_busy")
              else if !published then answer == Conflict("no_published_version")
              else answer.Accepted?
      ensures answer.Accepted? ==>
                rows == old(rows)[i := RowRunning] && runs == old(runs) + [BatchRun(i, Queued, false)]
      ensures !answer.Accepted? ==> rows == old(rows) && runs == old(runs)
    {
      if !rows[i].RowFailed? && !rows[i].RowSkipped? {
        return Conflict("row_not_rerunnable");
      }
      var busy := AnyOpenRun();
      if busy {
        return Conflict("batch_busy");
      }
      if !published {
        return Conflict("no_published_version");
      }
      runs := runs + [BatchRun(i, Queued, false)];
      rows := rows[i := RowRunning];
      answer := Accepted;
    }
  }
}
