/**
 The Worker's step loop (`execute` in `executor.py`): one claimed Run, its control checks, its
 takeovers and its accounting.  The control flags, the success checks, what the page makes of a Step,
 whether the Run is known to be lost and the clock are those of an arbitrary `World`, read one moment
 after another; trace saves are arbitrary too.  After each of the Worker's transactions any number of
 foreign ones may follow (`Interfere`).
 */
module Executor {
  import opened Wrappers
  import opened RunProtocol
  import opened RunTables
  import opened Intervals
  import opened Tracing

  const HAND_BACK_GRACE := 6_000_000

  datatype Step = Step(disabled: bool, optional: bool, takeover: bool, successCheck: bool,
                       takeoverTimeoutMs: Option<nat>, secret: bool)

  datatype Work = Work(steps: seq<Step>, timeoutMs: nat, takeoverTimeoutMs: nat)

  datatype Flags = Flags(cancel: bool, pause: bool, holder: bool, autoDisabled: bool, handback: bool)

  datatype Control = Clear | CancelRaised | PauseRaised | TerminalRaised

  /** What `execute_step` does: it returns an outcome or a control exception leaves it. */
  datatype Performed = Outcome(status: StepStatus, challenge: bool) | Raised(control: Control)

  datatype Parked = Verified | HandedBack | LostWhileParked | DiedWhileParked | TraceRaised

  /** Where one pass of the step loop goes next. */
  datatype Pass =
    | Continue
    | Stop(status: RunStatus, reason: Option<FailureReason>)
    | Gone      // the Run is no longer this Worker's
    | Escaped   // an exception nobody catches
    | Died      // the process is killed

  datatype Attempt = Done(status: StepStatus, challenge: bool) | Leave(pass: Pass)

  datatype Exit =
    | Finished(status: RunStatus, reason: Option<FailureReason>, accepted: bool)
    | Lost
    | Broken

  datatype Watched = StepDone(secret: bool, traced: bool) | ParkPolled(traced: bool)

  /** What the park loop carries from one turn to the next. */
  datatype ParkLoop = ParkLoop(human: bool, lastMet: Option<bool>, graceEndsAt: Option<int>)

  // ---------------------------------------------------------------- the world

  /** What a page makes of a Step: it works, or fails, perhaps for want of its target, perhaps with a
      challenge flagged on the page. */
  datatype Page = Page(works: bool, targetMissing: bool, challenge: bool)

  /** What there is to see at each moment: the control flags, whether the success check is met, what the
      page makes of a Step, the time, and whether the Run is known to be no longer this Worker's.  A moment
      at which the Worker does not look goes by unseen.  `start` is how the Run starts. */
  datatype World = World(flags: nat -> Flags, met: nat -> bool, page: nat -> Page, clock: nat -> int,
                         lost: nat -> bool, start: Start)

  /** A secret is missing, the browser does not launch, the trace or the first page raises, or nothing. */
  datatype Start = SecretMissing | LaunchFails | StartRaises | Starts

  function FlagsAt(w: World, moment: nat): Flags { w.flags(moment) }

  function MetAt(w: World, moment: nat): bool { w.met(moment) }

  function PageAt(w: World, moment: nat): Page { w.page(moment) }

  function Clock(w: World, moment: nat): int { w.clock(moment) }

  /** One clock that never runs backwards. */
  ghost predicate Forward(w: World) {
    forall i: nat, j: nat :: i <= j ==> Clock(w, i) <= Clock(w, j)
  }

  /** A world in which time stands still. */
  function Still(): World {
    World((m: nat) => Flags(false, false, false, false, false), (m: nat) => false,
          (m: nat) => Page(true, false, false), (m: nat) => 0, (m: nat) => false, Starts)
  }

  type Timeline = w: World | Forward(w) witness Still()

  lemma KeepsTime(w: Timeline)
    ensures Forward(w)
  {
  }

  lemma ClockForward(w: World, i: nat, j: nat)
    requires Forward(w) && i <= j
    ensures Clock(w, i) <= Clock(w, j)
  {
  }

  // ---------------------------------------------------------------- what the Steps did

  /** What a Step that begins at this moment comes to: the next moment holds the control flags, the one
      after it the page. */
  function Performance(w: World, step: Step, moment: nat): Performed {
    var flags, page := FlagsAt(w, moment + 1), PageAt(w, moment + 2);
    if step.disabled then Outcome(Skipped, false)
    else if step.takeover then Outcome(Passed, false)
    else if flags.cancel then Raised(CancelRaised)
    else if flags.pause then Raised(PauseRaised)
    else if page.works then Outcome(Passed, false)
    else if step.optional && page.targetMissing then Outcome(Skipped, false)
    else Outcome(StepStatus.Failed, page.challenge)
  }

  /** Where a result comes from: the Step as performed from a moment to before another, the verification
      of a takeover at a moment, or the end of the Run, which skips the rest. */
  datatype Origin = ByStep(moment: nat, over: nat) | ByPerson(moment: nat) | AfterEnd

  /** The first moment after a Step that begins at this one: a disabled Step and a person's take only it. */
  function PerformedBy(step: Step, moment: nat): nat {
    moment + if step.disabled || step.takeover then 1 else 3
  }

  predicate Justified(w: World, step: Step, status: StepStatus, origin: Origin) {
    match origin
    case ByStep(moment, over) =>
      && Performance(w, step, moment).Outcome? && Performance(w, step, moment).status == status
      && over == PerformedBy(step, moment) && !w.lost(over)
    case ByPerson(moment) => step.takeover && !step.disabled && step.successCheck && MetAt(w, moment) && status.Passed?
    case AfterEnd => status.Skipped?
  }

  /** Every result is what its origin says, and the origins lie one after another in time, the rest last. */
  ghost predicate Recorded(w: World, steps: seq<Step>, written: seq<StepStatus>, origins: seq<Origin>) {
    && |origins| == |written| <= |steps|
    && (forall i :: 0 <= i < |written| ==> Justified(w, steps[i], written[i], origins[i]))
    && forall i, j :: 0 <= i < j < |origins| && !origins[j].AfterEnd? ==>
         !origins[i].AfterEnd? && origins[i].moment < origins[j].moment
  }

  ghost predicate NoneAfterEnd(origins: seq<Origin>) {
    forall i :: 0 <= i < |origins| ==> !origins[i].AfterEnd?
  }

  /** The first moment after those of the origins. */
  function NextMoment(origins: seq<Origin>): nat {
    if origins == [] then 0
    else
      match origins[|origins| - 1]
      case ByStep(_, over) => over
      case ByPerson(moment) => moment + 1
      case AfterEnd => 0
  }

  /** Some Step failed as it was performed, with or without a challenge. */
  ghost predicate FailedWith(w: World, steps: seq<Step>, written: seq<StepStatus>, origins: seq<Origin>,
                             challenge: bool) {
    exists i :: && 0 <= i < |written| && i < |origins| && i < |steps| && written[i].Failed? && origins[i].ByStep?
                && Performance(w, steps[i], origins[i].moment) == Outcome(StepStatus.Failed, challenge)
  }

  /** The outcome of a Run follows from what its Steps did. */
  ghost predicate Explained(w: World, steps: seq<Step>, status: RunStatus, reason: Option<FailureReason>,
                            written: seq<StepStatus>, origins: seq<Origin>) {
    && Recorded(w, steps, written, origins)
    && (status.Succeeded? ==> NoneAfterEnd(origins))
    && (reason == Some(AuthChallenge) ==> FailedWith(w, steps, written, origins, true))
    && (reason == Some(FailureReason.StepFailed) ==> FailedWith(w, steps, written, origins, false))
    && (reason == Some(MissingSecret) ==> w.start.SecretMissing?)
    && (reason == Some(StartupFailed) ==> w.start.LaunchFails?)
  }

  /** Before each result, and after the one before it, the control flags were looked at and did not ask
      to cancel. */
  ghost predicate Looked(w: World, origins: seq<Origin>) {
    forall i :: 0 <= i < |origins| && !origins[i].AfterEnd? ==>
      LookedFrom(w, NextMoment(origins[..i]), origins[i].moment)
  }

  /** At some moment of this stretch the flags did not ask to cancel. */
  ghost predicate LookedFrom(w: World, from: nat, until: nat) {
    exists m: nat :: from <= m < until && !FlagsAt(w, m).cancel
  }

  /** Nothing was performed: only the rest was skipped. */
  ghost predicate OnlyRestAdded(before: seq<Origin>, after: seq<Origin>) {
    before <= after && forall i :: |before| <= i < |after| ==> after[i].AfterEnd?
  }

  lemma RestIsLooked(w: World, before: seq<Origin>, after: seq<Origin>)
    requires OnlyRestAdded(before, after)
    ensures Looked(w, before) ==> Looked(w, after)
  {
    hide NextMoment, LookedFrom;
    forall i | 0 <= i < |before|
      ensures after[i] == before[i] && after[..i] == before[..i]
    {
    }
  }

  lemma OneMoreLooked(w: World, origins: seq<Origin>, origin: Origin, look: nat)
    requires Looked(w, origins) && !origin.AfterEnd?
    requires NextMoment(origins) <= look < origin.moment && !FlagsAt(w, look).cancel
    ensures Looked(w, origins + [origin])
  {
    hide NextMoment;
    var more := origins + [origin];
    assert more[..|origins|] == origins;
    forall i | 0 <= i < |origins|
      ensures more[i] == origins[i] && more[..i] == origins[..i]
    {
    }
    assert LookedFrom(w, NextMoment(origins), origin.moment);
  }

  lemma OneMoreRecorded(w: World, steps: seq<Step>, written: seq<StepStatus>, origins: seq<Origin>,
                        status: StepStatus, origin: Origin)
    requires Recorded(w, steps, written, origins) && |written| < |steps|
    requires Justified(w, steps[|written|], status, origin)
    requires !origin.AfterEnd? ==> NoneAfterEnd(origins) && NextMoment(origins) <= origin.moment
    ensures Recorded(w, steps, written + [status], origins + [origin])
    ensures origin.ByStep? ==> NextMoment(origins + [origin]) == origin.over
    ensures origin.ByPerson? ==> NextMoment(origins + [origin]) == origin.moment + 1
    ensures !origin.AfterEnd? ==> NoneAfterEnd(origins + [origin])
  {
    if origins != [] && !origin.AfterEnd? {
      var k := |origins| - 1;
      assert Justified(w, steps[k], written[k], origins[k]);
      hide Justified;
      assert forall i :: 0 <= i < k ==> origins[i].moment < origins[k].moment;
    }
  }

  /** What the pages and flags of the world say about the results of Steps that were performed. */
  ghost predicate AsThePagesSaid(w: World, steps: seq<Step>, written: seq<StepStatus>, origins: seq<Origin>) {
    forall i :: 0 <= i < |written| && i < |origins| && i < |steps| && origins[i].ByStep? ==>
      !w.lost(origins[i].over) &&
      var step, m := steps[i], origins[i].moment;
      if step.disabled then written[i].Skipped? && origins[i].over == m + 1
      else if step.takeover then written[i].Passed? && origins[i].over == m + 1
      else
        && origins[i].over == m + 3
        && !w.flags(m + 1).cancel && !w.flags(m + 1).pause
        && (written[i].Passed? <==> w.page(m + 2).works)
        && (written[i].Skipped? <==> !w.page(m + 2).works && w.page(m + 2).targetMissing && step.optional)
        && (written[i].Failed? <==> !w.page(m + 2).works && !(w.page(m + 2).targetMissing && step.optional))
  }

  lemma RecordedIsAsThePagesSaid(w: World, steps: seq<Step>, written: seq<StepStatus>, origins: seq<Origin>)
    requires Recorded(w, steps, written, origins)
    ensures AsThePagesSaid(w, steps, written, origins)
  {
    forall i | 0 <= i < |written| && i < |origins| && i < |steps| && origins[i].ByStep?
      ensures Justified(w, steps[i], written[i], origins[i])
    {
    }
  }

  /** A failure is put down to a challenge exactly if the page flagged one. */
  lemma FailedByPage(w: World, steps: seq<Step>, written: seq<StepStatus>, origins: seq<Origin>, challenge: bool)
    requires FailedWith(w, steps, written, origins, challenge)
    ensures exists i :: && 0 <= i < |written| && i < |origins| && written[i].Failed? && origins[i].ByStep?
                        && w.page(origins[i].moment + 2).challenge == challenge
  {
  }

  lemma FailedNow(w: World, steps: seq<Step>, written: seq<StepStatus>, origins: seq<Origin>, origin: Origin,
                  challenge: bool)
    requires |origins| == |written| < |steps| && origin.ByStep?
    requires Performance(w, steps[|written|], origin.moment) == Outcome(StepStatus.Failed, challenge)
    ensures FailedWith(w, steps, written + [StepStatus.Failed], origins + [origin], challenge)
  {
    hide Performance;
    var i := |written|;
    assert (written + [StepStatus.Failed])[i].Failed? && (origins + [origin])[i] == origin;
  }

  lemma StillExplained(w: World, steps: seq<Step>, status: RunStatus, reason: Option<FailureReason>,
                       before: seq<StepStatus>, written: seq<StepStatus>, origins: seq<Origin>, after: seq<Origin>)
    requires Explained(w, steps, status, reason, before, origins) && before <= written && origins <= after
    requires Recorded(w, steps, written, after) && !status.Succeeded?
    ensures Explained(w, steps, status, reason, written, after)
  {
    hide FailedWith, Recorded;
    if reason == Some(AuthChallenge) {
      FailedStays(w, steps, before, written, origins, after, true);
    } else if reason == Some(FailureReason.StepFailed) {
      FailedStays(w, steps, before, written, origins, after, false);
    }
  }

  lemma FailedStays(w: World, steps: seq<Step>, before: seq<StepStatus>, written: seq<StepStatus>,
                    origins: seq<Origin>, after: seq<Origin>, challenge: bool)
    requires FailedWith(w, steps, before, origins, challenge) && before <= written && origins <= after
    ensures FailedWith(w, steps, written, after, challenge)
  {
    hide Performance;
    var i :| && 0 <= i < |before| && i < |origins| && i < |steps| && before[i].Failed? && origins[i].ByStep?
             && Performance(w, steps[i], origins[i].moment) == Outcome(StepStatus.Failed, challenge);
    assert written[i] == before[i] && after[i] == origins[i];
  }

  // ---------------------------------------------------------------- time spent

  /** True length of the finished automation intervals. */
  function AutomationTime(spans: seq<Interval>): int {
    if spans == [] then 0
    else
      var last := spans[|spans| - 1];
      AutomationTime(spans[..|spans| - 1]) +
      if last.kind.Automation? && last.endedAt.Some? then last.endedAt.value - last.startedAt else 0
  }

  function AutomationCount(spans: seq<Interval>): nat {
    if spans == [] then 0
    else
      var last := spans[|spans| - 1];
      AutomationCount(spans[..|spans| - 1]) + if last.kind.Automation? && last.endedAt.Some? then 1 else 0
  }

  /** Each stretch of automation is rounded down to a millisecond on its own. */
  ghost predicate Accounted(spans: seq<Interval>, automationMs: nat) {
    1000 * automationMs <= AutomationTime(spans) <= 1000 * automationMs + 999 * AutomationCount(spans)
  }

  lemma OpenedAccount(spans: seq<Interval>, kind: Kind, at: int)
    ensures AutomationTime(spans + [Interval(kind, at, None)]) == AutomationTime(spans)
    ensures AutomationCount(spans + [Interval(kind, at, None)]) == AutomationCount(spans)
  {
    var more := spans + [Interval(kind, at, None)];
    assert more[..|more| - 1] == spans;
  }

  lemma ClosedAccount(spans: seq<Interval>, at: int)
    requires spans != [] && spans[|spans| - 1].endedAt.None?
    ensures var k := |spans| - 1;
            var closed := spans[..k] + [spans[k].(endedAt := Some(at))];
            var counts := spans[k].kind.Automation?;
            && AutomationTime(closed) == AutomationTime(spans) + (if counts then at - spans[k].startedAt else 0)
            && AutomationCount(closed) == AutomationCount(spans) + (if counts then 1 else 0)
  {
    var k := |spans| - 1;
    var closed := spans[..k] + [spans[k].(endedAt := Some(at))];
    assert closed[..k] == spans[..k];
  }

  lemma LongerIsMore(a: int, b: int)
    requires a <= b
    ensures a / 1000 <= b / 1000
  {
  }

  // ---------------------------------------------------------------- hand-back

  /** A reading of the success check that was `b`; without a check there is no reading. */
  predicate Is(reading: Option<bool>, b: bool) {
    reading.Some? && reading.value == b
  }

  /** A turn of the park loop takes five moments: it reads the flags, looks at the page, notes the
      time when a person arrives, when the grace begins, and when it asks whether the grace is over.
      `first` is the moment at which the first turn since the Run began to wait begins. */
  function Base(first: nat, turn: nat): nat { first + 5 * turn }

  function FlagsIn(w: World, first: nat, turn: nat): Flags { FlagsAt(w, Base(first, turn)) }

  function MetIn(w: World, first: nat, turn: nat): bool { MetAt(w, Base(first, turn) + 1) }

  function ArrivedIn(w: World, first: nat, turn: nat): int { Clock(w, Base(first, turn) + 2) }

  function GraceFrom(w: World, first: nat, turn: nat): int { Clock(w, Base(first, turn) + 3) }

  function AskedIn(w: World, first: nat, turn: nat): int { Clock(w, Base(first, turn) + 4) }

  /** A person had arrived before the turn. */
  ghost predicate PersonBefore(w: World, first: nat, turn: nat) {
    exists h: nat :: h < turn && FlagsIn(w, first, h).holder
  }

  /** In this turn a person was there, the check was met and automatic hand-back was on. */
  ghost predicate Holds(w: World, first: nat, turn: nat) {
    PersonBefore(w, first, turn + 1) && MetIn(w, first, turn) && !FlagsIn(w, first, turn).autoDisabled
  }

  /** In all turns from `i` to before `j`. */
  ghost predicate HeldOver(w: World, first: nat, i: nat, j: nat) {
    forall k: nat :: i <= k < j ==> Holds(w, first, k)
  }

  /** Automatic hand-back is due: over some stretch of turns up to this one, lasting at least the
      grace, all in one human phase, everything held at every poll. */
  ghost predicate GraceOver(w: World, first: nat, turn: nat) {
    exists i: nat ::
      && i <= turn && HeldOver(w, first, i, turn + 1)
      && AskedIn(w, first, turn) - GraceFrom(w, first, i) >= HAND_BACK_GRACE
  }

  /** Whether this turn hands back: a person is there and asked for it, or the grace is over. */
  ghost predicate MayHandBack(w: World, first: nat, turn: nat, successCheck: bool) {
    && PersonBefore(w, first, turn + 1)
    && (FlagsIn(w, first, turn).handback || (successCheck && GraceOver(w, first, turn)))
  }

  /** No turn before this one hands back. */
  ghost predicate NoneHandsBack(w: World, first: nat, turn: nat, successCheck: bool) {
    forall i: nat :: i < turn ==> !MayHandBack(w, first, i, successCheck)
  }

  /** When each of these turns began the Run was still this Worker's. */
  ghost predicate StillOurs(w: World, first: nat, turns: nat) {
    forall i: nat :: i < turns ==> !w.lost(Base(first, i))
  }

  /** A person was seen in some turn up to this one. */
  ghost predicate SeenBy(w: World, first: nat, turn: nat) {
    exists h: nat :: h <= turn && w.flags(Base(first, h)).holder
  }

  /** At every poll of these turns the check was met and automatic hand-back was on. */
  ghost predicate MetThroughout(w: World, first: nat, i: nat, turn: nat) {
    forall k: nat :: i <= k <= turn ==> w.met(Base(first, k) + 1) && !w.flags(Base(first, k)).autoDisabled
  }

  /** When a turn hands back, in seconds and looks at the world: a person was seen in it or before it, and
      either asked to go on, or the check was met, with a person there and automatic hand-back on, at
      every poll of a stretch of at least six seconds up to now. */
  lemma HandsBackExactly(w: World, first: nat, turn: nat, successCheck: bool)
    ensures MayHandBack(w, first, turn, successCheck) <==>
              && SeenBy(w, first, turn)
              && (w.flags(Base(first, turn)).handback ||
                  (successCheck &&
                   exists i: nat ::
                     && i <= turn && SeenBy(w, first, i) && MetThroughout(w, first, i, turn)
                     && w.clock(Base(first, turn) + 4) - w.clock(Base(first, i) + 3) >= 6_000_000))
    ensures forall h: nat :: Base(first, h) == first + 5 * h
  {
    hide SeenBy, MetThroughout, HeldOver, PersonBefore;
    PersonSeen(w, first, turn);
    if GraceOver(w, first, turn) {
      var i: nat :| i <= turn && HeldOver(w, first, i, turn + 1)
                    && AskedIn(w, first, turn) - GraceFrom(w, first, i) >= HAND_BACK_GRACE;
      HeldMeans(w, first, i, turn);
    }
    if i: nat :| && i <= turn && SeenBy(w, first, i) && MetThroughout(w, first, i, turn)
                 && w.clock(Base(first, turn) + 4) - w.clock(Base(first, i) + 3) >= 6_000_000 {
      HeldMeans(w, first, i, turn);
      assert AskedIn(w, first, turn) - GraceFrom(w, first, i) >= HAND_BACK_GRACE;
    }
  }

  lemma HeldMeans(w: World, first: nat, i: nat, turn: nat)
    requires i <= turn
    ensures HeldOver(w, first, i, turn + 1) <==> SeenBy(w, first, i) && MetThroughout(w, first, i, turn)
  {
    forall k: nat | i <= k <= turn
      ensures Holds(w, first, k) <==>
                SeenBy(w, first, k) && w.met(Base(first, k) + 1) && !w.flags(Base(first, k)).autoDisabled
      ensures SeenBy(w, first, i) ==> SeenBy(w, first, k)
    {
      PersonSeen(w, first, k);
    }
    hide SeenBy, Holds;
    if HeldOver(w, first, i, turn + 1) {
      assert Holds(w, first, i);
    }
  }

  lemma PersonSeen(w: World, first: nat, j: nat)
    ensures PersonBefore(w, first, j + 1) <==> SeenBy(w, first, j)
  {
    if PersonBefore(w, first, j + 1) {
      var h: nat :| h < j + 1 && FlagsIn(w, first, h).holder;
      assert w.flags(Base(first, h)).holder;
    }
    if SeenBy(w, first, j) {
      var h: nat :| h <= j && w.flags(Base(first, h)).holder;
      assert FlagsIn(w, first, h).holder;
    }
  }

  lemma PersonNow(w: World, first: nat, turn: nat)
    ensures PersonBefore(w, first, turn + 1) <==> PersonBefore(w, first, turn) || FlagsIn(w, first, turn).holder
  {
  }

  /** The grace that the loop remembers: where the current stretch of turns began in which all held. */
  ghost predicate GraceRemembered(w: World, first: nat, turn: nat, graceEndsAt: Option<int>, since: nat) {
    if graceEndsAt.Some? then
      && since < turn && HeldOver(w, first, since, turn) && (since > 0 ==> !Holds(w, first, since - 1))
      && graceEndsAt.value == GraceFrom(w, first, since) + HAND_BACK_GRACE
    else turn > 0 ==> !Holds(w, first, turn - 1)
  }

  /** The remembered end of the grace decides exactly whether the grace is over. */
  lemma GraceDecides(w: World, first: nat, turn: nat, graceEndsAt: Option<int>, since: nat)
    requires Forward(w) && GraceRemembered(w, first, turn + 1, graceEndsAt, since)
    ensures GraceOver(w, first, turn) <==> graceEndsAt.Some? && AskedIn(w, first, turn) >= graceEndsAt.value
    ensures graceEndsAt.Some? ==> Holds(w, first, turn)
  {
    hide Holds, Forward;
    if GraceOver(w, first, turn) {
      var i: nat :| i <= turn && HeldOver(w, first, i, turn + 1)
                    && AskedIn(w, first, turn) - GraceFrom(w, first, i) >= HAND_BACK_GRACE;
      assert Holds(w, first, turn);
      ClockForward(w, Base(first, since) + 3, Base(first, i) + 3);
    }
  }

  /** The grace after one more turn. */
  lemma GraceGoesOn(w: World, first: nat, turn: nat, graceEndsAt: Option<int>, since: nat)
    requires GraceRemembered(w, first, turn, graceEndsAt, since)
    ensures !Holds(w, first, turn) ==> GraceRemembered(w, first, turn + 1, None, since)
    ensures Holds(w, first, turn) && graceEndsAt.Some? ==> GraceRemembered(w, first, turn + 1, graceEndsAt, since)
    ensures Holds(w, first, turn) && graceEndsAt.None? ==>
              GraceRemembered(w, first, turn + 1, Some(GraceFrom(w, first, turn) + HAND_BACK_GRACE), turn)
  {
    hide Holds;
  }

  /** A turn's decisions about the grace are the right ones. */
  lemma GraceAfterTurn(w: World, first: nat, turn: nat, before: Option<int>, since: nat, human: bool,
                       after: Option<int>, since': nat)
    requires Forward(w) && GraceRemembered(w, first, turn, before, since)
    requires human <==> PersonBefore(w, first, turn + 1)
    requires var held := human && MetIn(w, first, turn) && !FlagsIn(w, first, turn).autoDisabled;
             if !held then after.None?
             else if before.Some? then after == before && since' == since
             else after == Some(GraceFrom(w, first, turn) + HAND_BACK_GRACE) && since' == turn
    ensures GraceRemembered(w, first, turn + 1, after, since')
    ensures GraceOver(w, first, turn) <==> after.Some? && AskedIn(w, first, turn) >= after.value
  {
    GraceGoesOn(w, first, turn, before, since);
    hide GraceRemembered, GraceOver, Forward;
    GraceDecides(w, first, turn, after, since');
  }

  lemma NoGrace(w: World, first: nat, turn: nat, since: nat)
    requires !MetIn(w, first, turn)
    ensures GraceRemembered(w, first, turn + 1, None, since) && !GraceOver(w, first, turn)
  {
    assert !Holds(w, first, turn);
  }

  lemma NoPersonNoHandBack(w: World, first: nat, turn: nat, successCheck: bool)
    ensures MayHandBack(w, first, turn, successCheck) ==> PersonBefore(w, first, turn + 1)
  {
  }

  /** A grace that is running began with a person there and the check met. */
  lemma RunningGrace(w: World, first: nat, turn: nat, graceEndsAt: Option<int>, since: nat)
    requires GraceRemembered(w, first, turn, graceEndsAt, since) && graceEndsAt.Some?
    ensures turn > 0 && PersonBefore(w, first, turn) && MetIn(w, first, turn - 1)
  {
    assert Holds(w, first, turn - 1);
  }

  // ---------------------------------------------------------------- what happened meanwhile

  /** The transaction is among those committed since `before`. */
  ghost predicate Does(before: seq<Event>, after: seq<Event>, e: Event) {
    exists k :: |before| <= k < |after| && after[k] == e
  }

  lemma DoesStays(before: seq<Event>, from: seq<Event>, mid: seq<Event>, after: seq<Event>, e: Event)
    requires before <= from && mid <= after
    requires from + [e] <= mid || Does(from, mid, e)
    ensures Does(before, after, e)
  {
    if from + [e] <= mid {
      assert after[|from|] == mid[|from|] == (from + [e])[|from|];
    } else {
      var k :| |from| <= k < |mid| && mid[k] == e;
      assert after[k] == e;
    }
  }

  /** A spell of waiting begins when the Run is parked or after a verification that failed. */
  predicate SpellBegins(w: World, start: nat, first: nat, successCheck: bool) {
    first == start + 2 || (first >= start + 5 && successCheck && !MetAt(w, first - 2))
  }

  /** The human phase ended when the verification began. */
  function VerifiedSpans(before: seq<Interval>, begun: int, over: int): seq<Interval>
    requires before != []
  {
    var k := |before| - 1;
    before[..k] + [before[k].(endedAt := Some(begun)), Interval(Kind.Verifying, begun, Some(over))]
  }

  lemma LastVerified(before: seq<Interval>, begun: int, over: int)
    requires before != []
    ensures var after := VerifiedSpans(before, begun, over);
            after != [] && after[|after| - 1] == Interval(Kind.Verifying, begun, Some(over))
  {
  }

  lemma PhasesFollow(before: seq<Interval>, verifying: seq<Interval>, begun: int, over: int)
    requires before != [] && var k := |before| - 1;
             verifying == before[..k] + [before[k].(endedAt := Some(begun)), Interval(Kind.Verifying, begun, None)]
    ensures var k := |before|;
            verifying[..k] + [verifying[k].(endedAt := Some(over))] == VerifiedSpans(before, begun, over)
  {
  }

  // ---------------------------------------------------------------- agreement

  function AsResults(written: seq<StepStatus>): Results {
    map p: nat | p < |written| :: written[p]
  }

  /** While the Run is live its rows are what the Worker wrote; once it has ended they are complete. */
  ghost predicate Agrees(n: nat, s: State, written: seq<StepStatus>, spans: seq<Interval>, parked: bool) {
    && Inv(n, s)
    && s.row.startedAt.Some?
    && |written| <= n
    && |s.intervals| == |spans|
    && (!Terminal(s.row.status) ==>
          s.results == AsResults(written) && s.intervals == spans &&
          s.row.status == if parked then Waiting else Running)
  }

  predicate Foreign(e: Event) {
    !FromWorker(e) || e.Claim?
  }

  lemma ForeignKeepsAgreement(n: nat, s: State, e: Event, written: seq<StepStatus>, spans: seq<Interval>, parked: bool)
    requires Agrees(n, s, written, spans, parked) && Foreign(e)
    ensures Agrees(n, Apply(n, s, e), written, spans, parked) && Disciplined(n, s, e)
    ensures Terminal(s.row.status) ==> Apply(n, s, e) == s
    ensures Spanned(spans, e) == spans
  {
    ApplyKeepsInv(n, s, e);
  }

  lemma AsResultsAppend(written: seq<StepStatus>, status: StepStatus)
    ensures AsResults(written)[|written| := status] == AsResults(written + [status])
    ensures PrefixOf(AsResults(written), |written|)
  {
  }

  ghost predicate NoFailure(written: seq<StepStatus>) {
    forall i :: 0 <= i < |written| ==> !written[i].Failed?
  }

  lemma NoFailureInResults(written: seq<StepStatus>)
    ensures NoneFailed(AsResults(written)) <==> NoFailure(written)
  {
    var m := AsResults(written);
    if NoneFailed(m) {
      forall i | 0 <= i < |written|
        ensures !written[i].Failed?
      {
        assert i in m;
      }
    }
  }

  lemma CompleteResults(written: seq<StepStatus>)
    ensures Complete(|written|, AsResults(written))
  {
  }

  /** The Worker's next result is accepted while the Run is live and rejected once it has ended. */
  lemma ResultKeepsAgreement(n: nat, s: State, status: StepStatus, written: seq<StepStatus>, spans: seq<Interval>)
    requires Agrees(n, s, written, spans, false) && |written| < n
    requires NoFailure(written) || status.Skipped?
    ensures Disciplined(n, s, AddResult(|written|, status))
    ensures |written| in s.results <==> Terminal(s.row.status)
    ensures var t := Apply(n, s, AddResult(|written|, status));
            t.row == s.row && Agrees(n, t, if Terminal(s.row.status) then written else written + [status], spans, false)
  {
    AsResultsAppend(written, status);
    NoFailureInResults(written);
    assert Disciplined(n, s, AddResult(|written|, status));
    AddResultKeepsInv(n, s, |written|, status);
  }

  lemma ParkKeepsAgreement(n: nat, s: State, deadlineAt: int, at: int, written: seq<StepStatus>, spans: seq<Interval>)
    requires Agrees(n, s, written, spans, false) && NoFailure(written)
    ensures Disciplined(n, s, Park(deadlineAt, at))
    ensures Agrees(n, Apply(n, s, Park(deadlineAt, at)), written, spans, true)
  {
    NoFailureInResults(written);
    ApplyKeepsInv(n, s, Park(deadlineAt, at));
  }

  lemma ResumeKeepsAgreement(n: nat, s: State, at: int, written: seq<StepStatus>, spans: seq<Interval>)
    requires Agrees(n, s, written, spans, true)
    ensures Disciplined(n, s, Resume(at)) && Disciplined(n, s, ReleaseHolder(at))
    ensures Agrees(n, Apply(n, s, Resume(at)), written, spans, false)
    ensures Agrees(n, Apply(n, s, ReleaseHolder(at)), written, spans, true)
  {
    ApplyKeepsInv(n, s, Resume(at));
    ApplyKeepsInv(n, s, ReleaseHolder(at));
  }

  lemma OpenKeepsAgreement(n: nat, s: State, kind: Kind, at: int, written: seq<StepStatus>, spans: seq<Interval>,
                           parked: bool)
    requires Agrees(n, s, written, spans, parked)
    ensures Disciplined(n, s, StartInterval(kind, at))
    ensures Agrees(n, Apply(n, s, StartInterval(kind, at)), written, spans + [Interval(kind, at, None)], parked)
  {
    ApplyKeepsInv(n, s, StartInterval(kind, at));
  }

  lemma CloseKeepsAgreement(n: nat, s: State, at: int, written: seq<StepStatus>, spans: seq<Interval>, parked: bool)
    requires Agrees(n, s, written, spans, parked) && spans != []
    ensures var k := |spans| - 1;
            && Disciplined(n, s, EndInterval(k, at))
            && Agrees(n, Apply(n, s, EndInterval(k, at)), written,
                      spans[..k] + [spans[k].(endedAt := Some(at))], parked)
  {
    var k := |spans| - 1;
    ApplyKeepsInv(n, s, EndInterval(k, at));
    assert spans[k := spans[k].(endedAt := Some(at))] == spans[..k] + [spans[k].(endedAt := Some(at))];
  }

  lemma AgreesImplies(n: nat, s: State, written: seq<StepStatus>, spans: seq<Interval>, parked: bool)
    requires Agrees(n, s, written, spans, parked)
    ensures Inv(n, s) && |s.intervals| == |spans|
  {
  }

  /** The one failed Step, if any, is the last one written. */
  ghost predicate FailedLast(written: seq<StepStatus>) {
    written != [] && written[|written| - 1].Failed? && NoFailure(written[..|written| - 1])
  }

  /** The results so far allow the Run to end this way once the rest is skipped. */
  ghost predicate MayEnd(status: RunStatus, reason: Option<FailureReason>, written: seq<StepStatus>) {
    match status
    case Succeeded => reason.None? && NoFailure(written)
    case Cancelled => reason.None? && NoFailure(written)
    case Failed =>
      reason.Some? &&
      (match reason.value
       case RunTimeout => NoFailure(written)
       case StepFailed => FailedLast(written)
       case AuthChallenge => FailedLast(written)
       case MissingSecret => written == []
       case StartupFailed => written == []
       case _ => false)
    case _ => false
  }

  /** Skipping every later Step gives the results the shape of the outcome. */
  lemma SkippedRestHasShape(status: RunStatus, reason: Option<FailureReason>, before: seq<StepStatus>,
                            written: seq<StepStatus>)
    requires MayEnd(status, reason, before) && before <= written
    requires forall i :: |before| <= i < |written| ==> written[i].Skipped?
    ensures Shape(status, reason, AsResults(written))
  {
    var m := AsResults(written);
    if FailedLast(before) {
      var k := |before| - 1;
      assert k in m && m[k].Failed?;
      forall i | 0 <= i < |written| && i != k
        ensures !written[i].Failed?
      {
        if i < k {
          assert written[i] == before[..k][i];
        }
      }
    } else {
      NoFailureInResults(written);
      if NoFailure(before) {
        assert NoFailure(written);
      }
    }
  }

  /** While the Run is still running, `finish_run` ends it with exactly what the Worker wrote. */
  lemma FinishKeepsAgreement(n: nat, s: State, status: RunStatus, reason: Option<FailureReason>, ms: nat, at: int,
                             written: seq<StepStatus>, spans: seq<Interval>)
    requires Agrees(n, s, written, spans, false) && |written| == n && Shape(status, reason, AsResults(written))
    ensures Disciplined(n, s, Finish(status, reason, ms, at))
    ensures var t := Apply(n, s, Finish(status, reason, ms, at));
            && Agrees(n, t, written, spans, false) && Terminal(t.row.status)
            && (s.row.status.Running? ==>
                  t.row.status == status && t.row.reason == reason && t.row.automationMs == ms &&
                  t.row.endedAt == Some(at) &&
                  t.results == AsResults(written) && t.intervals == spans)
            && (!s.row.status.Running? ==> t == s)
  {
    CompleteResults(written);
    ApplyKeepsInv(n, s, Finish(status, reason, ms, at));
  }

  /** Whether an outcome may be recorded for a Step. */
  predicate Fits(step: Step, status: StepStatus) {
    && (status.Skipped? ==> step.disabled || step.optional)
    && (step.disabled ==> status.Skipped?)
  }

  /** Only disabled and optional Steps were skipped, and every disabled one. */
  ghost predicate SkipsHaveReason(steps: seq<Step>, written: seq<StepStatus>) {
    |written| <= |steps| && forall i :: 0 <= i < |written| ==> Fits(steps[i], written[i])
  }

  lemma OneMoreOutcome(steps: seq<Step>, before: seq<StepStatus>, status: StepStatus, challenge: bool)
    requires |before| < |steps| && SkipsHaveReason(steps, before) && NoFailure(before) && Fits(steps[|before|], status)
    ensures SkipsHaveReason(steps, before + [status])
    ensures if status.Failed? then MayEnd(RunStatus.Failed, Some(FailureOf(challenge)), before + [status])
            else NoFailure(before + [status])
  {
    var written := before + [status];
    assert written[..|written| - 1] == before;
  }

  /** `failure_reason_for`. */
  function FailureOf(challenge: bool): FailureReason {
    if challenge then AuthChallenge else FailureReason.StepFailed
  }

  lemma PerformedFits(w: World, step: Step, moment: nat)
    requires !w.lost(PerformedBy(step, moment))
    ensures Performance(w, step, moment).Outcome? ==>
              && Fits(step, Performance(w, step, moment).status)
              && Justified(w, step, Performance(w, step, moment).status, ByStep(moment, PerformedBy(step, moment)))
              && PerformedBy(step, moment) > moment
  {
  }

  class Worker {
    const tables: Tables
    const trace: TraceCapture
    const work: Work
    const world: World
    var cursor: nat               // the next moment of the world
    var now: int                  // when the Worker last looked at the clock
    var life: nat                 // polls of a parked Run before the process is killed
    var automationMs: nat
    var inAutomation: bool
    var automationClock: int
    var interval: Option<nat>
    var lost: bool
    ghost var began: int
    ghost var parked: bool
    ghost var parks: nat                // how often the Worker parked the Run
    ghost var decided: int              // its automation time when the loop over the Steps had ended
    ghost var written: seq<StepStatus>
    ghost var origins: seq<Origin>      // where they come from
    ghost var spans: seq<Interval>
    ghost var watched: seq<Watched>

    /** A Worker that has just claimed the Run of `tables` and has written nothing yet. */
    constructor (tables: Tables, work: Work, world: World, life: nat)
      requires Forward(world) && tables.Valid() && tables.n == |work.steps|
      requires Obeys(tables.n, tables.queuedAt, tables.history)
      requires Agrees(tables.n, tables.State(), [], [], false)
      ensures Valid() && fresh(trace) && this.tables == tables && this.work == work && this.world == world
      ensures !inAutomation && interval.None? && !parked && written == [] && spans == [] && !lost
      ensures trace.Quiet() && trace.reasons == {} && !trace.active && origins == []
    {
      this.tables := tables;
      this.trace := new TraceCapture();
      this.work := work;
      this.world := world;
      cursor := 0;
      now := Clock(world, 0);
      this.life := life;
      automationMs := 0;
      inAutomation := false;
      automationClock := Clock(world, 0);
      interval := None;
      lost := false;
      began := Clock(world, 0);
      parked := false;
      parks := 0;
      decided := 0;
      written := [];
      origins := [];
      spans := [];
      watched := [];
      HistoryMerges(tables.n, tables.queuedAt, tables.history);
    }

    ghost predicate OnTime()
      reads `spans, `began, `interval, `now, `cursor
    {
      && Forward(world) && now <= Clock(world, cursor)
      && Tiled(spans, began)
      && began <= now
      && (spans != [] ==>
            var last := spans[|spans| - 1];
            (if last.endedAt.Some? then last.endedAt.value else last.startedAt) <= now)
      && (interval.Some? ==> spans != [] && interval.value == |spans| - 1 && spans[|spans| - 1].endedAt.None?)
      && (interval.None? ==> spans != [] ==> spans[|spans| - 1].endedAt.Some?)
    }

    /** The promises: what the database, the trace and the record of this Worker have to do with one another. */
    ghost predicate Sound()
      reads `written, `spans, `parked, `watched, tables, trace
    {
      && tables.Valid() && trace.Valid()
      && tables.n == |work.steps|
      && Obeys(tables.n, tables.queuedAt, tables.history)
      && Agrees(tables.n, tables.State(), written, spans, parked)
      && spans == WorkerSpans(tables.history)
      && forall i :: 0 <= i < |watched| ==>
           match watched[i]
           case StepDone(secret, traced) => !(secret && traced)
           case ParkPolled(traced) => !traced
    }

    /** Everything but the accounting. */
    ghost predicate Core()
      reads `written, `spans, `parked, `watched, `began, `interval, `now, `cursor, tables, trace
    {
      Sound() && OnTime()
    }

    ghost predicate Valid()
      reads `written, `spans, `parked, `watched, `began, `interval, `now, `cursor, `automationMs, `inAutomation,
            `automationClock, tables, trace
    {
      && Core()
      && Accounted(spans, automationMs)
      && (inAutomation <==> interval.Some? && spans[|spans| - 1].kind.Automation?)
      && (inAutomation ==> spans[|spans| - 1].startedAt == automationClock)
    }

    // ------------------------------------------------------------ the world outside

    method Now() returns (at: int)
      requires Forward(world) && now <= Clock(world, cursor)
      modifies `now, `cursor
      ensures at == now == Clock(world, old(cursor)) && now >= old(now)
      ensures cursor == old(cursor) + 1 && now <= Clock(world, cursor)
    {
      at := world.clock(cursor);
      now := at;
      cursor := cursor + 1;
      ClockForward(world, old(cursor), cursor);
    }

    /** A moment goes by at which the Worker does not look. */
    method Skip()
      requires Forward(world) && now <= Clock(world, cursor)
      modifies `cursor
      ensures cursor == old(cursor) + 1 && now <= Clock(world, cursor)
    {
      cursor := cursor + 1;
      ClockForward(world, old(cursor), cursor);
    }

    method ReadFlags() returns (flags: Flags)
      requires Forward(world) && now <= Clock(world, cursor)
      modifies `cursor
      ensures flags == FlagsAt(world, old(cursor))
      ensures cursor == old(cursor) + 1 && now <= Clock(world, cursor)
    {
      flags := world.flags(cursor);
      Skip();
    }

    /** The success check of a takeover, when it has one. */
    method PollCheck(successCheck: bool) returns (met: Option<bool>)
      requires Forward(world) && now <= Clock(world, cursor)
      modifies `cursor
      ensures met == if successCheck then Some(MetAt(world, old(cursor))) else None
      ensures cursor == old(cursor) + 1 && now <= Clock(world, cursor)
    {
      met := if successCheck then Some(world.met(cursor)) else None;
      Skip();
    }

    method IsLost() returns (b: bool)
      modifies `lost
      ensures b == lost && (lost <==> old(lost) || world.lost(cursor))
    {
      lost := lost || world.lost(cursor);
      b := lost;
    }

    /** Anything the API, the minute loop or another Worker commits before this Worker's next transaction. */
    method Interfere()
      requires Core()
      modifies tables
      ensures Core() && old(tables.history) <= tables.history
      ensures old(Terminal(tables.row.status)) ==> tables.State() == old(tables.State())
    {
      var events: seq<Event> := *;
      var i := 0;
      while i < |events|
        invariant Core() && old(tables.history) <= tables.history
        invariant old(Terminal(tables.row.status)) ==> tables.State() == old(tables.State())
      {
        if Foreign(events[i]) {
          Admit(events[i]);
        }
        i := i + 1;
      }
    }

    method Admit(e: Event)
      requires Core() && Foreign(e)
      modifies tables
      ensures Core() && old(tables.history) <= tables.history
      ensures old(Terminal(tables.row.status)) ==> tables.State() == old(tables.State())
    {
      hide Agrees, Obeys, Apply, Disciplined, Inv, Replay, WorkerSpans, Spanned, Tiled, Forward;
      ForeignKeepsAgreement(tables.n, tables.State(), e, written, spans, parked);
      AgreesImplies(tables.n, tables.State(), written, spans, parked);
      Committed(tables.history, e);
      if e.Claim? {
        var claimed := tables.Claim(e.worker, e.at);
      } else {
        tables.Outside(e);
      }
    }

    // ------------------------------------------------------------ the Worker's own transactions

    /** The bookkeeping every transaction of this Worker shares. */
    lemma Committed(h: seq<Event>, e: Event)
      requires Obeys(tables.n, tables.queuedAt, h)
      requires Inv(tables.n, Replay(tables.n, tables.queuedAt, h))
      requires Disciplined(tables.n, Replay(tables.n, tables.queuedAt, h), e)
      ensures var s := Replay(tables.n, tables.queuedAt, h);
              && Obeys(tables.n, tables.queuedAt, h + [e])
              && Replay(tables.n, tables.queuedAt, h + [e]) == Apply(tables.n, s, e)
              && Inv(tables.n, Apply(tables.n, s, e))
              && WorkerSpans(h + [e]) == Spanned(WorkerSpans(h), e)
    {
      WorkerSpansStep(h, e);
      assert (h + [e])[..|h + [e]| - 1] == h;
      ApplyKeepsInv(tables.n, Replay(tables.n, tables.queuedAt, h), e);
    }

    /** Every result so far is what the world made of its Step. */
    ghost predicate Told()
      reads `written, `origins
    {
      Recorded(world, work.steps, written, origins) && Looked(world, origins)
    }

    lemma ToldLength()
      requires Told()
      ensures |origins| == |written| <= |work.steps|
    {
    }

    /** `store.add_result`; `added` is false when the database rejects the row. */
    method AddResult(position: nat, status: StepStatus, ghost origin: Origin) returns (added: bool)
      requires Valid() && Told() && !parked && !lost && position == |written| < |work.steps|
      requires NoFailure(written) || status.Skipped?
      requires Justified(world, work.steps[position], status, origin)
      requires !origin.AfterEnd? ==> NoneAfterEnd(origins) && NextMoment(origins) <= origin.moment
      requires Looked(world, origins + [origin])
      modifies `written, `origins, tables
      ensures Valid() && Told() && old(tables.history) <= tables.history
      ensures added ==> written == old(written) + [status] && origins == old(origins) + [origin]
      ensures !added ==> written == old(written) && origins == old(origins) && Terminal(tables.row.status)
    {
      hide Agrees, Obeys, Apply, Disciplined, Inv, Replay, WorkerSpans, Tiled, Accounted, Recorded, Looked, Justified,
        NextMoment;
      OneMoreRecorded(world, work.steps, written, origins, status, origin);
      ResultKeepsAgreement(tables.n, tables.State(), status, written, spans);
      AgreesImplies(tables.n, tables.State(), written, spans, parked);
      Committed(tables.history, Event.AddResult(position, status));
      added := tables.AddResult(position, status);
      if added {
        written := written + [status];
        origins := origins + [origin];
      }
      Interfere();
    }

    /** `_skip_remaining`. */
    method SkipRemaining(start: nat) returns (added: bool)
      requires Valid() && Told() && !parked && !lost && start == |written|
      modifies `written, `origins, tables
      ensures Valid() && Told()
      ensures added ==> |written| == |work.steps|
      ensures !added ==> Terminal(tables.row.status)
      ensures old(written) <= written && old(origins) <= origins && old(tables.history) <= tables.history
      ensures forall i :: |old(written)| <= i < |written| ==> written[i].Skipped?
      ensures forall i :: |old(origins)| <= i < |origins| ==> origins[i].AfterEnd?
    {
      hide Sound, OnTime, Accounted, Recorded, Looked;
      added := true;
      var position := start;
      ToldLength();
      while added && position < |work.steps|
        invariant Valid() && Told() && !parked && position <= |work.steps|
        invariant added ==> position == |written|
        invariant !added ==> Terminal(tables.row.status)
        invariant old(written) <= written && old(origins) <= origins && old(tables.history) <= tables.history
        invariant forall i :: |old(written)| <= i < |written| ==> written[i].Skipped?
        invariant forall i :: |old(origins)| <= i < |origins| ==> origins[i].AfterEnd?
      {
        RestIsLooked(world, origins, origins + [AfterEnd]);
        added := AddResult(position, Skipped, AfterEnd);
        position := position + 1;
      }
    }

    /** `open_kind`. */
    method OpenKind(kind: Kind, at: int)
      requires Core() && interval.None? && !inAutomation && at <= now
      requires if spans == [] then at == began && kind.Automation?
               else Follows(spans[|spans| - 1].kind, kind) && spans[|spans| - 1].endedAt == Some(at)
      modifies `interval, `spans, tables
      ensures Core() && interval == Some(|old(spans)|) && old(tables.history) <= tables.history
      ensures spans == old(spans) + [Interval(kind, at, None)]
    {
      hide Agrees, Obeys, Apply, Disciplined, Inv, Replay, WorkerSpans, Accounted, Forward;
      AgreesImplies(tables.n, tables.State(), written, spans, parked);
      OpenKeepsAgreement(tables.n, tables.State(), kind, at, written, spans, parked);
      Committed(tables.history, Event.StartInterval(kind, at));
      var handle := tables.StartInterval(kind, at);
      interval := Some(handle);
      spans := spans + [Interval(kind, at, None)];
      Interfere();
    }

    /** `close_open`. */
    method CloseOpen(at: int)
      requires Core() && at <= now
      requires interval.Some? ==> spans[|spans| - 1].startedAt <= at
      modifies `interval, `spans, tables
      ensures Core() && interval.None? && old(tables.history) <= tables.history
      ensures old(interval).None? ==> spans == old(spans)
      ensures old(interval).Some? ==>
                var k := |old(spans)| - 1;
                spans == old(spans)[..k] + [old(spans)[k].(endedAt := Some(at))]
    {
      hide Agrees, Obeys, Apply, Disciplined, Inv, Replay, WorkerSpans, Accounted, Forward;
      if interval.Some? {
        ghost var k := |spans| - 1;
        AgreesImplies(tables.n, tables.State(), written, spans, parked);
        CloseKeepsAgreement(tables.n, tables.State(), at, written, spans, parked);
        Committed(tables.history, Event.EndInterval(interval.value, at));
        tables.EndInterval(interval.value, at);
        assert spans[k := spans[k].(endedAt := Some(at))] == spans[..k] + [spans[k].(endedAt := Some(at))];
        spans := spans[..k] + [spans[k].(endedAt := Some(at))];
        interval := None;
        Interfere();
      }
    }

    method LeaveAutomation(at: int)
      requires Valid() && at == now
      modifies `automationMs, `inAutomation, `interval, `spans, tables
      ensures Valid() && interval.None? && !inAutomation && automationMs == old(Spent())
      ensures old(tables.history) <= tables.history
      ensures old(interval).None? ==> spans == old(spans)
      ensures old(interval).Some? ==>
                var k := |old(spans)| - 1;
                spans == old(spans)[..k] + [old(spans)[k].(endedAt := Some(at))]
    {
      hide Sound, Tiled;
      if interval.Some? {
        ClosedAccount(spans, at);
      }
      if inAutomation {
        automationMs := automationMs + (at - automationClock) / 1000;
        inAutomation := false;
      }
      CloseOpen(at);
    }

    method EnterAutomation(at: int)
      requires Valid() && interval.None? && at == now
      requires if spans == [] then at == began
               else Follows(spans[|spans| - 1].kind, Automation) && spans[|spans| - 1].endedAt == Some(at)
      modifies `automationClock, `inAutomation, `interval, `spans, tables
      ensures Valid() && inAutomation
      ensures spans == old(spans) + [Interval(Automation, at, None)]
      ensures old(tables.history) <= tables.history
    {
      hide Sound, Tiled, Forward;
      OpenedAccount(spans, Automation, at);
      OpenKind(Automation, at);
      automationClock := at;
      inAutomation := true;
    }

    /** Open an interval in which automation does not run. */
    method OpenPhase(kind: Kind, at: int)
      requires Valid() && interval.None? && !inAutomation && at == now && !kind.Automation?
      requires spans != [] && Follows(spans[|spans| - 1].kind, kind) && spans[|spans| - 1].endedAt == Some(at)
      modifies `interval, `spans, tables
      ensures Valid() && interval.Some? && spans == old(spans) + [Interval(kind, at, None)]
      ensures old(tables.history) <= tables.history
    {
      OpenedAccount(spans, kind, at);
      OpenKind(kind, at);
    }

    method ClosePhase(at: int)
      requires Valid() && !inAutomation && interval.Some? && at == now
      modifies `interval, `spans, tables
      ensures Valid() && interval.None?
      ensures var k := |old(spans)| - 1;
              spans == old(spans)[..k] + [old(spans)[k].(endedAt := Some(at))]
      ensures old(tables.history) <= tables.history
    {
      ClosedAccount(spans, at);
      CloseOpen(at);
    }

    /** Close the open phase and start the next one at the same instant. */
    method SwitchPhase(kind: Kind, at: int)
      requires Valid() && !inAutomation && interval.Some? && at == now && !kind.Automation?
      requires Follows(spans[|spans| - 1].kind, kind)
      modifies `interval, `spans, tables
      ensures Valid() && interval.Some?
      ensures var k := |old(spans)| - 1;
              spans == old(spans)[..k] + [old(spans)[k].(endedAt := Some(at)), Interval(kind, at, None)]
      ensures old(tables.history) <= tables.history
    {
      hide Sound, Tiled, Accounted;
      ClosePhase(at);
      OpenPhase(kind, at);
    }

    method Elapsed() returns (ms: int)
      requires Valid()
      modifies `now, `cursor
      ensures Valid() && now >= old(now) && old(cursor) < cursor
      ensures ms == automationMs + if inAutomation then (now - automationClock) / 1000 else 0
      ensures ms >= old(Spent())
    {
      hide Sound, Tiled, Accounted, Forward;
      LongerIsMore(now - automationClock, Clock(world, cursor) - automationClock);
      var at := Now();
      ms := automationMs + if inAutomation then (at - automationClock) / 1000 else 0;
    }

    /** `check_control`: a lost Run before a request to cancel, and that before one to pause. */
    method CheckControl() returns (control: Control)
      requires Valid()
      modifies `cursor, `lost
      ensures Valid() && (old(lost) ==> lost) && cursor == old(cursor) + 1
      ensures control == if lost then TerminalRaised
                         else if FlagsAt(world, old(cursor)).cancel then CancelRaised
                         else if FlagsAt(world, old(cursor)).pause then PauseRaised else Clear
    {
      hide Sound, Tiled, Accounted, Forward;
      var gone := IsLost();
      var flags := ReadFlags();
      control := if gone then TerminalRaised else if flags.cancel then CancelRaised
                 else if flags.pause then PauseRaised else Clear;
    }

    /** `store.park`. */
    method ParkRow(deadlineAt: int, at: int)
      requires Valid() && !parked && NoFailure(written)
      modifies `parked, `parks, tables
      ensures Valid() && parked && parks == old(parks) + 1
      ensures old(tables.history) + [Event.Park(deadlineAt, at)] <= tables.history
    {
      hide Agrees, Obeys, Apply, Disciplined, Inv, Replay, WorkerSpans, Tiled, Accounted;
      AgreesImplies(tables.n, tables.State(), written, spans, parked);
      ParkKeepsAgreement(tables.n, tables.State(), deadlineAt, at, written, spans);
      Committed(tables.history, Event.Park(deadlineAt, at));
      tables.Park(deadlineAt, at);
      parked := true;
      parks := parks + 1;
      Interfere();
    }

    /** `store.resume`. */
    method ResumeRow(at: int)
      requires Valid() && parked
      modifies `parked, tables
      ensures Valid() && !parked
      ensures old(tables.history) + [Event.Resume(at)] <= tables.history
      ensures old(tables.history) <= tables.history
    {
      hide Agrees, Obeys, Apply, Disciplined, Inv, Replay, WorkerSpans, Tiled, Accounted;
      AgreesImplies(tables.n, tables.State(), written, spans, parked);
      ResumeKeepsAgreement(tables.n, tables.State(), at, written, spans);
      Committed(tables.history, Event.Resume(at));
      tables.Resume(at);
      parked := false;
      Interfere();
    }

    /** `store.release_holder`. */
    method ReleaseRow(at: int)
      requires Valid() && parked
      modifies tables
      ensures Valid()
      ensures old(tables.history) + [Event.ReleaseHolder(at)] <= tables.history
      ensures old(tables.history) <= tables.history
    {
      hide Agrees, Obeys, Apply, Disciplined, Inv, Replay, WorkerSpans, Tiled, Accounted;
      AgreesImplies(tables.n, tables.State(), written, spans, parked);
      ResumeKeepsAgreement(tables.n, tables.State(), at, written, spans);
      Committed(tables.history, Event.ReleaseHolder(at));
      tables.ReleaseHolder(at);
      Interfere();
    }

    method PauseTrace(reason: PauseReason) returns (raised: bool)
      requires Valid()
      modifies trace
      ensures Valid() && trace.reasons == old(trace.reasons) + {reason} && old(trace.outcomes) <= trace.outcomes
      ensures !raised ==> trace.Quiet() && !trace.active
      ensures raised ==> trace.active && StoreFailed in trace.outcomes
    {
      raised := trace.Pause(reason);
    }

    method ResumeTrace(reason: PauseReason)
      requires Valid()
      modifies trace
      ensures Valid() && (old(trace.Quiet()) ==> trace.Quiet())
      ensures trace.reasons == old(trace.reasons) - {reason} && old(trace.outcomes) == trace.outcomes
    {
      trace.Resume(reason);
    }

    ghost predicate InPark()
      reads `written, `spans, `parked, `watched, `began, `interval, `now, `cursor, `automationMs, `inAutomation,
            `automationClock, tables, trace
    {
      && Valid() && parked && !inAutomation && interval.Some? && NoFailure(written)
      && trace.Quiet() && Takeover in trace.reasons
    }

    /** The open interval is the human phase that began when the first person arrived. */
    ghost predicate HumanSince(first: nat, turn: nat)
      reads `spans
    {
      && spans != [] && spans[|spans| - 1].kind.Human?
      && exists h: nat ::
           && h < turn && FlagsIn(world, first, h).holder && !PersonBefore(world, first, h)
           && spans[|spans| - 1].startedAt == ArrivedIn(world, first, h)
    }

    /** What the park loop remembers after some turns is what it saw in them. */
    ghost predicate Remembers(p: ParkLoop, successCheck: bool, first: nat, turn: nat, since: nat)
      reads `interval, `spans
    {
      && interval.Some? && spans != []
      && (p.human <==> PersonBefore(world, first, turn))
      && (if p.human then HumanSince(first, turn) else spans[|spans| - 1].kind.WaitingForPerson?)
      && (p.lastMet.Some? <==> successCheck)
      && (successCheck && turn > 0 ==> p.lastMet == Some(MetIn(world, first, turn - 1)))
      && if successCheck then GraceRemembered(world, first, turn, p.graceEndsAt, since) else p.graceEndsAt.None?
    }

    /** The park loop's looks at the world. */
    method ParkFlags() returns (flags: Flags)
      requires InPark()
      modifies `cursor
      ensures InPark() && cursor == old(cursor) + 1 && flags == FlagsAt(world, old(cursor))
    {
      hide Sound, Tiled, Accounted, Forward;
      flags := ReadFlags();
    }

    method ParkPoll(successCheck: bool) returns (met: Option<bool>)
      requires InPark()
      modifies `cursor, `watched
      ensures InPark() && cursor == old(cursor) + 1
      ensures met == if successCheck then Some(MetAt(world, old(cursor))) else None
      ensures watched == old(watched) + [ParkPolled(trace.active)]
    {
      hide Tiled, Accounted, Forward, Agrees, Obeys, WorkerSpans;
      watched := watched + [ParkPolled(trace.active)];
      met := PollCheck(successCheck);
    }

    method ParkSkip()
      requires InPark()
      modifies `cursor
      ensures InPark() && cursor == old(cursor) + 1
    {
      hide Sound, Tiled, Accounted, Forward;
      Skip();
    }

    method ParkNow() returns (at: int)
      requires InPark()
      modifies `now, `cursor
      ensures InPark() && cursor == old(cursor) + 1 && at == Clock(world, old(cursor))
    {
      hide Sound, Tiled, Accounted, Forward;
      at := Now();
    }

    method PersonArrives()
      requires InPark() && spans[|spans| - 1].kind.WaitingForPerson?
      modifies `now, `cursor, `interval, `spans, tables
      ensures InPark() && cursor == old(cursor) + 1 && old(tables.history) <= tables.history
      ensures interval.Some? && spans != [] && spans[|spans| - 1] == Interval(Human, Clock(world, old(cursor)), None)
    {
      hide Sound, Tiled, Accounted, Forward;
      var at := Now();
      SwitchPhase(Human, at);
    }

    /** The end of a turn: whether the grace begins, goes on or ends, and whether to hand back. */
    method AskGrace(successCheck: bool, human: bool, met: Option<bool>, flags: Flags, before: Option<int>,
                    ghost first: nat, ghost turn: nat, ghost since: nat)
      returns (graceEndsAt: Option<int>, due: bool, ghost since': nat)
      requires InPark() && cursor == Base(first, turn) + 3
      requires flags == FlagsIn(world, first, turn) && (human <==> PersonBefore(world, first, turn + 1))
      requires met == if successCheck then Some(MetIn(world, first, turn)) else None
      requires !successCheck || Is(met, false) ==> before.None?
      requires Is(met, true) ==> GraceRemembered(world, first, turn, before, since)
      modifies `now, `cursor
      ensures InPark() && cursor == Base(first, turn + 1)
      ensures due <==> MayHandBack(world, first, turn, successCheck)
      ensures if successCheck then GraceRemembered(world, first, turn + 1, graceEndsAt, since') else graceEndsAt.None?
    {
      hide InPark, Holds, HeldOver, GraceOver, PersonBefore, GraceRemembered, Forward;
      graceEndsAt, since' := before, since;
      if human && flags.autoDisabled {
        graceEndsAt := None;
        ParkSkip();
      } else if human && Is(met, true) && graceEndsAt.None? {
        var at := ParkNow();
        graceEndsAt := Some(at + HAND_BACK_GRACE);
        since' := turn;
      } else {
        ParkSkip();
      }
      var autoDue := false;
      if human && Is(met, true) && !flags.autoDisabled && graceEndsAt.Some? {
        var at := ParkNow();
        autoDue := at >= graceEndsAt.value;
      } else {
        ParkSkip();
      }
      due := human && (flags.handback || autoDue);
      GoesForward();
      if Is(met, true) {
        if before.Some? {
          RunningGrace(world, first, turn, before, since);
        }
        PersonNow(world, first, turn);
        GraceAfterTurn(world, first, turn, before, since, human, graceEndsAt, since');
      } else if successCheck {
        NoGrace(world, first, turn, since');
      }
    }

    /** One turn of the park loop, up to the decision to hand back, which is taken exactly when what
        was to be seen in the turns so far allows it. */
    method Turn(successCheck: bool, p: ParkLoop, ghost first: nat, ghost turn: nat, ghost since: nat)
      returns (q: ParkLoop, due: bool, ghost since': nat)
      requires InPark() && cursor == Base(first, turn) && Remembers(p, successCheck, first, turn, since)
      modifies `now, `cursor, `interval, `spans, `watched, tables
      ensures InPark() && cursor == Base(first, turn + 1) && Remembers(q, successCheck, first, turn + 1, since')
      ensures due <==> MayHandBack(world, first, turn, successCheck)
      ensures due ==> spans != [] && spans[|spans| - 1].kind.Human?
      ensures old(tables.history) <= tables.history
    {
      hide InPark, HumanSince, PersonBefore, GraceRemembered, Forward, MayHandBack;
      var human, lastMet, graceEndsAt := p.human, p.lastMet, p.graceEndsAt;
      var flags := ParkFlags();
      var met := ParkPoll(successCheck);
      PersonNow(world, first, turn);
      if graceEndsAt.Some? {
        RunningGrace(world, first, turn, graceEndsAt, since);
      }
      if met.Some? && met != lastMet {
        lastMet := met;
        if Is(met, false) {
          graceEndsAt := None;
        }
      }
      if flags.holder && !human {
        PersonArrives();
        FirstPerson(first, turn);
        human := true;
        graceEndsAt := None;
      } else {
        PersonStays(first, turn);
        ParkSkip();
      }
      graceEndsAt, due, since' := AskGrace(successCheck, human, met, flags, graceEndsAt, first, turn, since);
      q := ParkLoop(human, lastMet, graceEndsAt);
      HumanKind(first, turn + 1);
      NoPersonNoHandBack(world, first, turn, successCheck);
    }

    /** The verifying interval, with one look at the page in it. */
    method VerifyPage(successCheck: bool) returns (verdict: Option<bool>, at: int)
      requires InPark() && spans[|spans| - 1].kind.Human?
      modifies `now, `cursor, `interval, `spans, tables
      ensures Valid() && interval.None? && cursor == old(cursor) + 3 && at == now == Clock(world, old(cursor) + 2)
      ensures verdict == if successCheck then Some(MetAt(world, old(cursor) + 1)) else None
      ensures spans == VerifiedSpans(old(spans), Clock(world, old(cursor)), at)
      ensures old(tables.history) <= tables.history
    {
      hide Sound, Tiled, Accounted, Forward, NoFailure, VerifiedSpans;
      var begun := Now();
      SwitchPhase(Verifying, begun);
      ghost var verifying := spans;
      verdict := PollCheck(successCheck);
      at := Now();
      ClosePhase(at);
      PhasesFollow(old(spans), verifying, begun, at);
    }

    /** The end of a human phase: verify, then resume automation, or go back to waiting without a holder. */
    method Verify(successCheck: bool) returns (verdict: Option<bool>)
      requires InPark() && spans[|spans| - 1].kind.Human?
      modifies `now, `cursor, `parked, `automationClock, `inAutomation, `interval, `spans, tables
      ensures Valid() && cursor == old(cursor) + 3
      ensures verdict == if successCheck then Some(MetAt(world, old(cursor) + 1)) else None
      ensures var over := Clock(world, old(cursor) + 2);
              && spans == VerifiedSpans(old(spans), Clock(world, old(cursor)), over)
                          + [Interval(if Is(verdict, false) then WaitingForPerson else Automation, over, None)]
              && Does(old(tables.history), tables.history,
                      if Is(verdict, false) then Event.ReleaseHolder(over) else Event.Resume(over))
      ensures old(tables.history) <= tables.history
      ensures Is(verdict, false) ==> InPark() && Remembers(ParkLoop(false, verdict, None), successCheck, cursor, 0, 0)
      ensures !Is(verdict, false) ==> inAutomation && !parked
    {
      hide Sound, Tiled, Accounted, Forward, Does, Remembers, NoFailure, VerifiedSpans;
      var at;
      verdict, at := VerifyPage(successCheck);
      LastVerified(old(spans), Clock(world, old(cursor)), at);
      ghost var before := tables.history;
      if Is(verdict, false) {
        ReleaseRow(at);
        ghost var released := tables.history;
        OpenPhase(WaitingForPerson, at);
        DoesStays(old(tables.history), before, released, tables.history, Event.ReleaseHolder(at));
        WaitsAgain(verdict, successCheck);
      } else {
        ResumeRow(at);
        ghost var resumed := tables.history;
        EnterAutomation(at);
        DoesStays(old(tables.history), before, resumed, tables.history, Event.Resume(at));
      }
    }

    lemma WaitsAgain(verdict: Option<bool>, successCheck: bool)
      requires interval.Some? && spans != [] && spans[|spans| - 1].kind.WaitingForPerson?
      requires verdict.Some? <==> successCheck
      ensures Remembers(ParkLoop(false, verdict, None), successCheck, cursor, 0, 0)
    {
    }

    /** Automation stops and waiting begins at one instant. */
    method LeaveForPerson() returns (at: int)
      requires Valid() && inAutomation
      modifies `now, `cursor, `automationMs, `inAutomation, `interval, `spans, tables
      ensures Valid() && !inAutomation && interval.Some? && old(tables.history) <= tables.history
      ensures at == now == Clock(world, old(cursor)) && cursor == old(cursor) + 1
      ensures spans != [] && spans[|spans| - 1] == Interval(WaitingForPerson, at, None)
      ensures automationMs >= old(Spent())
    {
      hide Sound, Tiled, Accounted, Forward;
      ghost var before := now;
      at := Now();
      LongerIsMore(before - automationClock, now - automationClock);
      LeaveAutomation(at);
      OpenPhase(WaitingForPerson, at);
    }

    /** The start of a takeover, up to the first turn of the loop; `raised` if pausing the trace raised. */
    method BeginPark(timeoutMs: nat, successCheck: bool) returns (p: ParkLoop, raised: bool)
      requires Valid() && inAutomation && !parked && NoFailure(written) && trace.Quiet()
      modifies `now, `cursor, `automationMs, `inAutomation, `interval, `parked, `parks, `spans, tables, trace
      ensures Valid() && old(trace.outcomes) <= trace.outcomes
      ensures !raised ==> InPark() && cursor == old(cursor) + 2 && Remembers(p, successCheck, cursor, 0, 0)
      ensures trace.reasons == old(trace.reasons) + {Takeover}
      ensures parks == old(parks) + (if raised then 0 else 1) && old(cursor) <= cursor
      ensures raised ==> StoreFailed in trace.outcomes
      ensures !raised ==> automationMs >= old(Spent())
      ensures !raised ==>
                Does(old(tables.history), tables.history,
                     Event.Park(Clock(world, old(cursor)) + 1000 * timeoutMs, Clock(world, old(cursor))))
    {
      hide Sound, Tiled, Accounted, Forward, Does;
      p := ParkLoop(false, None, None);
      raised := PauseTrace(Takeover);
      if raised {
        return;
      }
      var at := LeaveForPerson();
      ghost var before := tables.history;
      ParkRow(at + 1000 * timeoutMs, at);
      DoesStays(old(tables.history), before, tables.history, tables.history, Event.Park(at + 1000 * timeoutMs, at));
      var met := PollCheck(successCheck);
      p := ParkLoop(false, met, None);
    }

    /** The Run was taken away while it waited. */
    method LeavePark()
      requires InPark()
      modifies `now, `cursor, `interval, `spans, tables
      ensures Valid() && old(tables.history) <= tables.history && old(cursor) <= cursor
    {
      hide Sound, Tiled, Accounted, Forward;
      var at := Now();
      ClosePhase(at);
    }

    /** False once the process is killed. */
    method Survives() returns (alive: bool)
      modifies `life
      ensures if alive then life < old(life) else life == 0
    {
      alive := life > 0;
      if alive {
        life := life - 1;
      }
    }

    /** Where the park loop stands: at the beginning of a turn, no turn before it having handed back. */
    ghost predicate OnTurn(p: ParkLoop, successCheck: bool, start: nat, first: nat, turns: nat, since: nat)
      reads `cursor, `interval, `spans
    {
      && cursor == Base(first, turns) && SpellBegins(world, start, first, successCheck)
      && Remembers(p, successCheck, first, turns, since) && NoneHandsBack(world, first, turns, successCheck)
      && StillOurs(world, first, turns)
    }

    /** Automation resumes after the first turn that allows it, and three moments of verification. */
    ghost predicate Resumes(successCheck: bool, start: nat, first: nat, turns: nat)
      reads `cursor
    {
      && turns > 0 && cursor == Base(first, turns) + 3 && SpellBegins(world, start, first, successCheck)
      && MayHandBack(world, first, turns - 1, successCheck) && NoneHandsBack(world, first, turns - 1, successCheck)
      && (successCheck ==> MetAt(world, Base(first, turns) + 1)) && StillOurs(world, first, turns)
    }

    /** One round of the park loop: a turn and, if it hands back, the verification. */
    method ParkRound(successCheck: bool, p: ParkLoop, ghost start: nat, ghost first: nat, ghost turns: nat,
                     ghost since: nat)
      returns (q: ParkLoop, resumed: bool, seen: Option<bool>, ghost first': nat, ghost turns': nat, ghost since': nat)
      requires InPark() && OnTurn(p, successCheck, start, first, turns, since) && !world.lost(cursor)
      modifies `now, `cursor, `parked, `automationClock, `inAutomation, `interval, `spans, `watched, tables
      ensures Valid() && old(tables.history) <= tables.history && old(cursor) <= cursor
      ensures !resumed ==> InPark() && OnTurn(q, successCheck, start, first', turns', since')
      ensures resumed ==> inAutomation && !parked && Resumes(successCheck, start, first', turns')
      ensures resumed ==> (Is(seen, true) <==> successCheck)
    {
      hide Sound, OnTime, Accounted, MayHandBack, Remembers, NoFailure, VerifiedSpans, Does;
      var due;
      q, due, since' := Turn(successCheck, p, first, turns, since);
      first', turns', resumed, seen := first, turns + 1, false, None;
      if due {
        seen := Verify(successCheck);
        if Is(seen, false) {
          q := ParkLoop(false, seen, None);
          first', turns', since' := cursor, 0, 0;
        } else {
          resumed := true;
        }
      }
    }

    /** Automation goes on, and the trace with it. */
    method GoOn(verdict: Option<bool>) returns (result: Parked)
      requires Valid() && inAutomation
      modifies trace
      ensures Valid() && trace.outcomes == old(trace.outcomes) && (old(trace.Quiet()) ==> trace.Quiet())
      ensures result == if Is(verdict, true) then Verified else HandedBack
      ensures trace.reasons == old(trace.reasons) - {Takeover} && Spent() >= automationMs
    {
      hide Sound, OnTime, Accounted;
      SpentGrew();
      ResumeTrace(Takeover);
      result := if Is(verdict, true) then Verified else HandedBack;
    }

    /** The loop of `park_for_human`. */
    method WatchOver(successCheck: bool, beginning: ParkLoop, ghost start: nat)
      returns (result: Parked, ghost first: nat, ghost turns: nat)
      requires InPark() && OnTurn(beginning, successCheck, start, cursor, 0, 0)
      modifies `now, `cursor, `life, `automationClock, `inAutomation, `interval, `lost, `parked, `spans, `watched,
               tables, trace
      ensures Valid() && old(trace.outcomes) == trace.outcomes && trace.Quiet()
      ensures old(tables.history) <= tables.history && old(cursor) <= cursor
      ensures !result.TraceRaised?
      ensures result.Verified? || result.HandedBack? ==>
                inAutomation && !parked && Resumes(successCheck, start, first, turns)
      ensures result.Verified? ==> successCheck
      ensures result.HandedBack? ==> !successCheck
      ensures result.Verified? || result.HandedBack? ==> !lost && Spent() >= automationMs
      ensures result.LostWhileParked? ==> lost
      ensures result.DiedWhileParked? ==> life == 0
      ensures result.LostWhileParked? || result.DiedWhileParked? ==>
                && SpellBegins(world, start, first, successCheck)
                && NoneHandsBack(world, first, turns, successCheck) && StillOurs(world, first, turns)
      ensures trace.reasons == old(trace.reasons) - if result.Verified? || result.HandedBack? then {Takeover} else {}
    {
      hide Sound, OnTime, Accounted, NoFailure, Resumes, OnTurn, NoneHandsBack, SpellBegins, Remembers, StillOurs, Base,
        Spent, Valid, Core;
      var p := beginning;
      first, turns := cursor, 0;
      ghost var since: nat := 0;
      var gone := IsLost();
      while !gone
        invariant InPark() && OnTurn(p, successCheck, start, first, turns, since)
        invariant (gone <==> lost) && (world.lost(cursor) ==> gone)
        invariant old(tables.history) <= tables.history && old(cursor) <= cursor
        invariant trace.reasons == old(trace.reasons) && trace.outcomes == old(trace.outcomes)
        decreases life
      {
        var alive := Survives();
        if !alive {
          StillWaiting(p, successCheck, start, first, turns, since);
          return DiedWhileParked, first, turns;
        }
        var resumed, seen;
        p, resumed, seen, first, turns, since := ParkRound(successCheck, p, start, first, turns, since);
        if resumed {
          result := GoOn(seen);
          return;
        }
        gone := IsLost();
      }
      StillWaiting(p, successCheck, start, first, turns, since);
      LeavePark();
      result := LostWhileParked;
    }

    /** `park_for_human`.  When automation resumes, it does so after the first of the `turns` turns from
        moment `first` that allows it, and after a verification that did not fail; when it does not, no
        turn since that moment allowed it, and the Run was lost or the process was killed. */
    method ParkForHuman(timeoutMs: nat, successCheck: bool)
      returns (result: Parked, ghost first: nat, ghost turns: nat)
      requires Valid() && inAutomation && !parked && NoFailure(written) && trace.Quiet() && Takeover !in trace.reasons
      modifies `now, `cursor, `life, `automationMs, `inAutomation, `automationClock, `interval, `lost, `parked, `parks,
               `spans, `watched, tables, trace
      ensures Valid() && old(trace.outcomes) <= trace.outcomes
      ensures !result.TraceRaised? ==>
                Does(old(tables.history), tables.history,
                     Event.Park(Clock(world, old(cursor)) + 1000 * timeoutMs, Clock(world, old(cursor))))
      ensures result.Verified? || result.HandedBack? ==>
                inAutomation && !parked && Resumes(successCheck, old(cursor), first, turns)
      ensures result.Verified? || result.HandedBack? ==> !lost && Spent() >= old(Spent())
      ensures result.Verified? ==> successCheck
      ensures result.HandedBack? ==> !successCheck
      ensures result.LostWhileParked? ==> lost
      ensures result.DiedWhileParked? ==> life == 0
      ensures result.LostWhileParked? || result.DiedWhileParked? ==>
                && SpellBegins(world, old(cursor), first, successCheck)
                && NoneHandsBack(world, first, turns, successCheck) && StillOurs(world, first, turns)
      ensures if result.TraceRaised? then StoreFailed in trace.outcomes else trace.Quiet()
      ensures parks == old(parks) + (if result.TraceRaised? then 0 else 1) && old(cursor) <= cursor
      ensures trace.reasons == if result.Verified? || result.HandedBack? then old(trace.reasons)
                               else old(trace.reasons) + {Takeover}
    {
      hide Sound, OnTime, Accounted, Does, NoFailure, Resumes, OnTurn, Remembers, SpellBegins, NoneHandsBack;
      var p, raised := BeginPark(timeoutMs, successCheck);
      if raised {
        return TraceRaised, cursor, 0;
      }
      FirstTurn(p, successCheck, old(cursor));
      ghost var parkedBy := tables.history;
      result, first, turns := WatchOver(successCheck, p, old(cursor));
      ParkStays(old(tables.history), parkedBy, timeoutMs, old(cursor));
    }

    lemma SpentGrew()
      requires Valid() && inAutomation
      ensures Spent() >= automationMs
    {
      hide Sound, Accounted;
    }

    lemma StillWaiting(p: ParkLoop, successCheck: bool, start: nat, first: nat, turns: nat, since: nat)
      requires OnTurn(p, successCheck, start, first, turns, since)
      ensures SpellBegins(world, start, first, successCheck) && NoneHandsBack(world, first, turns, successCheck)
      ensures StillOurs(world, first, turns)
    {
    }

    lemma FirstTurn(p: ParkLoop, successCheck: bool, start: nat)
      requires Remembers(p, successCheck, cursor, 0, 0) && cursor == start + 2
      ensures OnTurn(p, successCheck, start, cursor, 0, 0)
    {
    }

    lemma ParkStays(before: seq<Event>, from: seq<Event>, timeoutMs: nat, moment: nat)
      requires Does(before, from, Event.Park(Clock(world, moment) + 1000 * timeoutMs, Clock(world, moment)))
      requires from <= tables.history
      ensures Does(before, tables.history, Event.Park(Clock(world, moment) + 1000 * timeoutMs, Clock(world, moment)))
    {
      DoesStays(before, before, from, tables.history,
                Event.Park(Clock(world, moment) + 1000 * timeoutMs, Clock(world, moment)));
    }

    lemma FirstPerson(first: nat, turn: nat)
      requires spans != [] && spans[|spans| - 1] == Interval(Human, ArrivedIn(world, first, turn), None)
      requires FlagsIn(world, first, turn).holder && !PersonBefore(world, first, turn)
      ensures HumanSince(first, turn + 1)
    {
    }

    lemma HumanKind(first: nat, turn: nat)
      ensures HumanSince(first, turn) ==> spans != [] && spans[|spans| - 1].kind.Human?
    {
    }

    lemma PersonStays(first: nat, turn: nat)
      ensures HumanSince(first, turn) ==> HumanSince(first, turn + 1)
    {
    }

    lemma GoesForward()
      requires InPark()
      ensures Forward(world)
    {
    }

    // ------------------------------------------------------------ the step loop

    /** Automation time so far, in whole milliseconds, the way `elapsed` counts it. */
    ghost function Spent(): int
      reads `automationMs, `inAutomation, `automationClock, `now
    {
      automationMs + if inAutomation then (now - automationClock) / 1000 else 0
    }

    ghost predicate SkippedWithReason()
      reads `written
    {
      SkipsHaveReason(work.steps, written)
    }

    /** Somebody asked for the Run to be cancelled at a moment the Worker looked at. */
    ghost predicate CancelSeen()
      reads `cursor
    {
      exists m: nat :: m < cursor && FlagsAt(world, m).cancel
    }

    /** Between two Steps, or in the middle of one that has written nothing. */
    ghost predicate Stepping(position: nat)
      reads `lost, `written, `origins, `spans, `parked, `watched, `began, `interval, `now, `cursor, `automationMs,
            `inAutomation, `automationClock, tables, trace
    {
      && Valid() && inAutomation && !parked && |written| == position && NoFailure(written)
      && !lost && trace.Quiet() && SkippedWithReason() && Told()
      && NoneAfterEnd(origins) && NextMoment(origins) <= cursor
    }

    /** Every Step has a result and the results fit the outcome. */
    ghost predicate Settled(status: RunStatus, reason: Option<FailureReason>)
      reads `written, `origins, `spans, `parked, `watched, `began, `interval, `now, `cursor, `automationMs,
            `inAutomation, `automationClock, tables, trace
    {
      && Valid() && inAutomation && !parked && |written| == |work.steps| && Shape(status, reason, AsResults(written))
      && (reason == Some(RunTimeout) ==> Spent() >= work.timeoutMs)
      && (status.Cancelled? ==> CancelSeen())
      && (status.Succeeded? ==> SkippedWithReason())
      && Explained(world, work.steps, status, reason, written, origins)
    }

    /** End the Run: skip what is left. */
    method SkipRestAndStop(start: nat, status: RunStatus, reason: Option<FailureReason>) returns (pass: Pass)
      requires Valid() && Told() && inAutomation && !parked && !lost
      requires |written| == start && MayEnd(status, reason, written)
      requires Explained(world, work.steps, status, reason, written, origins)
      requires reason == Some(RunTimeout) ==> Spent() >= work.timeoutMs
      requires status.Cancelled? ==> CancelSeen()
      requires !status.Succeeded?
      modifies `written, `origins, tables
      ensures Valid() && Told()
      ensures pass == Stop(status, reason) || pass == Escaped
      ensures pass == Stop(status, reason) ==> Settled(status, reason)
      ensures pass == Escaped ==> Terminal(tables.row.status)
      ensures old(tables.history) <= tables.history && old(written) <= written && OnlyRestAdded(old(origins), origins)
    {
      hide Sound, OnTime, Accounted, MayEnd, Shape, Recorded, Looked, FailedWith;
      ghost var before, from := written, origins;
      var added := SkipRemaining(start);
      if !added {
        return Escaped;
      }
      StillExplained(world, work.steps, status, reason, before, written, from, origins);
      SkippedRestHasShape(status, reason, before, written);
      pass := Stop(status, reason);
    }

    /** `check_control` between Steps: a request to cancel ends the Run, one to pause parks it. */
    method HonourControl(position: nat) returns (pass: Pass)
      requires Stepping(position) && Takeover !in trace.reasons && position <= |work.steps|
      modifies `now, `cursor, `life, `automationMs, `inAutomation, `automationClock, `interval, `lost, `parked, `parks,
               `spans, `watched, `written, `origins, tables, trace
      ensures Valid() && Told() && old(trace.outcomes) <= trace.outcomes && old(cursor) < cursor
      ensures pass.Continue? ==> Stepping(position) && trace.reasons == old(trace.reasons)
      ensures pass.Stop? ==> Settled(pass.status, pass.reason) && trace.Quiet() && trace.reasons == old(trace.reasons)
      ensures pass.Continue? ==> origins == old(origins) && Spent() >= old(Spent())
      ensures OnlyRestAdded(old(origins), origins)
      ensures pass.Gone? ==> lost && trace.Quiet() && trace.reasons <= old(trace.reasons) + {Takeover}
      ensures pass.Died? ==> life == 0
      ensures pass.Escaped? ==> Excused()
      ensures var flags := FlagsAt(world, old(cursor));
              if flags.cancel then
                parks == old(parks) && (pass.Gone? || pass == Stop(Cancelled, None) || EndedElsewhere(pass))
              else if flags.pause then
                && !pass.Stop? && parks <= old(parks) + 1
                && (pass.Continue? ==> parks == old(parks) + 1 && ParkedNow(old(tables.history), old(cursor) + 1))
              else parks == old(parks) && (pass.Continue? || pass.Gone?)
    {
      hide Sound, OnTime, Accounted, Shape, MayHandBack, Does, SkipsHaveReason, Recorded, Looked, NextMoment, Resumes,
        SpellBegins, NoneHandsBack, Explained, Settled;
      var control := CheckControl();
      match control {
        case TerminalRaised => pass := Gone;
        case Clear => pass := Continue;
        case CancelRaised =>
          ToldMayCancel();
          pass := SkipRestAndStop(position, Cancelled, None);
        case PauseRaised =>
          var parkedAs, first, turns := ParkForHuman(work.takeoverTimeoutMs, false);
          match parkedAs {
            case LostWhileParked => pass := Gone;
            case DiedWhileParked => pass := Died;
            case TraceRaised => pass := Escaped;
            case _ => pass := Continue;
          }
      }
    }

    lemma ToldMayCancel()
      requires Told()
      ensures Explained(world, work.steps, Cancelled, None, written, origins)
      ensures Explained(world, work.steps, RunStatus.Failed, Some(RunTimeout), written, origins)
    {
    }

    /** Since `before` the Run was parked with the Workflow's timeout, from this moment. */
    ghost predicate ParkedNow(before: seq<Event>, moment: nat)
      reads tables
    {
      Does(before, tables.history,
           Event.Park(Clock(world, moment) + 1000 * work.takeoverTimeoutMs, Clock(world, moment)))
    }

    lemma ParkedStays(before: seq<Event>, from: seq<Event>, moment: nat)
      requires from <= tables.history
      requires Does(before, from,
                    Event.Park(Clock(world, moment) + 1000 * work.takeoverTimeoutMs, Clock(world, moment)))
      ensures ParkedNow(before, moment)
    {
      ParkStays(before, from, work.takeoverTimeoutMs, moment);
    }

    /** The timeout test: the Run goes on exactly if its automation time is not used up. */
    method CheckTime(position: nat) returns (pass: Pass)
      requires Stepping(position) && position <= |work.steps|
      modifies `now, `cursor, `written, `origins, tables
      ensures Valid() && Told() && old(tables.history) <= tables.history
      ensures pass.Continue? ==> Stepping(position) && Spent() < work.timeoutMs && tables.history == old(tables.history)
      ensures pass.Continue? ==> origins == old(origins) && Spent() >= old(Spent())
      ensures OnlyRestAdded(old(origins), origins) && old(cursor) < cursor
      ensures pass.Stop? ==> Settled(pass.status, pass.reason)
      ensures pass.Continue? || pass == Stop(RunStatus.Failed, Some(RunTimeout)) || EndedElsewhere(pass)
    {
      hide Sound, OnTime, Accounted, Shape, SkipsHaveReason, Recorded, Looked, NextMoment, Explained;
      pass := Continue;
      var ms := Elapsed();
      if ms >= work.timeoutMs {
        ToldMayCancel();
        pass := SkipRestAndStop(position, RunStatus.Failed, Some(RunTimeout));
      }
    }

    /** Between Steps: a request to cancel ends the Run, one to pause parks it and nothing else does, and
        it goes on exactly if its automation time is not used up. */
    method Checkpoint(position: nat) returns (pass: Pass)
      requires Stepping(position) && Takeover !in trace.reasons && position <= |work.steps|
      modifies `now, `cursor, `life, `automationMs, `inAutomation, `automationClock, `interval, `lost, `parked, `parks,
               `spans, `watched, `written, `origins, tables, trace
      ensures Valid() && Told() && old(trace.outcomes) <= trace.outcomes && old(cursor) < cursor
      ensures pass.Continue? ==> Stepping(position) && trace.reasons == old(trace.reasons) && Spent() < work.timeoutMs
      ensures pass.Stop? ==> Settled(pass.status, pass.reason) && trace.Quiet() && trace.reasons == old(trace.reasons)
      ensures pass.Continue? ==> origins == old(origins) && Spent() >= old(Spent())
      ensures OnlyRestAdded(old(origins), origins)
      ensures pass.Gone? ==> lost && trace.Quiet() && trace.reasons <= old(trace.reasons) + {Takeover}
      ensures pass.Died? ==> life == 0
      ensures pass.Escaped? ==> Excused()
      ensures var flags := FlagsAt(world, old(cursor));
              if flags.cancel then
                parks == old(parks) && (pass.Gone? || pass == Stop(Cancelled, None) || EndedElsewhere(pass))
              else
                && (pass.Stop? ==> pass == Stop(RunStatus.Failed, Some(RunTimeout)))
                && if flags.pause then
                     && parks <= old(parks) + 1
                     && (pass.Continue? || pass.Stop? ==>
                           parks == old(parks) + 1 && ParkedNow(old(tables.history), old(cursor) + 1))
                   else parks == old(parks) && (pass.Escaped? ==> EndedElsewhere(pass))
    {
      hide Sound, OnTime, Accounted, Shape, SkipsHaveReason, Recorded, Looked, NextMoment, Settled, Does, Explained;
      pass := HonourControl(position);
      if !pass.Continue? {
        return;
      }
      ghost var parkedBy := tables.history;
      assert Stepping(position) && trace.Quiet();
      pass := CheckTime(position);
      if FlagsAt(world, old(cursor)).pause {
        ParkedStays(old(tables.history), parkedBy, old(cursor) + 1);
      }
    }

    /** Why an error leaves `execute`: a result was rejected because the Run had been ended under the
        Worker, a trace chunk could not be stored, the start raised, or a second pause came. */
    ghost predicate Excused()
      reads `cursor, tables, trace
    {
      || Terminal(tables.row.status) || StoreFailed in trace.outcomes || world.start.StartRaises?
      || exists m: nat :: m < cursor && FlagsAt(world, m).pause
    }

    /** A result was rejected because the Run had been ended under the Worker. */
    ghost predicate EndedElsewhere(pass: Pass)
      reads tables
    {
      pass == Escaped && Terminal(tables.row.status)
    }

    /** A Step is about to be performed. */
    method WatchStep(step: Step)
      requires Valid() && trace.Quiet() && (step.secret ==> Secret in trace.reasons)
      modifies `watched
      ensures Valid() && watched == old(watched) + [StepDone(step.secret, trace.active)]
    {
      hide Obeys, Agrees, Tiled, Accounted, Forward, WorkerSpans;
      watched := watched + [StepDone(step.secret, trace.active)];
    }

    /** `execute_step`: what the world makes of the Step, unless the Run is lost. */
    method ExecuteStep(step: Step) returns (done: Performed)
      requires Valid() && trace.Quiet() && (step.secret ==> Secret in trace.reasons)
      modifies `now, `cursor, `lost, `watched
      ensures Valid() && now >= old(now) && cursor > old(cursor)
      ensures done == Performance(world, step, old(cursor)) || (done == Raised(TerminalRaised) && lost)
      ensures done.Outcome? ==> PerformedBy(step, old(cursor)) == cursor
      ensures done.Raised? ==> !done.control.Clear?
      ensures done == Raised(TerminalRaised) ==> lost
      ensures lost && !old(lost) ==> done == Raised(TerminalRaised)
      ensures done == Raised(CancelRaised) ==> CancelSeen()
      ensures done == Raised(PauseRaised) ==> exists m: nat :: m < cursor && FlagsAt(world, m).pause
      ensures watched == old(watched) + [StepDone(step.secret, trace.active)]
    {
      hide Sound, Tiled, Accounted, Forward;
      WatchStep(step);
      var at := Now();
      if step.disabled {
        return Outcome(Skipped, false);
      }
      if step.takeover {
        return Outcome(Passed, false);
      }
      var control := CheckControl();
      if !control.Clear? {
        return Raised(control);
      }
      var page := world.page(cursor);
      at := Now();
      if page.works {
        done := Outcome(Passed, false);
      } else if step.optional && page.targetMissing {
        done := Outcome(Skipped, false);
      } else {
        done := Outcome(StepStatus.Failed, page.challenge);
      }
    }

    /** Perform a Step once: an outcome, a way to leave, or a pause that interrupts it. */
    method Try(position: nat) returns (attempt: Attempt, paused: bool)
      requires position < |work.steps| && Stepping(position)
      requires work.steps[position].secret ==> Secret in trace.reasons
      modifies `now, `cursor, `lost, `watched, `written, `origins, tables
      ensures Valid() && Told() && old(cursor) < cursor
      ensures paused ==>
                && Stepping(position) && origins == old(origins) && attempt == Leave(Escaped) && Excused()
                && Performance(world, work.steps[position], old(cursor)) == Raised(PauseRaised)
      ensures !paused && attempt.Done? ==>
                && Stepping(position) && origins == old(origins)
                && PerformedBy(work.steps[position], old(cursor)) == cursor
                && Performance(world, work.steps[position], old(cursor)) == Outcome(attempt.status, attempt.challenge)
      ensures !paused && attempt.Leave? && attempt.pass.Stop? ==>
                Settled(attempt.pass.status, attempt.pass.reason) && attempt.pass == Stop(Cancelled, None)
      ensures !paused && attempt.Leave? && attempt.pass.Gone? ==> lost
      ensures !paused && attempt.Leave? ==> attempt.pass.Stop? || attempt.pass.Gone? || EndedElsewhere(attempt.pass)
      ensures OnlyRestAdded(old(origins), origins)
    {
      hide Sound, OnTime, Accounted, Shape, SkipsHaveReason, Recorded, Looked, NextMoment, Performance;
      var done := ExecuteStep(work.steps[position]);
      paused := false;
      match done {
        case Outcome(status, challenge) => attempt := Done(status, challenge);
        case Raised(CancelRaised) =>
          var pass := SkipRestAndStop(position, Cancelled, None);
          attempt := Leave(pass);
        case Raised(TerminalRaised) => attempt := Leave(Gone);
        case Raised(_) =>
          attempt, paused := Leave(Escaped), true;
      }
    }

    /** Run one Step, parking once if a pause interrupts it; a second pause escapes.  The outcome is what
        the world makes of the Step at `moment`: at once, or after the pause if one interrupted it. */
    method Attempt(position: nat) returns (attempt: Attempt, ghost moment: nat)
      requires position < |work.steps| && Stepping(position) && Takeover !in trace.reasons
      requires work.steps[position].secret ==> Secret in trace.reasons
      modifies `now, `cursor, `life, `automationMs, `inAutomation, `automationClock, `interval, `lost, `parked, `parks,
               `spans, `watched, `written, `origins, tables, trace
      ensures Valid() && Told() && old(trace.outcomes) <= trace.outcomes
      ensures old(cursor) <= moment && old(cursor) <= cursor
      ensures moment == old(cursor) || Performance(world, work.steps[position], old(cursor)) == Raised(PauseRaised)
      ensures attempt.Done? ==>
                && Stepping(position) && trace.reasons == old(trace.reasons) && origins == old(origins)
                && moment < PerformedBy(work.steps[position], moment) == cursor
                && Performance(world, work.steps[position], moment) == Outcome(attempt.status, attempt.challenge)
      ensures OnlyRestAdded(old(origins), origins)
      ensures attempt.Leave? ==> !attempt.pass.Continue?
      ensures attempt.Leave? && attempt.pass.Stop? ==>
                && Settled(attempt.pass.status, attempt.pass.reason) && attempt.pass == Stop(Cancelled, None)
                && trace.Quiet() && trace.reasons == old(trace.reasons)
      ensures attempt.Leave? && attempt.pass.Gone? ==> lost
      ensures attempt.Leave? && attempt.pass.Died? ==> life == 0
      ensures attempt.Leave? && attempt.pass.Escaped? ==> Excused()
      ensures attempt.Leave? && !attempt.pass.Escaped? ==> trace.Quiet()
      ensures trace.reasons <= old(trace.reasons) + {Takeover}
      ensures parks <= old(parks) + if moment == old(cursor) then 0 else 1
    {
      hide Sound, OnTime, Accounted, Shape, MayHandBack, Does, Recorded, Looked, NextMoment, Performance,
        SkippedWithReason, Settled, CancelSeen;
      moment := cursor;
      var paused;
      attempt, paused := Try(position);
      if paused {
        moment := cursor;
        var parkedAs, first, turns := ParkForHuman(work.takeoverTimeoutMs, false);
        match parkedAs {
          case LostWhileParked => return Leave(Gone), moment;
          case DiedWhileParked => return Leave(Died), moment;
          case TraceRaised => return Leave(Escaped), moment;
          case _ =>
        }
        moment := cursor;
        attempt, paused := Try(position);
      }
    }

    /** The Step itself, with the trace paused around it when it uses a secret Variable.  The reason is
        given back on every way out but the death of the process and an error in that first pause. */
    method GuardedAttempt(position: nat) returns (attempt: Attempt, ghost moment: nat)
      requires position < |work.steps| && Stepping(position) && trace.reasons == {}
      modifies `now, `cursor, `life, `automationMs, `inAutomation, `automationClock, `interval, `lost, `parked, `parks,
               `spans, `watched, `written, `origins, tables, trace
      ensures Valid() && Told() && old(trace.outcomes) <= trace.outcomes
      ensures old(cursor) <= cursor
      ensures attempt.Done? ==>
                && Stepping(position) && trace.reasons == {} && origins == old(origins)
                && old(cursor) <= moment < PerformedBy(work.steps[position], moment) == cursor
                && (moment == old(cursor) ||
                    Performance(world, work.steps[position], old(cursor)) == Raised(PauseRaised))
                && Performance(world, work.steps[position], moment) == Outcome(attempt.status, attempt.challenge)
      ensures OnlyRestAdded(old(origins), origins)
      ensures attempt.Leave? ==> !attempt.pass.Continue?
      ensures attempt.Leave? && attempt.pass.Stop? ==>
                && Settled(attempt.pass.status, attempt.pass.reason) && attempt.pass == Stop(Cancelled, None)
                && trace.Quiet() && trace.reasons == {}
      ensures attempt.Leave? && attempt.pass.Gone? ==> lost && trace.Quiet() && trace.reasons <= {Takeover}
      ensures attempt.Leave? && attempt.pass.Died? ==> life == 0
      ensures attempt.Leave? && attempt.pass.Escaped? ==> Excused()
      ensures Secret in trace.reasons ==>
                && work.steps[position].secret
                && (attempt == Leave(Died) || (attempt == Leave(Escaped) && trace.active && |written| == position))
      ensures parks <= old(parks) + 1
    {
      hide Sound, OnTime, Accounted, Shape, SkipsHaveReason, Recorded, Looked, NextMoment, Performance;
      var hole := work.steps[position].secret;
      if hole {
        var raised := PauseTrace(Secret);
        if raised {
          return Leave(Escaped), cursor;
        }
      }
      attempt, moment := Attempt(position);
      if hole && attempt != Leave(Died) {
        ResumeTrace(Secret);
      }
    }

    /** Store the outcome of a Step and decide whether the Run goes on: not after a failure, which is put
        down to a challenge exactly if one was flagged. */
    method Record(position: nat, status: StepStatus, challenge: bool, ghost origin: Origin, ghost look: nat)
      returns (pass: Pass)
      requires position < |work.steps| && Stepping(position) && Fits(work.steps[position], status)
      requires Justified(world, work.steps[position], status, origin) && !origin.AfterEnd?
      requires NextMoment(origins) <= look < origin.moment < cursor && !FlagsAt(world, look).cancel
      requires origin.ByStep? ==> origin.over <= cursor
      requires status.Failed? ==>
                 && origin.ByStep?
                 && Performance(world, work.steps[position], origin.moment) == Outcome(StepStatus.Failed, challenge)
      modifies `written, `origins, tables
      ensures Valid() && Told() && old(tables.history) <= tables.history
      ensures pass.Continue? || pass.Stop? ==>
                OnlyRestAdded(old(origins) + [origin], origins) && old(written) + [status] <= written
      ensures pass.Continue? ==> Stepping(position + 1) && !status.Failed? && origins == old(origins) + [origin]
      ensures pass.Stop? ==> Settled(pass.status, pass.reason) && status.Failed?
      ensures pass.Stop? ==> pass == Stop(RunStatus.Failed, Some(FailureOf(challenge)))
      ensures pass.Continue? || pass.Stop? || EndedElsewhere(pass)
    {
      hide Sound, OnTime, Accounted, Shape, MayEnd, NoFailure, SkipsHaveReason, CancelSeen, Recorded, Justified,
           Performance, FailedWith, NextMoment, Looked;
      OneMoreLooked(world, origins, origin, look);
      OneMoreOutcome(work.steps, written, status, challenge);
      ToldLength();
      OneMoreRecorded(world, work.steps, written, origins, status, origin);
      if status.Failed? {
        FailedNow(world, work.steps, written, origins, origin, challenge);
      }
      var added := AddResult(position, status, origin);
      if !added {
        return Escaped;
      }
      if status.Failed? {
        pass := SkipRestAndStop(position + 1, RunStatus.Failed, Some(FailureOf(challenge)));
        return;
      }
      pass := Continue;
    }

    /** A takeover Step: the person's part of it, which records the Step if it was verified. */
    method HandOver(position: nat, ghost look: nat) returns (pass: Pass, recorded: bool)
      requires position < |work.steps| && work.steps[position].takeover && !work.steps[position].disabled
      requires Stepping(position) && trace.reasons == {}
      requires NextMoment(origins) <= look < cursor && !FlagsAt(world, look).cancel
      modifies `now, `cursor, `life, `automationMs, `inAutomation, `automationClock, `interval, `lost, `parked, `parks,
               `spans, `watched, `written, `origins, tables, trace
      ensures Valid() && Told() && old(trace.outcomes) <= trace.outcomes && old(cursor) <= cursor
      ensures pass.Continue? ==> Stepping(if recorded then position + 1 else position) && trace.reasons == {}
      ensures recorded ==> work.steps[position].successCheck
      ensures recorded && pass.Continue? ==>
                |origins| == |old(origins)| + 1 && old(origins) <= origins && origins[|old(origins)|].ByPerson?
      ensures !recorded ==> origins == old(origins)
      ensures pass.Continue? && !recorded ==> !work.steps[position].successCheck
      ensures !pass.Stop?
      ensures pass.Gone? ==> lost
      ensures pass.Died? ==> life == 0
      ensures pass.Escaped? ==> Excused()
      ensures parks <= old(parks) + 1 && (pass.Continue? ==> parks == old(parks) + 1)
      ensures pass.Continue? ==>
                var own := work.steps[position].takeoverTimeoutMs;
                var timeoutMs := if own.Some? && own.value != 0 then own.value else work.takeoverTimeoutMs;
                exists k :: && |old(tables.history)| <= k < |tables.history|
                            && tables.history[k] == Event.Park(Clock(world, old(cursor)) + 1000 * timeoutMs,
                                                               Clock(world, old(cursor)))
    {
      hide Sound, OnTime, Accounted, Shape, MayHandBack, SkipsHaveReason, Recorded, NextMoment, Performance, Settled,
        Resumes, Looked, OnlyRestAdded;
      var step := work.steps[position];
      var timeoutMs := if step.takeoverTimeoutMs.Some? && step.takeoverTimeoutMs.value != 0
                       then step.takeoverTimeoutMs.value else work.takeoverTimeoutMs;
      ghost var start := cursor;
      var parkedAs, first, turns := ParkForHuman(timeoutMs, step.successCheck);
      recorded := false;
      match parkedAs {
        case LostWhileParked => pass := Gone;
        case DiedWhileParked => pass := Died;
        case TraceRaised => pass := Escaped;
        case HandedBack => pass := Continue;
        case Verified =>
          VerifiedLater(step.successCheck, start, first, turns);
          ghost var parkedBy := tables.history;
          pass := Record(position, Passed, false, ByPerson(Base(first, turns) + 1), look);
          ParkStays(old(tables.history), parkedBy, timeoutMs, old(cursor));
          recorded := true;
      }
    }

    /** A Step's own part: perform it, record what came of it, and look at the control flags and the
        clock again. */
    method PerformStep(position: nat, ghost look: nat) returns (pass: Pass)
      requires position < |work.steps| && Stepping(position) && trace.reasons == {}
      requires NextMoment(origins) <= look < cursor && !FlagsAt(world, look).cancel
      modifies `now, `cursor, `life, `automationMs, `inAutomation, `automationClock, `interval, `lost, `parked, `parks,
               `spans, `watched, `written, `origins, tables, trace
      ensures Valid() && Told() && old(trace.outcomes) <= trace.outcomes && old(cursor) <= cursor
      ensures pass.Continue? ==> Stepping(position + 1) && trace.reasons == {}
      ensures pass.Continue? ==>
                && |origins| == |old(origins)| + 1 && old(origins) <= origins && origins[|old(origins)|].ByStep?
                && LookedFrom(world, origins[|old(origins)|].over, cursor) && Spent() < work.timeoutMs
      ensures pass.Stop? ==> Settled(pass.status, pass.reason) && !pass.status.Succeeded?
      ensures pass.Gone? ==> lost
      ensures pass.Died? ==> life == 0
      ensures pass.Escaped? ==> Excused()
    {
      hide Sound, OnTime, Accounted, Shape, MayHandBack, Does, SkippedWithReason, Recorded, NextMoment, Performance,
        Settled, CancelSeen, Excused, Resumes, Looked, OnlyRestAdded;
      ghost var moment;
      var attempt;
      attempt, moment := GuardedAttempt(position);
      if attempt.Leave? {
        return attempt.pass;
      }
      var gone := IsLost();
      if gone {
        return Gone;
      }
      PerformedFits(world, work.steps[position], moment);
      ghost var origin := ByStep(moment, PerformedBy(work.steps[position], moment));
      pass := Record(position, attempt.status, attempt.challenge, origin, look);
      if !pass.Continue? {
        RejectedIsExcused(pass);
        return;
      }
      ghost var again := cursor;
      pass := Checkpoint(position + 1);
      if pass.Continue? {
        assert LookedFrom(world, origin.over, cursor) by {
          assert origin.over <= again < cursor && !FlagsAt(world, again).cancel;
        }
      }
    }

    /** The results so far end with one more, and after a Step performed the flags were looked at again. */
    ghost predicate OneMore(before: seq<Origin>)
      reads `origins, `cursor
    {
      && |origins| == |before| + 1 && before <= origins && !origins[|before|].AfterEnd?
      && (origins[|before|].ByStep? ==> LookedFrom(world, origins[|before|].over, cursor))
    }

    /** One pass of the loop over the document's Steps.  A request to cancel when it begins, or an
        automation time that is used up, lets no Step be performed; and it goes on only after a look at
        both after the Step. */
    method RunStep(position: nat) returns (pass: Pass)
      requires position < |work.steps| && Stepping(position) && trace.reasons == {}
      modifies `now, `cursor, `life, `automationMs, `inAutomation, `automationClock, `interval, `lost, `parked, `parks,
               `spans, `watched, `written, `origins, tables, trace
      ensures Valid() && Told() && old(trace.outcomes) <= trace.outcomes
      ensures FlagsAt(world, old(cursor)).cancel ==>
                && (pass.Gone? || pass == Stop(Cancelled, None) || EndedElsewhere(pass))
                && OnlyRestAdded(old(origins), origins)
      ensures old(Spent()) >= work.timeoutMs ==> !pass.Continue? && OnlyRestAdded(old(origins), origins)
      ensures pass.Continue? ==> Stepping(position + 1) && trace.reasons == {}
      ensures pass.Continue? ==> OneMore(old(origins))
      ensures pass.Continue? && origins[|old(origins)|].ByStep? ==> Spent() < work.timeoutMs
      ensures pass.Stop? ==> Settled(pass.status, pass.reason) && !pass.status.Succeeded?
      ensures pass.Gone? ==> lost
      ensures pass.Died? ==> life == 0
      ensures pass.Escaped? ==> Excused()
    {
      hide Sound, OnTime, Accounted, Shape, MayHandBack, Does, SkippedWithReason, Recorded, NextMoment, Performance,
        Settled, CancelSeen, Excused, Resumes, Looked, OnlyRestAdded;
      NothingAdded(origins);
      var gone := IsLost();
      if gone {
        return Gone;
      }
      ghost var look := cursor;
      pass := Checkpoint(position);
      if !pass.Continue? {
        return;
      }
      if work.steps[position].takeover && !work.steps[position].disabled {
        var recorded;
        pass, recorded := HandOver(position, look);
        if recorded || !pass.Continue? {
          return;
        }
      }
      pass := PerformStep(position, look);
    }

    lemma NothingAdded(before: seq<Origin>)
      ensures OnlyRestAdded(before, before)
    {
    }

    lemma RejectedIsExcused(pass: Pass)
      ensures EndedElsewhere(pass) ==> Excused()
    {
    }

    lemma VerifiedLater(successCheck: bool, start: nat, first: nat, turns: nat)
      requires Resumes(successCheck, start, first, turns)
      ensures start <= Base(first, turns) + 1 < cursor && (successCheck ==> MetAt(world, Base(first, turns) + 1))
    {
    }

    /** The last result is that of a Step that was performed. */
    ghost predicate EndsWithStep()
      reads `origins
    {
      origins != [] && origins[|origins| - 1].ByStep?
    }

    /** After the last Step performed the flags were looked at and did not ask to cancel. */
    ghost predicate LookedAfter()
      reads `origins, `cursor
    {
      EndsWithStep() ==> LookedFrom(world, origins[|origins| - 1].over, cursor)
    }

    /** The loop over the Steps; running off its end is a success. */
    method RunSteps() returns (pass: Pass)
      requires Stepping(0) && trace.reasons == {} && trace.active && origins == []
      modifies `now, `cursor, `life, `automationMs, `inAutomation, `automationClock, `interval, `lost, `parked, `parks,
               `spans, `watched, `written, `origins, tables, trace
      ensures Valid() && Told() && old(trace.outcomes) <= trace.outcomes
      ensures !pass.Continue?
      ensures pass.Stop? ==> Settled(pass.status, pass.reason)
      ensures pass.Stop? && pass.status.Succeeded? ==> LookedAfter() && (EndsWithStep() ==> Spent() < work.timeoutMs)
      ensures pass.Gone? ==> lost
      ensures pass.Died? ==> life == 0
      ensures pass.Escaped? ==> Excused()
    {
      hide Sound, OnTime, Accounted, Shape, SkipsHaveReason, Recorded, NextMoment, OnlyRestAdded, LookedFrom, Looked;
      var position := 0;
      while position < |work.steps|
        invariant position <= |work.steps| && Stepping(position) && trace.reasons == {}
        invariant old(trace.outcomes) <= trace.outcomes && |origins| == position
        invariant LookedAfter() && (EndsWithStep() ==> Spent() < work.timeoutMs)
      {
        pass := RunStep(position);
        if !pass.Continue? {
          return;
        }
        position := position + 1;
      }
      SkippedRestHasShape(Succeeded, None, written, written);
      pass := Stop(Succeeded, None);
    }

    /** `store.finish_run`; `accepted` is false when the Run was ended under the Worker. */
    method FinishRow(status: RunStatus, reason: Option<FailureReason>, at: int) returns (accepted: bool)
      requires Valid() && !parked && !lost && |written| == |work.steps| && Shape(status, reason, AsResults(written))
      modifies tables
      ensures Valid() && Terminal(tables.row.status)
      ensures accepted ==>
                && tables.row.status == status && tables.row.reason == reason
                && tables.row.automationMs == automationMs && tables.row.endedAt == Some(at)
                && tables.results == AsResults(written) && tables.intervals == spans
    {
      hide Agrees, Obeys, Apply, Disciplined, Inv, Replay, WorkerSpans, OnTime, Accounted, Shape;
      AgreesImplies(tables.n, tables.State(), written, spans, parked);
      FinishKeepsAgreement(tables.n, tables.State(), status, reason, automationMs, at, written, spans);
      Committed(tables.history, Event.Finish(status, reason, automationMs, at));
      accepted := tables.row.status.Running?;
      tables.FinishRun(status, reason, automationMs, at);
      Interfere();
    }

    /** Load the credentials, start the browser, walk the Steps. */
    method Drive() returns (pass: Pass)
      requires Stepping(0) && trace.reasons == {} && origins == [] && !trace.active
      modifies `now, `cursor, `life, `automationMs, `inAutomation, `automationClock, `interval, `lost, `parked, `parks,
               `spans, `watched, `written, `origins, tables, trace
      ensures Valid() && Told() && old(trace.outcomes) <= trace.outcomes
      ensures !pass.Continue?
      ensures pass.Stop? ==> Settled(pass.status, pass.reason)
      ensures pass.Stop? && pass.status.Succeeded? ==> LookedAfter() && (EndsWithStep() ==> Spent() < work.timeoutMs)
      ensures pass.Gone? ==> lost
      ensures pass.Died? ==> life == 0
      ensures pass.Escaped? ==> Excused()
      ensures pass.Stop? && pass.status.Succeeded? ==> LookedAfter() && (EndsWithStep() ==> Spent() < work.timeoutMs)
      ensures pass.Stop? || pass.Gone? ==> !trace.active
      ensures world.start.SecretMissing? ==>
                pass == Stop(RunStatus.Failed, Some(MissingSecret)) || EndedElsewhere(pass)
      ensures world.start.LaunchFails? ==>
                pass == Stop(RunStatus.Failed, Some(StartupFailed)) || EndedElsewhere(pass)
    {
      hide Sound, OnTime, Accounted, Shape, SkipsHaveReason, Recorded, Looked, NextMoment;
      if world.start.SecretMissing? {
        pass := SkipRestAndStop(0, RunStatus.Failed, Some(MissingSecret));
        return;
      }
      if world.start.LaunchFails? {
        pass := SkipRestAndStop(0, RunStatus.Failed, Some(StartupFailed));
        return;
      }
      if world.start.StartRaises? {
        return Escaped;
      }
      StartTrace();
      pass := RunSteps();
      if !pass.Died? {
        var raised := FinishTrace();
        if raised {
          pass := Escaped;
        }
      }
    }

    method StartTrace()
      requires Valid() && trace.reasons == {}
      modifies trace
      ensures Valid() && trace.Quiet() && trace.reasons == {} && trace.outcomes == old(trace.outcomes) && trace.active
    {
      trace.Start();
    }

    method FinishTrace() returns (raised: bool)
      requires Valid()
      modifies trace
      ensures Valid() && old(trace.outcomes) <= trace.outcomes && trace.active == raised
      ensures raised ==> StoreFailed in trace.outcomes
    {
      raised := trace.Finish();
    }

    /** The end of the Run: time keeps counting until here. */
    method LaterNow() returns (at: int)
      requires Valid() && inAutomation
      modifies `now, `cursor
      ensures Valid() && at == now && Spent() >= old(Spent()) && cursor > old(cursor)
    {
      hide Sound, Accounted, Tiled, Forward;
      ghost var before := now;
      at := Now();
      LongerIsMore(before - automationClock, now - automationClock);
    }

    /** The end of a settled Run: leave automation and finish. */
    method Conclude(status: RunStatus, reason: Option<FailureReason>) returns (accepted: bool)
      requires Settled(status, reason) && !lost
      modifies `now, `cursor, `automationMs, `inAutomation, `interval, `spans, tables
      ensures Core() && Terminal(tables.row.status)
      ensures |written| == |work.steps| && Shape(status, reason, AsResults(written))
      ensures (status.Succeeded? ==> SkippedWithReason()) && (status.Cancelled? ==> CancelSeen())
      ensures Explained(world, work.steps, status, reason, written, origins)
      ensures (old(LookedAfter()) ==> LookedAfter()) && (accepted ==> tables.row.automationMs >= old(Spent()))
      ensures accepted ==>
                && tables.row.status == status && tables.row.reason == reason
                && tables.results == AsResults(written)
                && Tiled(tables.intervals, began) && tables.intervals != []
                && tables.intervals[|tables.intervals| - 1].kind.Automation?
                && tables.intervals[|tables.intervals| - 1].endedAt == tables.row.endedAt
                && Accounted(tables.intervals, tables.row.automationMs)
                && (reason == Some(RunTimeout) ==> tables.row.automationMs >= work.timeoutMs)
    {
      hide Sound, Accounted, Tiled, Shape, SkipsHaveReason, Forward, Explained;
      var at := LaterNow();
      LeaveAutomation(at);
      accepted := FinishRow(status, reason, at);
    }

    method Begin()
      requires Valid() && !inAutomation && interval.None? && !parked && spans == [] && trace.Quiet()
      requires written == [] && origins == [] && !lost
      modifies `now, `cursor, `began, `automationClock, `inAutomation, `interval, `spans, tables
      ensures Stepping(0)
    {
      hide Sound, Accounted, Forward;
      var at := Now();
      began := at;
      EnterAutomation(at);
    }

    /** The Run was taken from this Worker. */
    method GiveUp()
      requires Valid()
      modifies `now, `cursor, `interval, `spans, tables
      ensures Core() && interval.None?
    {
      hide Sound, Tiled, Accounted, Forward;
      var at := Now();
      CloseOpen(at);
    }

    /** `execute`: whatever happens outside, the Worker keeps its promise (`Obeys`), never traces a
        secret Step or a takeover, and on every way out its intervals are tiled, and are the Run's as
        long as that is live (`Core`).  Every result is what the world made of its Step.  When it finishes
        the Run the results fit the outcome and explain it, and only automation counts towards its time. */
    method Execute() returns (exit: Exit)
      requires Valid() && !inAutomation && interval.None? && !parked && written == [] && spans == []
      requires trace.Quiet() && trace.reasons == {} && !trace.active && origins == [] && !lost
      modifies this, tables, trace
      ensures Recorded(world, work.steps, written, origins) && Looked(world, origins)
      ensures AsThePagesSaid(world, work.steps, written, origins)
      ensures Core() && Inv(tables.n, tables.State()) && tables.row.startedAt.Some?
      ensures tables.Valid() && Obeys(tables.n, tables.queuedAt, tables.history)
      ensures Tiled(spans, began) && spans == WorkerSpans(tables.history)
      ensures !Terminal(tables.row.status) ==> tables.intervals == spans && tables.results == AsResults(written)
      ensures forall i :: 0 <= i < |watched| ==>
                match watched[i]
                case StepDone(secret, traced) => !(secret && traced)
                case ParkPolled(traced) => !traced
      ensures exit.Lost? ==> lost && interval.None?
      ensures exit.Broken? ==> life == 0 || Excused()
      ensures exit.Finished? ==>
                && Terminal(tables.row.status)
                && |written| == |work.steps| && Shape(exit.status, exit.reason, AsResults(written))
                && (exit.status.Succeeded? ==> SkippedWithReason())
                && (exit.status.Cancelled? ==> CancelSeen())
                && Explained(world, work.steps, exit.status, exit.reason, written, origins)
      ensures !exit.Broken? ==> !trace.active
      ensures exit.Finished? && exit.status.Succeeded? ==>
                LookedAfter() && (EndsWithStep() ==> decided < work.timeoutMs)
      ensures exit.Finished? && exit.accepted ==>
                && tables.row.status == exit.status && tables.row.reason == exit.reason
                && tables.results == AsResults(written)
                && Tiled(tables.intervals, began) && tables.intervals != []
                && tables.intervals[|tables.intervals| - 1].kind.Automation?
                && tables.intervals[|tables.intervals| - 1].endedAt == tables.row.endedAt
                && Accounted(tables.intervals, tables.row.automationMs) && decided <= tables.row.automationMs
                && (exit.reason == Some(RunTimeout) ==> tables.row.automationMs >= work.timeoutMs)
    {
      hide Sound, OnTime, Accounted, Shape, Stepping, Settled, Obeys, Tiled, Inv, WorkerSpans, SkipsHaveReason,
        CancelSeen, Explained, Recorded, Looked, LookedAfter, EndsWithStep, AsThePagesSaid, Excused,
        Valid, Core, Spent;
      Begin();
      var pass := Drive();
      decided := Spent();
      var gone := IsLost();
      if pass.Escaped? || pass.Died? {
        ValidIsCore();
        exit := Broken;
      } else if gone {
        GiveUp();
        exit := Lost;
      } else {
        var accepted := Conclude(pass.status, pass.reason);
        exit := Finished(pass.status, pass.reason, accepted);
      }
      Promised();
      RecordedIsAsThePagesSaid(world, work.steps, written, origins);
    }

    lemma ValidIsCore()
      requires Valid()
      ensures Core()
    {
      hide Sound, OnTime, Accounted;
    }

    /** What the invariant says about the database and the trace. */
    lemma Promised()
      requires Core()
      ensures tables.Valid() && Obeys(tables.n, tables.queuedAt, tables.history) && Inv(tables.n, tables.State())
      ensures tables.row.startedAt.Some? && Tiled(spans, began) && spans == WorkerSpans(tables.history)
      ensures !Terminal(tables.row.status) ==> tables.intervals == spans && tables.results == AsResults(written)
      ensures forall i :: 0 <= i < |watched| ==>
                match watched[i]
                case StepDone(secret, traced) => !(secret && traced)
                case ParkPolled(traced) => !traced
    {
      hide Obeys, Inv, WorkerSpans, Tiled, Forward, AsResults;
    }
  }

  /** However the Worker left an ended Run: its intervals have all ended with it if and only if the
      Worker's last one had by then, or was open when somebody closed the Run. */
  lemma LeftIntervals(w: Worker)
    requires w.Core() && Terminal(w.tables.row.status)
    ensures w.tables.row.endedAt.Some?
    ensures Within(w.tables.State()) <==>
            LastEndsInTime(w.spans, ClosedWith(w.tables.n, w.tables.queuedAt, w.tables.history),
                           w.tables.row.endedAt.value)
    ensures Within(w.tables.State()) ==> Tiled(w.tables.intervals, w.began)
  {
    hide Replay, WorkerSpans, ClosedWith, Obeys, Tiled, LastEndsInTime, Within, Agrees;
    IntervalsEndWithRun(w.tables.n, w.tables.queuedAt, w.tables.history, w.began);
  }
}
