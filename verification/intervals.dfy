/**
 The control intervals of a Run over whole histories: what the Worker's own transactions make of
 them, what the end of the Run makes of that, and exactly when they end with the Run.
 */
module Intervals {
  import opened Wrappers
  import opened RunProtocol

  predicate Follows(a: Kind, b: Kind) {
    match a
    case Automation => b.WaitingForPerson?
    case WaitingForPerson => b.Human?
    case Human => b.Verifying?
    case Verifying => b.WaitingForPerson? || b.Automation?
  }

  /** The intervals follow one another without gap or overlap from `began`; only the last may be open. */
  ghost predicate Tiled(spans: seq<Interval>, began: int) {
    && (spans != [] ==> spans[0].startedAt == began && spans[0].kind.Automation?)
    && (forall i :: 0 <= i < |spans| && spans[i].endedAt.Some? ==> spans[i].startedAt <= spans[i].endedAt.value)
    && (forall i :: 0 <= i < |spans| - 1 ==>
          spans[i].endedAt == Some(spans[i + 1].startedAt) && Follows(spans[i].kind, spans[i + 1].kind))
  }

  /** What one transaction makes of the intervals if nobody but the Worker touches them. */
  function Spanned(spans: seq<Interval>, e: Event): seq<Interval> {
    match e
    case StartInterval(kind, at) => spans + [Interval(kind, at, None)]
    case EndInterval(handle, at) =>
      if handle < |spans| then spans[handle := spans[handle].(endedAt := Some(at))] else spans
    case _ => spans
  }

  /** The intervals as the Worker's own transactions made them. */
  function WorkerSpans(h: seq<Event>): seq<Interval> {
    if h == [] then [] else Spanned(WorkerSpans(h[..|h| - 1]), h[|h| - 1])
  }

  lemma WorkerSpansStep(h: seq<Event>, e: Event)
    ensures WorkerSpans(h + [e]) == Spanned(WorkerSpans(h), e)
  {
    assert (h + [e])[..|h + [e]| - 1] == h;
  }

  /** Somebody other than the Worker ends a Run that waits for a person. */
  predicate Closes(s: State, e: Event) {
    match e
    case Cancel(_) => s.row.status.Waiting?
    case Abandon(_) => s.row.status.Waiting?
    case ReapTakeover(now) => Overdue(s.row, now)
    case _ => false
  }

  /** How many intervals there were when the waiting Run was closed; none if it never was. */
  function ClosedWith(n: nat, queuedAt: int, h: seq<Event>): nat {
    if h == [] then 0
    else
      var init, e := h[..|h| - 1], h[|h| - 1];
      if Closes(Replay(n, queuedAt, init), e) then |Replay(n, queuedAt, init).intervals|
      else ClosedWith(n, queuedAt, init)
  }

  /** The rows are the Worker's own intervals, those open at the close ended with the Run. */
  ghost predicate Merged(s: State, spans: seq<Interval>, closedWith: nat) {
    && closedWith <= |spans| == |s.intervals|
    && (closedWith > 0 ==> Terminal(s.row.status) && s.row.endedAt.Some?)
    && forall i :: 0 <= i < |spans| ==>
         s.intervals[i] ==
         if i < closedWith && spans[i].endedAt.None? then spans[i].(endedAt := s.row.endedAt) else spans[i]
  }

  lemma ClosingMerges(n: nat, s: State, spans: seq<Interval>, e: Event)
    requires Merged(s, spans, 0) && Closes(s, e)
    ensures Merged(Apply(n, s, e), spans, |spans|) && Spanned(spans, e) == spans
  {
  }

  lemma OtherStepMerges(n: nat, s: State, spans: seq<Interval>, closedWith: nat, e: Event)
    requires Inv(n, s) && Disciplined(n, s, e) && Merged(s, spans, closedWith) && !Closes(s, e)
    ensures Merged(Apply(n, s, e), Spanned(spans, e), closedWith)
  {
    if Terminal(s.row.status) {
      TerminalStays(n, s, e);
    }
    OtherStepIntervals(n, s, e);
    hide Apply, Disciplined, Inv;
  }

  lemma OtherStepIntervals(n: nat, s: State, e: Event)
    requires !Closes(s, e)
    ensures Apply(n, s, e).intervals == Spanned(s.intervals, e)
  {
  }

  lemma {:induction false} HistoryMerges(n: nat, queuedAt: int, h: seq<Event>)
    requires Obeys(n, queuedAt, h)
    ensures Merged(Replay(n, queuedAt, h), WorkerSpans(h), ClosedWith(n, queuedAt, h))
  {
    if h != [] {
      hide Merged, Apply, Inv, Disciplined;
      var init, e := h[..|h| - 1], h[|h| - 1];
      HistoryMerges(n, queuedAt, init);
      EveryHistoryKeepsInv(n, queuedAt, init);
      var s := Replay(n, queuedAt, init);
      if Closes(s, e) {
        NotClosedBefore(s, WorkerSpans(init), ClosedWith(n, queuedAt, init));
        ClosingMerges(n, s, WorkerSpans(init), e);
      } else {
        OtherStepMerges(n, s, WorkerSpans(init), ClosedWith(n, queuedAt, init), e);
      }
    }
  }

  lemma NotClosedBefore(s: State, spans: seq<Interval>, closedWith: nat)
    requires Merged(s, spans, closedWith) && s.row.status.Waiting?
    ensures closedWith == 0 && Merged(s, spans, 0) && |s.intervals| == |spans|
  {
  }

  // ------------------------------------------------------------ the end of the Run

  /** Every interval has ended, none of them before it started or after the Run. */
  ghost predicate Within(s: State) {
    && s.row.endedAt.Some?
    && forall i :: 0 <= i < |s.intervals| ==>
         && s.intervals[i].endedAt.Some?
         && s.intervals[i].startedAt <= s.intervals[i].endedAt.value <= s.row.endedAt.value
  }

  /** The Worker started its last interval before the Run ended, and ended it no later than the Run or
      left it to whoever closed the Run. */
  predicate LastEndsInTime(spans: seq<Interval>, closedWith: nat, endedAt: int) {
    spans == [] ||
    var last := spans[|spans| - 1];
    && last.startedAt <= endedAt
    && if last.endedAt.Some? then last.endedAt.value <= endedAt else closedWith == |spans|
  }

  /** In a tiled time line no interval ends after a later one has started. */
  lemma {:induction false} EarlierEndsFirst(spans: seq<Interval>, began: int, i: nat)
    requires Tiled(spans, began) && i < |spans| - 1
    ensures spans[i].endedAt.Some? && spans[i].endedAt.value <= spans[|spans| - 1].startedAt
    decreases |spans| - i
  {
    assert spans[i].endedAt == Some(spans[i + 1].startedAt);
    if i + 1 < |spans| - 1 {
      EarlierEndsFirst(spans, began, i + 1);
    }
  }

  /** Main result, over every interleaving: an ended Run's intervals have all ended, none after the Run,
      if and only if its Worker ended its last interval by then, or left it open for a close from
      outside.  So what breaks it is a lost Worker's open interval, and an interval the Worker starts
      or ends after its Run was closed. */
  lemma IntervalsEndWithRun(n: nat, queuedAt: int, h: seq<Event>, began: int)
    requires Obeys(n, queuedAt, h) && Terminal(Replay(n, queuedAt, h).row.status)
    requires Tiled(WorkerSpans(h), began)
    ensures Replay(n, queuedAt, h).row.endedAt.Some?
    ensures Within(Replay(n, queuedAt, h)) <==>
            LastEndsInTime(WorkerSpans(h), ClosedWith(n, queuedAt, h), Replay(n, queuedAt, h).row.endedAt.value)
    ensures Within(Replay(n, queuedAt, h)) ==> Tiled(Replay(n, queuedAt, h).intervals, began)
  {
    hide Replay, WorkerSpans, ClosedWith, Obeys, Tiled;
    EveryHistoryKeepsInv(n, queuedAt, h);
    HistoryMerges(n, queuedAt, h);
    var spans := WorkerSpans(h);
    forall i: nat | i < |spans| - 1
      ensures spans[i].endedAt.Some? && spans[i].endedAt.value <= spans[|spans| - 1].startedAt
    {
      EarlierEndsFirst(spans, began, i);
    }
    MergedWithin(Replay(n, queuedAt, h), spans, ClosedWith(n, queuedAt, h), began);
  }

  lemma MergedWithin(s: State, spans: seq<Interval>, closedWith: nat, began: int)
    requires Merged(s, spans, closedWith) && Tiled(spans, began) && s.row.endedAt.Some?
    requires forall i: nat :: i < |spans| - 1 ==>
               spans[i].endedAt.Some? && spans[i].endedAt.value <= spans[|spans| - 1].startedAt
    ensures Within(s) <==> LastEndsInTime(spans, closedWith, s.row.endedAt.value)
    ensures Within(s) ==> Tiled(s.intervals, began)
  {
    if spans != [] {
      var k := |spans| - 1;
      assert Within(s) ==> s.intervals[k].endedAt.Some?;
      assert forall i :: 0 <= i < k ==> s.intervals[i] == spans[i];
      assert spans[k].endedAt.Some? || closedWith == |spans| <==> s.intervals[k].endedAt.Some?;
    }
  }

  /** Once a Run has ended with its intervals, only two transactions spoil that: starting another
      interval, and ending one past the end of the Run or before it started. */
  lemma WhatSpoilsAnEndedRun(n: nat, s: State, e: Event)
    requires Inv(n, s) && Disciplined(n, s, e) && Terminal(s.row.status) && Within(s)
    ensures Within(Apply(n, s, e)) <==>
            && !e.StartInterval?
            && (e.EndInterval? && e.handle < |s.intervals| ==>
                  s.intervals[e.handle].startedAt <= e.at <= s.row.endedAt.value)
  {
    var t := Apply(n, s, e);
    TerminalStays(n, s, e);
    if e.StartInterval? {
      assert t.intervals[|s.intervals|].endedAt.None?;
    } else if e.EndInterval? && e.handle < |s.intervals| {
      assert t.intervals[e.handle].endedAt == Some(e.at);
    } else {
      assert t.intervals == s.intervals;
    }
  }

  /** Closing a tiled time line not before its last interval started leaves it tiled, with nothing open. */
  lemma ClosingTiles(spans: seq<Interval>, began: int, at: int)
    requires Tiled(spans, began) && spans != [] && spans[|spans| - 1].startedAt <= at
    ensures Tiled(AllEnded(spans, at), began)
    ensures var last := AllEnded(spans, at)[|spans| - 1];
            last.endedAt == if spans[|spans| - 1].endedAt.Some? then spans[|spans| - 1].endedAt else Some(at)
  {
    var k, closed := |spans| - 1, AllEnded(spans, at);
    forall i | 0 <= i < k
      ensures closed[i] == spans[i]
    {
      assert spans[i].endedAt == Some(spans[i + 1].startedAt);
    }
    assert closed[k] == Ended(spans[k], at);
  }

  lemma Obeyed(n: nat, queuedAt: int, h: seq<Event>, e: Event)
    requires Obeys(n, queuedAt, h) && Disciplined(n, Replay(n, queuedAt, h), e)
    ensures Obeys(n, queuedAt, h + [e])
    ensures Replay(n, queuedAt, h + [e]) == Apply(n, Replay(n, queuedAt, h), e)
    ensures WorkerSpans(h + [e]) == Spanned(WorkerSpans(h), e)
  {
    assert (h + [e])[..|h + [e]| - 1] == h;
  }

  lemma ParkedAtTwo() returns (h: seq<Event>)
    ensures Obeys(1, 0, h)
    ensures WorkerSpans(h) == [Interval(Automation, 1, Some(2)), Interval(WaitingForPerson, 2, None)]
    ensures Replay(1, 0, h).intervals == WorkerSpans(h) && Replay(1, 0, h).row.status.Waiting?
  {
    hide Replay, Obeys, WorkerSpans;
    Nothing();
    h := [];
    Obeyed(1, 0, h, Claim("w", 1));
    h := h + [Claim("w", 1)];
    Obeyed(1, 0, h, StartInterval(Automation, 1));
    h := h + [StartInterval(Automation, 1)];
    Obeyed(1, 0, h, EndInterval(0, 2));
    h := h + [EndInterval(0, 2)];
    Obeyed(1, 0, h, StartInterval(WaitingForPerson, 2));
    h := h + [StartInterval(WaitingForPerson, 2)];
    Obeyed(1, 0, h, Park(8, 2));
    h := h + [Park(8, 2)];
  }

  /** It happens: the Run is parked and abandoned, and its Worker, who opened and closed its intervals
      as always, ends the waiting one when it finds out. */
  lemma LateEndOutlivesRun() returns (h: seq<Event>)
    ensures Obeys(1, 0, h) && Tiled(WorkerSpans(h), 1)
    ensures var s := Replay(1, 0, h);
            && Terminal(s.row.status) && s.row.endedAt == Some(4) && !Within(s)
            && |s.intervals| == 2 && s.intervals[1] == Interval(WaitingForPerson, 2, Some(9))
  {
    hide Replay, Obeys, WorkerSpans, Filled;
    h := ParkedAtTwo();
    Obeyed(1, 0, h, Abandon(4));
    h := h + [Abandon(4)];
    Obeyed(1, 0, h, EndInterval(1, 9));
    h := h + [EndInterval(1, 9)];
    assert Replay(1, 0, h).intervals[1].endedAt == Some(9);
  }

  lemma Nothing()
    ensures Obeys(1, 0, []) && Replay(1, 0, []) == Fresh(0) && WorkerSpans([]) == []
  {
  }
}
