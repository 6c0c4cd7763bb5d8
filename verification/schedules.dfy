/**
 One Schedule, its recorded holes and its Runs (`schedules/fire.py`,
 `schedules/cron.py`, `schedules/routes.py`).  A cron expression in a timezone
 is its next-after function on instants in microseconds; nothing is assumed of
 it but that it steps from one instant of a set to the next, at least a second
 later.  `ledger` remembers what became of every occurrence.
 */
module Schedules {
  import opened Wrappers
  import opened RunProtocol

  const SECOND := 1_000_000
  const GRACE := 120 * SECOND
  const PRUNE_DEPTH := 500

  type Cron = int -> int

  /** `next_occurrence`. */
  function NextAfter(cron: Cron, t: int): int {
    cron(t)
  }

  ghost predicate IsCron(next: Cron) {
    && (forall t {:trigger NextAfter(next, t)} :: NextAfter(next, t) > t)
    && (forall t, u {:trigger NextAfter(next, t), NextAfter(next, u)} ::
          t <= u < NextAfter(next, t) ==> NextAfter(next, u) == NextAfter(next, t))
    && (forall t {:trigger NextAfter(next, NextAfter(next, t))} ::
          NextAfter(next, NextAfter(next, t)) >= NextAfter(next, t) + SECOND)
  }

  /** Every second on the second is such a function. */
  lemma EverySecondIsCron()
    ensures IsCron((t: int) => (t / SECOND + 1) * SECOND)
  {
    var next: Cron := (t: int) => (t / SECOND + 1) * SECOND;
    forall t: int
      ensures NextAfter(next, t) > t
      ensures NextAfter(next, NextAfter(next, t)) == NextAfter(next, t) + SECOND
    {
      EverySecond(t);
    }
    forall t: int, u: int | t <= u < NextAfter(next, t)
      ensures NextAfter(next, u) == NextAfter(next, t)
    {
      EverySecond(t);
      EverySecond(u);
    }
  }

  lemma EverySecond(t: int)
    ensures t < (t / SECOND + 1) * SECOND <= t + SECOND
    ensures ((t / SECOND + 1) * SECOND) / SECOND == t / SECOND + 1
  {
  }

  predicate Occurs(next: Cron, t: int) {
    NextAfter(next, t - 1) == t
  }

  /** The occurrences after `from`, up to and including `until`, in order. */
  ghost function After(next: Cron, from: int, until: int): (found: seq<int>)
    requires IsCron(next)
    decreases until - from
  {
    if NextAfter(next, from) > until then [] else [NextAfter(next, from)] + After(next, NextAfter(next, from), until)
  }

  ghost predicate Increasing(s: seq<int>) {
    forall i, j :: 0 <= i < j < |s| ==> s[i] < s[j]
  }

  /** `After` lists exactly the occurrences of the interval, at least a second apart. */
  lemma {:induction false} AfterIsExact(next: Cron, from: int, until: int)
    requires IsCron(next)
    ensures forall t :: t in After(next, from, until) <==> from < t <= until && Occurs(next, t)
    ensures var s := After(next, from, until);
            forall i, j :: 0 <= i <= j < |s| ==> s[j] - s[i] >= (j - i) * SECOND
    ensures var s := After(next, from, until);
            |s| > 0 ==> s[0] == NextAfter(next, from) && NextAfter(next, s[|s| - 1]) > until
    decreases until - from
  {
    var first := NextAfter(next, from);
    if first <= until {
      var rest := After(next, first, until);
      AfterIsExact(next, first, until);
      var s := [first] + rest;
      assert NextAfter(next, first - 1) == first;
      forall t | from < t <= until && Occurs(next, t)
        ensures t in s
      {
        assert t < first ==> NextAfter(next, t - 1) == first;
      }
      forall t | t in s
        ensures from < t <= until && Occurs(next, t)
      {
        if t != first {
          assert t in rest;
        }
      }
      forall i, j | 0 <= i <= j < |s|
        ensures s[j] - s[i] >= (j - i) * SECOND
      {
        if i == 0 < j {
          assert rest[0] == NextAfter(next, first) && s[j] == rest[j - 1];
          assert rest[j - 1] - rest[0] >= (j - 1 - 0) * SECOND;
          assert NextAfter(next, NextAfter(next, from)) >= NextAfter(next, from) + SECOND;
        } else if i > 0 {
          assert rest[j - 1] - rest[i - 1] >= ((j - 1) - (i - 1)) * SECOND;
        }
      }
    } else {
      forall t | from < t <= until
        ensures !Occurs(next, t)
      {
        assert NextAfter(next, t - 1) == first;
      }
    }
  }

  lemma AfterIncreases(next: Cron, from: int, until: int)
    requires IsCron(next)
    ensures Increasing(After(next, from, until))
  {
    AfterIsExact(next, from, until);
    var s := After(next, from, until);
    forall i, j | 0 <= i < j < |s|
      ensures s[i] < s[j]
    {
      assert s[j] - s[i] >= (j - i) * SECOND;
    }
  }

  lemma {:induction false} AfterSplits(next: Cron, from: int, middle: int, until: int)
    requires IsCron(next) && from <= middle <= until
    ensures After(next, from, until) == After(next, from, middle) + After(next, middle, until)
    decreases until - from
  {
    var first := NextAfter(next, from);
    if first <= middle {
      AfterSplits(next, first, middle, until);
    } else {
      assert NextAfter(next, middle) == first;
    }
  }

  // ------------------------------------------------------------- classification

  datatype HoleReason = Overlap(blocking: nat) | Missed | MissingValues

  datatype Hole = Hole(at: int, reason: HoleReason)

  /** What became of one occurrence. */
  datatype Entry = Fired(at: int, run: nat) | Noted(at: int, reason: HoleReason) | Clipped(at: int)

  /** What a tick at `now` does with the due occurrences `due`, when the open Run of the Schedule
      is `blocking` and a Run it starts would be `runId`. */
  function Classify(due: seq<int>, now: int, published: bool, missing: bool, blocking: Option<nat>,
                    runId: nat): seq<Entry> {
    if due == [] then []
    else if missing then
      [Noted(due[0], MissingValues)] + Classify(due[1..], now, published, missing, blocking, runId)
    else if now - due[0] > GRACE then
      [Noted(due[0], Missed)] + Classify(due[1..], now, published, missing, blocking, runId)
    else if blocking.Some? then
      [Noted(due[0], Overlap(blocking.value))] + Classify(due[1..], now, published, missing, blocking, runId)
    else if published then
      [Fired(due[0], runId)] + Classify(due[1..], now, published, missing, Some(runId), runId)
    else
      [Noted(due[0], Missed)] + Classify(due[1..], now, published, missing, blocking, runId)
  }

  function HolesOf(entries: seq<Entry>): seq<Hole> {
    if entries == [] then []
    else
      var last := entries[|entries| - 1];
      HolesOf(entries[..|entries| - 1]) + if last.Noted? then [Hole(last.at, last.reason)] else []
  }

  ghost predicate AllLate(due: seq<int>, now: int) {
    forall i :: 0 <= i < |due| ==> now - due[i] > 120_000_000
  }

  predicate Fires(entries: seq<Entry>) {
    exists i :: 0 <= i < |entries| && entries[i].Fired?
  }

  function Newest<T>(s: seq<T>, n: nat): seq<T> {
    if |s| <= n then s else s[|s| - n..]
  }

  /** What is clipped off a long backlog. */
  function Backlog(due: seq<int>): seq<int> {
    due[..|due| - |Newest(due, PRUNE_DEPTH)|]
  }

  lemma {:induction false} HolesOfConcat(a: seq<Entry>, b: seq<Entry>)
    ensures HolesOf(a + b) == HolesOf(a) + HolesOf(b)
  {
    if b == [] {
      assert a + b == a;
    } else {
      assert (a + b)[..|a + b| - 1] == a + b[..|b| - 1];
      HolesOfConcat(a, b[..|b| - 1]);
    }
  }

  /** One entry for each due occurrence, in order; at most one Run, and only for an occurrence
      within the grace window, with nothing blocking and a published Version. */
  lemma {:induction false} ClassifyIsFaithful(due: seq<int>, now: int, published: bool, missing: bool,
                                              blocking: Option<nat>, runId: nat)
    ensures var e := Classify(due, now, published, missing, blocking, runId);
            && |e| == |due|
            && (forall i :: 0 <= i < |e| ==> e[i].at == due[i] && !e[i].Clipped?)
            && (forall i, j :: 0 <= i < |e| && 0 <= j < |e| && e[i].Fired? && e[j].Fired? ==> i == j)
            && (forall i :: 0 <= i < |e| && e[i].Fired? ==>
                  e[i].run == runId && now - due[i] <= 120_000_000 && !missing && published && blocking.None?)
  {
    if due != [] {
      var e := Classify(due, now, published, missing, blocking, runId);
      var b := if !missing && now - due[0] <= GRACE && blocking.None? && published then Some(runId) else blocking;
      var rest := Classify(due[1..], now, published, missing, b, runId);
      ClassifyIsFaithful(due[1..], now, published, missing, b, runId);
      assert e == [e[0]] + rest;
    }
  }

  /** What becomes of a due occurrence, for what reason: values that are missing come first, then its
      being more than two minutes late, then the Run it finds open, then the want of a Version.  The
      first that nothing of this keeps fires, and its Run is in the way of the ones after it. */
  ghost predicate EntryFits(due: seq<int>, now: int, published: bool, missing: bool, blocking: Option<nat>,
                            runId: nat, i: nat, e: Entry)
    requires i < |due|
  {
    e == if missing then Noted(due[i], MissingValues)
         else if now - due[i] > 120_000_000 then Noted(due[i], Missed)
         else if blocking.Some? then Noted(due[i], Overlap(blocking.value))
         else if !published then Noted(due[i], Missed)
         else if SomeOnTime(due[..i], now) then Noted(due[i], Overlap(runId))
         else Fired(due[i], runId)
  }

  /** The exact entry of each due occurrence. */
  lemma {:induction false} ClassifyExactly(due: seq<int>, now: int, published: bool, missing: bool,
                                           blocking: Option<nat>, runId: nat)
    ensures var e := Classify(due, now, published, missing, blocking, runId);
            && |e| == |due|
            && forall i :: 0 <= i < |e| ==> EntryFits(due, now, published, missing, blocking, runId, i, e[i])
  {
    if due != [] {
      var e := Classify(due, now, published, missing, blocking, runId);
      var onTime := now - due[0] <= 120_000_000;
      var b := if !missing && onTime && blocking.None? && published then Some(runId) else blocking;
      var rest := Classify(due[1..], now, published, missing, b, runId);
      ClassifyExactly(due[1..], now, published, missing, b, runId);
      assert e == [e[0]] + rest;
      hide SomeOnTime;
      NoneBefore(due, now);
      forall i | 0 < i < |e|
        ensures EntryFits(due, now, published, missing, blocking, runId, i, e[i])
      {
        assert EntryFits(due[1..], now, published, missing, b, runId, i - 1, rest[i - 1]);
        assert due[1..][..i - 1] == due[..i][1..];
        SomeOnTimeStep(due[..i], now);
      }
    }
  }

  lemma NoneBefore(due: seq<int>, now: int)
    requires due != []
    ensures !SomeOnTime(due[..0], now)
  {
  }

  /** A tick records a hole for every due occurrence but the one that fires. */
  lemma {:induction false} AllButOneAreHoles(due: seq<int>, now: int, published: bool, missing: bool,
                                             blocking: Option<nat>, runId: nat)
    ensures var e := Classify(due, now, published, missing, blocking, runId);
            |HolesOf(e)| == if Fires(e) then |due| - 1 else |due|
  {
    if due != [] {
      var e := Classify(due, now, published, missing, blocking, runId);
      var b := if !missing && now - due[0] <= GRACE && blocking.None? && published then Some(runId) else blocking;
      var rest := Classify(due[1..], now, published, missing, b, runId);
      assert e == [e[0]] + rest;
      AllButOneAreHoles(due[1..], now, published, missing, b, runId);
      ClassifyIsFaithful(due[1..], now, published, missing, b, runId);
      HolesOfConcat([e[0]], rest);
      assert [e[0]][..0] == [];
      FiresConcat([e[0]], rest);
    }
  }

  ghost predicate SomeOnTime(due: seq<int>, now: int) {
    exists i :: 0 <= i < |due| && now - due[i] <= 120_000_000
  }

  /** A tick starts a Run if and only if an occurrence is within the grace window, values are complete,
      a Version is published and no Run is open. */
  lemma {:induction false} FiresExactly(due: seq<int>, now: int, published: bool, missing: bool,
                                        blocking: Option<nat>, runId: nat)
    ensures Fires(Classify(due, now, published, missing, blocking, runId)) <==>
            !missing && published && blocking.None? && SomeOnTime(due, now)
  {
    if due != [] {
      var e := Classify(due, now, published, missing, blocking, runId);
      var free := !missing && now - due[0] <= GRACE && blocking.None? && published;
      var rest := Classify(due[1..], now, published, missing, if free then Some(runId) else blocking, runId);
      assert e == [e[0]] + rest;
      FiresExactly(due[1..], now, published, missing, if free then Some(runId) else blocking, runId);
      FiresConcat([e[0]], rest);
      assert [e[0]][0] == e[0];
      SomeOnTimeStep(due, now);
    }
  }

  lemma SomeOnTimeStep(due: seq<int>, now: int)
    requires due != []
    ensures SomeOnTime(due, now) <==> now - due[0] <= GRACE || SomeOnTime(due[1..], now)
  {
    if SomeOnTime(due, now) && now - due[0] > GRACE {
      var i :| 0 <= i < |due| && now - due[i] <= GRACE;
      assert due[1..][i - 1] == due[i];
    }
    if SomeOnTime(due[1..], now) {
      var i :| 0 <= i < |due[1..]| && now - due[1..][i] <= GRACE;
      assert due[i + 1] == due[1..][i];
    }
  }

  /** An occurrence after `from`, up to now, within the grace window. */
  ghost predicate DueOnTime(next: Cron, from: int, now: int) {
    exists t :: from < t <= now && now - t <= 120_000_000 && Occurs(next, t)
  }

  /** Clipping a backlog keeps what is on time. */
  lemma OnTimeIsKept(next: Cron, from: int, now: int)
    requires IsCron(next)
    ensures SomeOnTime(Newest(After(next, from, now), PRUNE_DEPTH), now) <==> DueOnTime(next, from, now)
  {
    var all := After(next, from, now);
    AfterIsExact(next, from, now);
    ClippedIsLate(next, from, now);
    hide IsCron, After, AllLate;
    OnTimeSurvives(all, now);
    if SomeOnTime(all, now) {
      var i :| 0 <= i < |all| && now - all[i] <= GRACE;
      assert all[i] in all;
    }
    if DueOnTime(next, from, now) {
      var t :| from < t <= now && now - t <= GRACE && Occurs(next, t);
      assert t in all;
    }
  }

  lemma OnTimeSurvives(all: seq<int>, now: int)
    requires AllLate(Backlog(all), now)
    ensures SomeOnTime(Newest(all, PRUNE_DEPTH), now) <==> SomeOnTime(all, now)
  {
    var late, kept := Backlog(all), Newest(all, PRUNE_DEPTH);
    if SomeOnTime(all, now) {
      var i :| 0 <= i < |all| && now - all[i] <= GRACE;
      forall j | 0 <= j < |late|
        ensures now - all[j] > GRACE
      {
        assert all[j] == late[j];
      }
      assert kept[i - |late|] == all[i];
    }
    if SomeOnTime(kept, now) {
      var i :| 0 <= i < |kept| && now - kept[i] <= GRACE;
      assert all[|late| + i] == kept[i];
    }
  }

  /** Occurrences outside the grace window come to nothing and change nothing. */
  lemma {:induction false} LateOnesChangeNothing(late: seq<int>, due: seq<int>, now: int, published: bool,
                                                 missing: bool, blocking: Option<nat>, runId: nat)
    requires AllLate(late, now)
    ensures Classify(late + due, now, published, missing, blocking, runId) ==
            Classify(late, now, published, missing, blocking, runId)
            + Classify(due, now, published, missing, blocking, runId)
    ensures !Fires(Classify(late, now, published, missing, blocking, runId))
  {
    ClassifyIsFaithful(late, now, published, missing, blocking, runId);
    if late == [] {
      assert late + due == due;
    } else {
      assert (late + due)[1..] == late[1..] + due;
      LateOnesChangeNothing(late[1..], due, now, published, missing, blocking, runId);
    }
  }

  /** Nothing that is clipped off a backlog could have been on time: the grace window is too short. */
  lemma ClippedIsLate(next: Cron, from: int, now: int)
    requires IsCron(next)
    ensures AllLate(Backlog(After(next, from, now)), now)
  {
    var due := After(next, from, now);
    var late := Backlog(due);
    AfterIsExact(next, from, now);
    forall i | 0 <= i < |late|
      ensures now - late[i] > GRACE
    {
      assert due[|due| - 1] - due[i] >= (|due| - 1 - i) * SECOND;
      assert due[|due| - 1] in due;
      assert (|due| - 1 - i) >= PRUNE_DEPTH;
    }
  }

  /** Main result on clipping: recording only the newest 500 of a backlog and then pruning keeps
      the same newest 499 holes as recording all of it, and the same 500 when no Run fires. */
  lemma ClippingLosesNothing(next: Cron, from: int, now: int, published: bool, missing: bool, blocking: Option<nat>,
                             runId: nat, before: seq<Hole>)
    requires IsCron(next)
    ensures var due := After(next, from, now);
            var all := Classify(due, now, published, missing, blocking, runId);
            var clipped := Classify(Newest(due, 500), now, published, missing, blocking, runId);
            && (Fires(all) <==> Fires(clipped))
            && Newest(before + HolesOf(clipped), 499) == Newest(before + HolesOf(all), 499)
            && (!Fires(all) ==> Newest(before + HolesOf(clipped), 500) == Newest(before + HolesOf(all), 500))
  {
    hide IsCron, After, Classify, HolesOf, Fires, AllLate;
    var due := After(next, from, now);
    var kept := Newest(due, PRUNE_DEPTH);
    var late := Backlog(due);
    ClippedIsLate(next, from, now);
    assert due == late + kept;
    LateOnesChangeNothing(late, kept, now, published, missing, blocking, runId);
    var dropped := Classify(late, now, published, missing, blocking, runId);
    var clipped := Classify(kept, now, published, missing, blocking, runId);
    AllButOneAreHoles(kept, now, published, missing, blocking, runId);
    HolesOfConcat(dropped, clipped);
    FiresConcat(dropped, clipped);
    if late == [] {
      ClassifyIsFaithful(late, now, published, missing, blocking, runId);
      NothingYet();
      assert dropped == [];
    }
  }

  // ------------------------------------------------------------------ the ledger

  function Ats(entries: seq<Entry>): seq<int> {
    seq(|entries|, i requires 0 <= i < |entries| => entries[i].at)
  }

  function Clips(late: seq<int>): seq<Entry> {
    seq(|late|, i requires 0 <= i < |late| => Clipped(late[i]))
  }

  lemma {:induction false} ClipsLeaveNoHoles(late: seq<int>)
    ensures HolesOf(Clips(late)) == []
  {
    if late != [] {
      assert Clips(late)[..|late| - 1] == Clips(late[..|late| - 1]);
      ClipsLeaveNoHoles(late[..|late| - 1]);
    }
  }

  lemma NewestOfNewest(a: seq<Hole>, b: seq<Hole>, n: nat)
    ensures Newest(Newest(a, n) + b, n) == Newest(a + b, n)
  {
  }

  /** The holes of a ledger are its notes. */
  lemma {:induction false} HolesAreNotes(entries: seq<Entry>)
    ensures forall h :: h in HolesOf(entries) <==> Noted(h.at, h.reason) in entries
  {
    if entries != [] {
      var before, last := entries[..|entries| - 1], entries[|entries| - 1];
      assert entries == before + [last];
      HolesAreNotes(before);
      assert HolesOf(entries) == HolesOf(before) + if last.Noted? then [Hole(last.at, last.reason)] else [];
    }
  }

  ghost predicate InOrder(holes: seq<Hole>) {
    forall i, j :: 0 <= i < j < |holes| ==> holes[i].at < holes[j].at
  }

  ghost predicate UpTo(holes: seq<Hole>, t: int) {
    forall i :: 0 <= i < |holes| ==> holes[i].at <= t
  }

  /** Holes of a ledger in order of time are in order of time, so no occurrence has two. */
  lemma {:induction false} HolesInOrder(ledger: seq<Entry>, t: int)
    requires Increasing(Ats(ledger)) && forall i :: 0 <= i < |ledger| ==> ledger[i].at <= t
    ensures InOrder(HolesOf(ledger)) && UpTo(HolesOf(ledger), t)
  {
    if ledger != [] {
      var k := |ledger| - 1;
      var before := ledger[..k];
      assert Ats(before) == Ats(ledger)[..k];
      forall i | 0 <= i < k
        ensures before[i].at <= ledger[k].at - 1
      {
        assert Ats(ledger)[i] < Ats(ledger)[k];
      }
      HolesInOrder(before, ledger[k].at - 1);
    }
  }

  /** Every occurrence up to `settled` is in the ledger in order; since `stretchFrom`, all of them and once each. */
  ghost predicate Covers(next: Cron, ledger: seq<Entry>, since: nat, stretchFrom: int, settled: int)
    requires IsCron(next)
  {
    && since <= |ledger|
    && stretchFrom <= settled
    && Ats(ledger[since..]) == After(next, stretchFrom, settled)
  }

  ghost predicate Ordered(ledger: seq<Entry>, settled: int) {
    Increasing(Ats(ledger)) && forall i :: 0 <= i < |ledger| ==> ledger[i].at <= settled
  }

  lemma LedgerGrows(next: Cron, ledger: seq<Entry>, since: nat, stretchFrom: int, settled: int, entries: seq<Entry>,
                    now: int)
    requires IsCron(next) && settled <= now
    requires Ordered(ledger, settled) && Covers(next, ledger, since, stretchFrom, settled)
    requires Ats(entries) == After(next, settled, now)
    ensures Ordered(ledger + entries, now) && Covers(next, ledger + entries, since, stretchFrom, now)
  {
    hide IsCron, After, Increasing;
    var all := ledger + entries;
    AfterSplits(next, stretchFrom, settled, now);
    assert all[since..] == ledger[since..] + entries;
    assert Ats(all[since..]) == Ats(ledger[since..]) + Ats(entries);
    OrderedGrows(next, ledger, settled, entries, now);
  }

  lemma OrderedGrows(next: Cron, ledger: seq<Entry>, settled: int, entries: seq<Entry>, now: int)
    requires IsCron(next) && settled <= now && Ordered(ledger, settled)
    requires Ats(entries) == After(next, settled, now)
    ensures Ordered(ledger + entries, now)
  {
    hide IsCron, After;
    AfterIsExact(next, settled, now);
    AfterIncreases(next, settled, now);
    var all := ledger + entries;
    assert Ats(all) == Ats(ledger) + Ats(entries);
    forall i | 0 <= i < |entries|
      ensures settled < Ats(entries)[i] <= now
    {
      assert Ats(entries)[i] in After(next, settled, now);
    }
    forall i | 0 <= i < |all|
      ensures all[i].at <= now
    {
      assert i >= |ledger| ==> Ats(entries)[i - |ledger|] == all[i].at;
    }
  }

  /** What `handle_due` finds due is what the ledger lacks, and it is never nothing. */
  lemma DueAreAll(next: Cron, settled: int, now: int)
    requires IsCron(next) && NextAfter(next, settled) <= now
    ensures var due := After(next, settled, now);
            && After(next, NextAfter(next, settled) - 1, now) == due
            && due != [] && Increasing(due)
            && settled < now && NextAfter(next, due[|due| - 1]) == NextAfter(next, now)
  {
    var first := NextAfter(next, settled);
    assert NextAfter(next, first - 1) == first;
    AfterIsExact(next, settled, now);
    AfterIncreases(next, settled, now);
    var due := After(next, settled, now);
    assert due[|due| - 1] in due;
  }

  lemma SuffixIncreases(all: seq<int>, m: nat)
    requires Increasing(all) && m <= |all|
    ensures Increasing(all[m..])
  {
    forall i, j | 0 <= i < j < |all[m..]|
      ensures all[m..][i] < all[m..][j]
    {
      assert all[m + i] < all[m + j];
    }
  }

  lemma Clipping(all: seq<int>, due: seq<int>)
    requires Increasing(all) && all != []
    requires due == if |all| > PRUNE_DEPTH then all[|all| - PRUNE_DEPTH..] else all
    ensures all == Backlog(all) + due && due != [] && Increasing(due) && due[|due| - 1] == all[|all| - 1]
  {
    hide Increasing;
    if |all| > PRUNE_DEPTH {
      SuffixIncreases(all, |all| - PRUNE_DEPTH);
    }
  }

  lemma ClipsThenEntries(all: seq<int>, late: seq<int>, due: seq<int>, entries: seq<Entry>)
    requires all == late + due && |entries| == |due|
    requires forall i :: 0 <= i < |entries| ==> entries[i].at == due[i]
    ensures Ats(Clips(late) + entries) == all
  {
  }

  lemma HolesAfterTick(ledger: seq<Entry>, late: seq<int>, entries: seq<Entry>)
    ensures Newest(Newest(HolesOf(ledger), PRUNE_DEPTH) + HolesOf(entries), PRUNE_DEPTH) ==
            Newest(HolesOf(ledger + (Clips(late) + entries)), PRUNE_DEPTH)
  {
    hide HolesOf;
    ClipsLeaveNoHoles(late);
    HolesOfConcat(Clips(late), entries);
    HolesOfConcat(ledger, Clips(late) + entries);
    assert [] + HolesOf(entries) == HolesOf(entries);
    NewestOfNewest(HolesOf(ledger), HolesOf(entries), PRUNE_DEPTH);
  }

  /** Every Run in the ledger is one of the Schedule's `n` Runs. */
  ghost predicate RunsKnown(ledger: seq<Entry>, n: nat) {
    forall i :: 0 <= i < |ledger| && ledger[i].Fired? ==> ledger[i].run < n
  }

  lemma RunsKnownGrows(ledger: seq<Entry>, late: seq<int>, entries: seq<Entry>, n: nat, fired: bool)
    requires RunsKnown(ledger, n) && (fired <==> Fires(entries))
    requires forall i :: 0 <= i < |entries| && entries[i].Fired? ==> entries[i].run == n
    ensures RunsKnown(ledger + (Clips(late) + entries), if fired then n + 1 else n)
  {
  }

  /** All that a tick's entries have to do with the ledger. */
  lemma TickSettles(next: Cron, ledger: seq<Entry>, since: nat, stretchFrom: int, settled: int, now: int,
                    late: seq<int>, due: seq<int>, published: bool, missing: bool, open: Option<nat>, n: nat)
    requires IsCron(next) && settled <= now
    requires Ordered(ledger, settled) && Covers(next, ledger, since, stretchFrom, settled) && RunsKnown(ledger, n)
    requires After(next, settled, now) == late + due
    ensures var entries := Classify(due, now, published, missing, open, n);
            var all := ledger + (Clips(late) + entries);
            && Ordered(all, now) && Covers(next, all, since, stretchFrom, now)
            && RunsKnown(all, if Fires(entries) then n + 1 else n)
            && Newest(Newest(HolesOf(ledger), PRUNE_DEPTH) + HolesOf(entries), PRUNE_DEPTH)
               == Newest(HolesOf(all), PRUNE_DEPTH)
  {
    hide IsCron, After, Classify, HolesOf, Ats, Ordered, Covers, RunsKnown, Newest, Fires;
    var entries := Classify(due, now, published, missing, open, n);
    ClassifyIsFaithful(due, now, published, missing, open, n);
    ClipsThenEntries(After(next, settled, now), late, due, entries);
    HolesAfterTick(ledger, late, entries);
    RunsKnownGrows(ledger, late, entries, n, Fires(entries));
    LedgerGrows(next, ledger, since, stretchFrom, settled, Clips(late) + entries, now);
  }

  lemma AfterStep(next: Cron, from: int, until: int)
    requires IsCron(next)
    ensures After(next, from, until) ==
            if NextAfter(next, from) > until then []
            else [NextAfter(next, from)] + After(next, NextAfter(next, from), until)
    ensures NextAfter(next, from) > from
  {
  }

  /** Starting at an instant that matches or does not. */
  lemma AfterStart(next: Cron, start: int, until: int)
    requires IsCron(next) && start <= until
    ensures After(next, start - 1, until) == (if Occurs(next, start) then [start] else []) + After(next, start, until)
  {
    if !Occurs(next, start) {
      assert NextAfter(next, start) == NextAfter(next, start - 1);
    }
  }

  /** The walker of `occurrences_through`: the start itself if it matches, then each next one. */
  method OccurrencesThrough(next: Cron, start: int, until: int) returns (found: seq<int>)
    requires IsCron(next)
    ensures found == After(next, start - 1, until)
  {
    found := [];
    AfterStep(next, start - 1, until);
    if start > until {
      return;
    }
    AfterStart(next, start, until);
    hide IsCron, After;
    if Occurs(next, start) {
      found := [start];
    }
    var at := start;
    var nxt := NextAfter(next, at);
    AfterStep(next, at, until);
    while nxt <= until
      invariant nxt == NextAfter(next, at)
      invariant found + After(next, at, until) == After(next, start - 1, until)
      invariant After(next, at, until) == if nxt > until then [] else [nxt] + After(next, nxt, until)
      decreases until - at
    {
      AfterStep(next, nxt, until);
      found := found + [nxt];
      at := nxt;
      nxt := NextAfter(next, at);
    }
  }

  /** `split_by_grace`: what is late, and what is still on time. */
  method SplitByGrace(due: seq<int>, now: int) returns (late: seq<int>, onTime: seq<int>)
    ensures AllLate(late, now)
    ensures forall i :: 0 <= i < |onTime| ==> now - onTime[i] <= 120_000_000
    ensures Increasing(due) ==> late + onTime == due
  {
    late, onTime := [], [];
    var i := 0;
    while i < |due|
      invariant i <= |due|
      invariant AllLate(late, now)
      invariant forall j :: 0 <= j < |onTime| ==> now - onTime[j] <= GRACE
      invariant Increasing(due) ==> late + onTime == due[..i]
      invariant Increasing(due) && onTime != [] ==> forall j :: i <= j < |due| ==> now - due[j] <= GRACE
    {
      if now - due[i] > GRACE {
        late := late + [due[i]];
      } else {
        onTime := onTime + [due[i]];
      }
      i := i + 1;
    }
    assert due[..|due|] == due;
  }

  /** At most one Run of the Schedule has not ended. */
  ghost predicate OneOpen(runs: seq<RunStatus>) {
    forall k, l :: 0 <= k < l < |runs| ==> Terminal(runs[k]) || Terminal(runs[l])
  }

  ghost predicate NoneOpen(runs: seq<RunStatus>) {
    forall k :: 0 <= k < |runs| ==> Terminal(runs[k])
  }

  lemma OneOpenThenOne(runs: seq<RunStatus>)
    ensures NoneOpen(runs) ==> OneOpen(runs + [Queued])
  {
  }

  /** A Run's status changes, unless it has ended. */
  function Moved(runs: seq<RunStatus>, k: nat, status: RunStatus): seq<RunStatus> {
    if k < |runs| && !Terminal(runs[k]) then runs[k := status] else runs
  }

  lemma SomeOpen(runs: seq<RunStatus>, open: Option<nat>)
    ensures open.Some? && open.value < |runs| && !Terminal(runs[open.value]) ==> !NoneOpen(runs)
  {
  }

  class Schedule {
    var next: Cron                // the cron expression in its timezone
    var enabled: bool
    var nextDueAt: Option<int>
    var lastFiredAt: Option<int>
    var holes: seq<Hole>          // the recorded holes, oldest first
    var runs: seq<RunStatus>      // the Schedule's Runs, oldest first
    ghost var clock: int          // the latest time anybody read
    ghost var ledger: seq<Entry>  // what became of every occurrence so far
    ghost var since: nat          // where the current enabled, unchanged stretch begins in the ledger
    ghost var stretchFrom: int    // and when it began
    ghost var settled: int        // the ledger is complete up to here

    ghost predicate Valid()
      reads this
    {
      && IsCron(next)
      && (enabled <==> nextDueAt.Some?)
      && settled <= clock
      && Ordered(ledger, settled)
      && (enabled ==> nextDueAt.value == NextAfter(next, settled) && Covers(next, ledger, since, stretchFrom, settled))
      && holes == Newest(HolesOf(ledger), PRUNE_DEPTH)
      && OneOpen(runs)
      && RunsKnown(ledger, |runs|)
    }

    /** `create_schedule`. */
    constructor (next: Cron, enabled: bool, now: int)
      requires IsCron(next)
      ensures Valid() && clock == now && ledger == [] && runs == []
      ensures nextDueAt == if enabled then Some(NextAfter(next, now)) else None
    {
      this.next := next;
      this.enabled := enabled;
      nextDueAt := if enabled then Some(NextAfter(next, now)) else None;
      lastFiredAt := None;
      holes := [];
      runs := [];
      clock := now;
      ledger := [];
      since := 0;
      stretchFrom := now;
      settled := now;
    }

    /** `open_run_id`: the oldest Run of the Schedule that has not ended. */
    method OpenRun() returns (open: Option<nat>)
      ensures open.Some? ==> open.value < |runs| && !Terminal(runs[open.value])
      ensures open.None? ==> NoneOpen(runs)
    {
      var k := 0;
      while k < |runs|
        invariant k <= |runs|
        invariant forall l :: 0 <= l < k ==> Terminal(runs[l])
      {
        if !Terminal(runs[k]) {
          return Some(k);
        }
        k := k + 1;
      }
      open := None;
    }

    method RecordHole(at: int, reason: HoleReason)
      modifies `holes
      ensures holes == old(holes) + [Hole(at, reason)]
    {
      holes := holes + [Hole(at, reason)];
    }

    /** `prune_occurrences`. */
    method Prune()
      modifies `holes
      ensures holes == Newest(old(holes), PRUNE_DEPTH)
      ensures holes == if |old(holes)| <= 500 then old(holes) else old(holes)[|old(holes)| - 500..]
    {
      if |holes| > PRUNE_DEPTH {
        holes := holes[|holes| - PRUNE_DEPTH..];
      }
    }

    /** `enqueue_latest`. */
    method EnqueueLatest(now: int) returns (run: nat)
      modifies `runs, `lastFiredAt
      ensures run == |old(runs)| && runs == old(runs) + [Queued] && lastFiredAt == Some(now)
    {
      run := |runs|;
      runs := runs + [Queued];
      lastFiredAt := Some(now);
    }

    method RecordAll(due: seq<int>, reason: HoleReason)
      modifies `holes
      ensures holes == old(holes) + HolesOf(NotedAll(due, reason))
    {
      var i := 0;
      while i < |due|
        invariant i <= |due|
        invariant holes == old(holes) + HolesOf(NotedAll(due[..i], reason))
      {
        RecordHole(due[i], reason);
        OneMore(NotedAll(due[..i], reason), Noted(due[i], reason));
        assert NotedAll(due[..i + 1], reason) == NotedAll(due[..i], reason) + [Noted(due[i], reason)];
        i := i + 1;
      }
      assert due[..i] == due;
    }

    /** The loop over the occurrences that are still on time. */
    method RecordOnTime(onTime: seq<int>, now: int, published: bool, open: Option<nat>) returns (fired: Option<nat>)
      requires forall i :: 0 <= i < |onTime| ==> now - onTime[i] <= GRACE
      modifies `holes, `runs, `lastFiredAt
      ensures var entries := Classify(onTime, now, published, false, open, |old(runs)|);
              && holes == old(holes) + HolesOf(entries)
              && (fired.Some? <==> Fires(entries))
      ensures fired.Some? ==> fired.value == |old(runs)| && runs == old(runs) + [Queued] && lastFiredAt == Some(now)
      ensures fired.None? ==> runs == old(runs) && lastFiredAt == old(lastFiredAt)
      ensures fired.Some? ==> open.None?
    {
      hide Classify, HolesOf, Fires;
      fired := None;
      var blocking := open;
      ghost var entries := Classify(onTime, now, published, false, open, |runs|);
      ghost var done: seq<Entry> := [];
      NothingYet();
      assert onTime[0..] == onTime && done + entries == entries;
      var i := 0;
      while i < |onTime|
        invariant i <= |onTime|
        invariant done + Classify(onTime[i..], now, published, false, blocking, |old(runs)|) == entries
        invariant holes == old(holes) + HolesOf(done)
        invariant fired.Some? <==> Fires(done)
        invariant fired.None? ==> blocking == open && runs == old(runs) && lastFiredAt == old(lastFiredAt)
        invariant fired.Some? ==> blocking == fired && fired.value == |old(runs)| && open.None?
        invariant fired.Some? ==> runs == old(runs) + [Queued] && lastFiredAt == Some(now)
      {
        ClassifyOnTime(onTime, i, now, published, blocking, |old(runs)|);
        ghost var entry := OnTimeEntry(onTime[i], published, blocking, |old(runs)|);
        ghost var rest := Classify(onTime[i + 1..], now, published, false, AfterEntry(entry, blocking), |old(runs)|);
        assert done + ([entry] + rest) == (done + [entry]) + rest;
        if blocking.Some? {
          RecordHole(onTime[i], Overlap(blocking.value));
        } else if fired.None? && published {
          var run := EnqueueLatest(now);
          fired := Some(run);
          blocking := fired;
        } else {
          RecordHole(onTime[i], Missed);
        }
        OneMore(done, entry);
        done := done + [entry];
        i := i + 1;
      }
      NothingLeft(now, published, blocking, |old(runs)|);
      assert onTime[i..] == [] && done + [] == done;
    }

    /** The recording part of `handle_due`: one entry for each of `due`, in order. */
    method Settle(due: seq<int>, now: int, published: bool, missing: bool)
      returns (fired: Option<nat>, ghost open: Option<nat>)
      requires Increasing(due)
      modifies `holes, `runs, `lastFiredAt
      ensures var entries := Classify(due, now, published, missing, open, |old(runs)|);
              && holes == old(holes) + HolesOf(entries)
              && (fired.Some? <==> Fires(entries))
      ensures fired.Some? ==> fired.value == |old(runs)| && runs == old(runs) + [Queued] && lastFiredAt == Some(now)
      ensures fired.None? ==> runs == old(runs) && lastFiredAt == old(lastFiredAt)
      ensures open.None? && !missing ==> NoneOpen(old(runs))
      ensures open.Some? ==> open.value < |old(runs)| && !Terminal(old(runs)[open.value])
      ensures fired.Some? ==> open.None? && !missing
    {
      hide Classify, HolesOf, Fires, Increasing;
      fired := None;
      open := None;
      if missing {
        RecordAll(due, MissingValues);
        MissingNotesAll(due, now, published, None, |runs|);
        return;
      }
      var late, onTime := SplitByGrace(due, now);
      RecordAll(late, Missed);
      var blocking := OpenRun();
      open := blocking;
      LateNotesAll(late, now, published, open, |runs|);
      LateOnesChangeNothing(late, onTime, now, published, false, open, |runs|);
      HolesOfConcat(NotedAll(late, Missed), Classify(onTime, now, published, false, open, |runs|));
      FiresConcat(NotedAll(late, Missed), Classify(onTime, now, published, false, open, |runs|));
      fired := RecordOnTime(onTime, now, published, blocking);
    }

    /** The due occurrences `handle_due` keeps; `late` is what it clips off. */
    method FindDue(now: int) returns (due: seq<int>, ghost late: seq<int>)
      requires IsCron(next) && nextDueAt == Some(NextAfter(next, settled)) && nextDueAt.value <= now
      ensures var all := After(next, settled, now);
              all == late + due && late == Backlog(all) && due == Newest(all, PRUNE_DEPTH)
      ensures due != [] && Increasing(due) && NextAfter(next, due[|due| - 1]) == NextAfter(next, now) && settled < now
    {
      hide IsCron, After, Increasing;
      ghost var all := After(next, settled, now);
      due := OccurrencesThrough(next, nextDueAt.value, now);
      DueAreAll(next, settled, now);
      if |due| > PRUNE_DEPTH {
        due := due[|due| - PRUNE_DEPTH..];
      }
      Clipping(all, due);
      late := Backlog(all);
    }

    /** `handle_due`: every occurrence since the last one settled gets its entry. */
    method HandleDue(now: int, published: bool, missing: bool) returns (fired: Option<nat>, ghost open: Option<nat>)
      requires Valid() && enabled && nextDueAt.value <= now && clock <= now
      modifies `nextDueAt, `lastFiredAt, `holes, `runs, `clock, `ledger, `settled
      ensures Valid() && settled == clock == now && nextDueAt == Some(NextAfter(next, now))
      ensures var due := After(next, old(settled), now);
              ledger == old(ledger) +
                (Clips(Backlog(due)) + Classify(Newest(due, PRUNE_DEPTH), now, published, missing, open, |old(runs)|))
      ensures old(ledger) <= ledger
      ensures Settles(After(next, old(settled), now), now, published, missing, open, |old(runs)|,
                      ledger[|old(ledger)|..])
      ensures fired.Some? ==> fired.value == |old(runs)| && runs == old(runs) + [Queued] && lastFiredAt == Some(now)
      ensures fired.None? ==> runs == old(runs) && lastFiredAt == old(lastFiredAt)
      ensures open.None? && !missing ==> NoneOpen(old(runs))
      ensures open.Some? ==> open.value < |old(runs)| && !Terminal(old(runs)[open.value])
      ensures fired.Some? <==>
              !missing && published && NoneOpen(old(runs)) && DueOnTime(next, old(settled), now)
    {
      hide IsCron, After, Classify, HolesOf, Ats, Ordered, Covers, RunsKnown, Increasing, Newest, Fires, Backlog,
        Clips, OneOpen, NoneOpen, Settles;
      OneOpenThenOne(runs);
      ghost var late;
      var due;
      due, late := FindDue(now);
      fired, open := Settle(due, now, published, missing);
      FiresExactly(due, now, published, missing, open, |old(runs)|);
      OnTimeIsKept(next, settled, now);
      SomeOpen(old(runs), open);
      TickSettles(next, ledger, since, stretchFrom, settled, now, late, due, published, missing, open, |old(runs)|);
      ledger := ledger + (Clips(late) + Classify(due, now, published, missing, open, |old(runs)|));
      nextDueAt := Some(NextAfter(next, due[|due| - 1]));
      TickMeans(After(next, settled, now), now, published, missing, open, |old(runs)|);
      Prune();
      settled := now;
      clock := now;
    }

    /** The Schedule's part of one pass of the minute loop.  Afterwards the next due time is the
        first occurrence after now, and every occurrence of the stretch up to now has its one entry. */
    method Tick(now: int, published: bool, missing: bool) returns (fired: Option<nat>)
      requires Valid() && clock <= now
      modifies this
      ensures Valid() && clock == now && next == old(next) && enabled == old(enabled)
      ensures old(ledger) <= ledger && since == old(since) && stretchFrom == old(stretchFrom)
      ensures enabled ==> nextDueAt == Some(NextAfter(next, now)) && Covers(next, ledger, since, stretchFrom, now)
      ensures !enabled ==> ledger == old(ledger) && runs == old(runs) && nextDueAt.None?
      ensures fired.Some? ==> fired.value == |old(runs)| && runs == old(runs) + [Queued]
      ensures fired.None? ==> runs == old(runs)
      ensures fired.Some? <==>
              && enabled && !missing && published && NoneOpen(old(runs))
              && DueOnTime(next, old(settled), now)
    {
      hide IsCron, After, Classify, HolesOf, Ats, Increasing, Newest, Fires, Backlog, Clips, OneOpen, NoneOpen,
        RunsKnown;
      fired := None;
      clock := now;
      if enabled && nextDueAt.value <= now {
        ghost var open;
        fired, open := HandleDue(now, published, missing && published);
      } else if enabled {
        NothingDue(next, settled, now);
        NothingOnTime(next, settled, now);
        ghost var before := settled;
        LedgerGrows(next, ledger, since, stretchFrom, settled, [], now);
        assert ledger + [] == ledger;
        settled := now;
      }
    }

    /** `update_schedule`: a new cron or timezone, turning on, or turning off. */
    method Update(cron: Option<Cron>, turn: Option<bool>, now: int)
      requires Valid() && clock <= now && (cron.Some? ==> IsCron(cron.value))
      modifies `next, `enabled, `nextDueAt, `clock, `since, `stretchFrom, `settled
      ensures Valid() && clock == now
      ensures next == (if cron.Some? then cron.value else old(next))
      ensures enabled == (if turn.Some? then turn.value else old(enabled))
      ensures if !enabled then nextDueAt.None?
              else if cron.Some? || !old(enabled)
              then nextDueAt == Some(NextAfter(next, now)) && since == |ledger| && stretchFrom == now
              else nextDueAt == old(nextDueAt) && since == old(since) && stretchFrom == old(stretchFrom)
    {
      hide IsCron, After, Ats, HolesOf, Newest, OneOpen, RunsKnown, Ordered, Covers;
      clock := now;
      if cron.Some? {
        next := cron.value;
      }
      var turningOn := turn.Some? && turn.value && !enabled;
      var turningOff := turn.Some? && !turn.value && enabled;
      if turn.Some? {
        enabled := turn.value;
      }
      if turningOff {
        nextDueAt := None;
      } else if enabled && (cron.Some? || turningOn) {
        nextDueAt := Some(NextAfter(next, now));
        StretchBegins(next, ledger, settled, now);
        since, stretchFrom, settled := |ledger|, now, now;
      }
    }

    /** `run_schedule_now`. */
    method RunNow(now: int, published: bool, missing: bool) returns (answer: Answer, run: Option<nat>)
      requires Valid() && clock <= now
      modifies `runs, `lastFiredAt, `clock
      ensures Valid() && clock == now
      ensures answer == if missing && published then Conflict("needs_values")
                        else if !NoneOpen(old(runs)) then Conflict("schedule_run_active")
                        else if !published then Conflict("no_published_version") else Accepted
      ensures run == if answer.Accepted? then Some(|old(runs)|) else None
      ensures answer.Accepted? ==> runs == old(runs) + [Queued]
      ensures !answer.Accepted? ==> runs == old(runs)
    {
      hide IsCron, After, HolesOf, Newest, Increasing, Ats;
      clock := now;
      if missing && published {
        return Conflict("needs_values"), None;
      }
      var open := OpenRun();
      if open.Some? {
        return Conflict("schedule_run_active"), None;
      }
      if !published {
        return Conflict("no_published_version"), None;
      }
      var started := EnqueueLatest(now);
      answer, run := Accepted, Some(started);
    }

    /** A Run of the Schedule moves on by itself. */
    method RunMoves(k: nat, status: RunStatus)
      requires Valid()
      modifies `runs
      ensures Valid() && runs == Moved(old(runs), k, status)
    {
      if k < |runs| && !Terminal(runs[k]) {
        runs := runs[k := status];
      }
    }
  }

  lemma NothingDue(next: Cron, settled: int, now: int)
    requires IsCron(next) && settled <= now < NextAfter(next, settled)
    ensures After(next, settled, now) == [] && Ats([]) == []
    ensures NextAfter(next, now) == NextAfter(next, settled)
  {
  }

  lemma NothingOnTime(next: Cron, settled: int, now: int)
    requires IsCron(next) && settled <= now < NextAfter(next, settled)
    ensures !DueOnTime(next, settled, now)
  {
    AfterIsExact(next, settled, now);
    assert After(next, settled, now) == [];
  }

  lemma StretchBegins(next: Cron, ledger: seq<Entry>, t: int, now: int)
    requires IsCron(next)
    ensures Covers(next, ledger, |ledger|, now, now)
    ensures t <= now && Ordered(ledger, t) ==> Ordered(ledger, now)
  {
  }

  /** Main result: while a Schedule stays enabled and unchanged, each occurrence up to the last tick
      has exactly one entry in the ledger, and so one Run, one hole or one place in a clipped backlog. */
  lemma OccurrenceSettledOnce(s: Schedule, t: int) returns (i: nat)
    requires s.Valid() && s.enabled && s.stretchFrom < t <= s.settled && Occurs(s.next, t)
    ensures s.since <= i < |s.ledger| && s.ledger[i].at == t
    ensures forall j :: 0 <= j < |s.ledger| && s.ledger[j].at == t ==> j == i
  {
    hide IsCron, After, HolesOf;
    AfterIsExact(s.next, s.stretchFrom, s.settled);
    var ats := Ats(s.ledger[s.since..]);
    var k :| 0 <= k < |ats| && ats[k] == t;
    i := s.since + k;
    forall j | 0 <= j < |s.ledger| && s.ledger[j].at == t
      ensures j == i
    {
      assert Ats(s.ledger)[j] == t && Ats(s.ledger)[i] == t;
    }
  }

  /** No occurrence is ever recorded twice: the holes of a Schedule are strictly in order of time
      and, while it is enabled, before the next due time. */
  lemma HolesAreUnique(s: Schedule)
    requires s.Valid()
    ensures InOrder(s.holes)
    ensures s.enabled ==> forall i :: 0 <= i < |s.holes| ==> s.holes[i].at < s.nextDueAt.value
  {
    hide After, Covers;
    HolesInOrder(s.ledger, s.settled);
    assert NextAfter(s.next, s.settled) > s.settled;
  }

  /** The recorded holes are exactly the newest 500 notes of the ledger. */
  lemma HolesRecorded(s: Schedule)
    requires s.Valid()
    ensures |s.holes| <= 500
    ensures forall h :: h in s.holes ==> Noted(h.at, h.reason) in s.ledger
    ensures forall at, reason :: Noted(at, reason) in s.ledger ==>
              Hole(at, reason) in s.holes || (|s.holes| == 500 && at < s.holes[0].at)
  {
    hide IsCron, After, Covers, HolesOf;
    HolesInOrder(s.ledger, s.settled);
    HolesAreNotes(s.ledger);
    var all := HolesOf(s.ledger);
    var m := |all| - |s.holes|;
    forall at, reason | Noted(at, reason) in s.ledger
      ensures Hole(at, reason) in s.holes || (|s.holes| == 500 && at < s.holes[0].at)
    {
      assert Hole(at, reason) in all;
      var k :| 0 <= k < |all| && all[k] == Hole(at, reason);
      if k >= m {
        assert s.holes[k - m] == all[k];
      } else {
        assert s.holes[0] == all[m];
      }
    }
  }

  /** What a pass of the minute loop adds to the ledger: a mark for what is clipped off, then for each of
      the newest 500 the entry it should have. */
  ghost predicate Settles(due: seq<int>, now: int, published: bool, missing: bool, open: Option<nat>, runId: nat,
                          entries: seq<Entry>) {
    var clipped := if |due| <= 500 then 0 else |due| - 500;
    && |entries| == |due|
    && (forall i :: 0 <= i < clipped ==> entries[i] == Clipped(due[i]))
    && forall i :: clipped <= i < |due| ==>
         EntryFits(due[clipped..], now, published, missing, open, runId, i - clipped, entries[i])
  }

  lemma TickMeans(due: seq<int>, now: int, published: bool, missing: bool, open: Option<nat>, runId: nat)
    ensures Settles(due, now, published, missing, open, runId,
                    Clips(Backlog(due))
                    + Classify(Newest(due, PRUNE_DEPTH), now, published, missing, open, runId))
  {
    hide Classify, EntryFits;
    ClassifyExactly(Newest(due, PRUNE_DEPTH), now, published, missing, open, runId);
    assert due[0..] == due;
  }

  function OnTimeEntry(at: int, published: bool, blocking: Option<nat>, runId: nat): Entry {
    if blocking.Some? then Noted(at, Overlap(blocking.value))
    else if published then Fired(at, runId)
    else Noted(at, Missed)
  }

  function AfterEntry(entry: Entry, blocking: Option<nat>): Option<nat> {
    if entry.Fired? then Some(entry.run) else blocking
  }

  lemma ClassifyOnTime(onTime: seq<int>, i: nat, now: int, published: bool, blocking: Option<nat>, runId: nat)
    requires i < |onTime| && now - onTime[i] <= GRACE
    ensures var entry := OnTimeEntry(onTime[i], published, blocking, runId);
            Classify(onTime[i..], now, published, false, blocking, runId) ==
            [entry] + Classify(onTime[i + 1..], now, published, false, AfterEntry(entry, blocking), runId)
  {
    assert onTime[i..][1..] == onTime[i + 1..];
  }

  lemma NothingYet()
    ensures HolesOf([]) == [] && !Fires([])
  {
  }

  lemma NothingLeft(now: int, published: bool, blocking: Option<nat>, runId: nat)
    ensures Classify([], now, published, false, blocking, runId) == []
  {
  }

  function NotedAll(due: seq<int>, reason: HoleReason): seq<Entry> {
    seq(|due|, i requires 0 <= i < |due| => Noted(due[i], reason))
  }

  lemma {:induction false} LateNotesAll(late: seq<int>, now: int, published: bool, open: Option<nat>, runId: nat)
    requires AllLate(late, now)
    ensures Classify(late, now, published, false, open, runId) == NotedAll(late, Missed)
  {
    if late != [] {
      LateNotesAll(late[1..], now, published, open, runId);
      assert NotedAll(late, Missed) == [Noted(late[0], Missed)] + NotedAll(late[1..], Missed);
    }
  }

  lemma {:induction false} MissingNotesAll(due: seq<int>, now: int, published: bool, open: Option<nat>, runId: nat)
    ensures Classify(due, now, published, true, open, runId) == NotedAll(due, MissingValues)
    ensures !Fires(NotedAll(due, MissingValues))
  {
    if due != [] {
      MissingNotesAll(due[1..], now, published, open, runId);
      assert NotedAll(due, MissingValues) == [Noted(due[0], MissingValues)] + NotedAll(due[1..], MissingValues);
    }
  }

  lemma FiresConcat(a: seq<Entry>, b: seq<Entry>)
    ensures Fires(a + b) <==> Fires(a) || Fires(b)
  {
    if Fires(a) {
      var i :| 0 <= i < |a| && a[i].Fired?;
      assert (a + b)[i].Fired?;
    }
    if Fires(b) {
      var i :| 0 <= i < |b| && b[i].Fired?;
      assert (a + b)[|a| + i].Fired?;
    }
  }

  lemma OneMore(done: seq<Entry>, entry: Entry)
    ensures HolesOf(done + [entry]) == HolesOf(done) + if entry.Noted? then [Hole(entry.at, entry.reason)] else []
    ensures Fires(done + [entry]) <==> Fires(done) || entry.Fired?
  {
    var more := done + [entry];
    assert more[..|more| - 1] == done;
    if Fires(done) {
      var i :| 0 <= i < |done| && done[i].Fired?;
      assert more[i].Fired?;
    }
    if entry.Fired? {
      assert more[|done|].Fired?;
    }
  }
}
