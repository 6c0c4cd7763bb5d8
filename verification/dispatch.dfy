/**
 Dispatching Runs: the Redis list of Run ids (pushed at its left end, popped at its right), the
 Worker that pops it (`work_once` in `dispatch.py`) and the minute loop's reaper and backstop
 (`reap_and_backstop`).  The list may hold anything: text that names no Run, ids of Runs that were
 claimed long ago, and any id any number of times.
 */
module Dispatch {
  import opened Wrappers
  import opened RunProtocol
  import opened RunTables
  import opened Executor

  type Id = string

  /** A Run's rows, written so far by Workers that keep their promise. */
  ghost predicate Kept(t: Tables)
    reads t
  {
    t.Valid() && Obeys(t.n, t.queuedAt, t.history)
  }

  /** What reaping does to one Run. */
  function Reaped(n: nat, s: State, now: int): State {
    Apply(n, Apply(n, s, ReapLost(now)), ReapTakeover(now))
  }

  /** A Run as the reaper leaves it: live only if it has beaten within ninety seconds, waiting only
      before its deadline. */
  ghost predicate Fit(row: Row, now: int) {
    && ((row.status.Running? || row.status.Waiting?) && row.heartbeatAt.Some? ==>
          now - row.heartbeatAt.value <= 90_000_000)
    && (row.status.Waiting? && row.deadlineAt.Some? ==> row.deadlineAt.value >= now)
  }

  lemma ReapedIsFit(n: nat, s: State, now: int)
    ensures Fit(Reaped(n, s, now).row, now)
    ensures Fit(s.row, now) ==> Reaped(n, s, now) == s
  {
    hide Filled, AllEnded;
  }

  predicate LeftQueued(row: Row, now: int) {
    row.status.Queued? && row.queuedAt < now - QUEUED_BACKSTOP_AFTER
  }

  lemma QueuedStep(n: nat, s: State, e: Event)
    requires Disciplined(n, s, e)
    ensures var t := Apply(n, s, e);
            && t.row.queuedAt == s.row.queuedAt
            && (t.row.status.Queued? ==> s.row.status.Queued? && t.row.worker == s.row.worker)
  {
    hide Filled, Inv, Complete, PrefixOf, NoneFailed, FailFast, AllSkipped;
  }

  lemma {:induction false} QueuedRow(n: nat, queuedAt: int, h: seq<Event>)
    requires Obeys(n, queuedAt, h)
    ensures Replay(n, queuedAt, h).row.queuedAt == queuedAt
    ensures Replay(n, queuedAt, h).row.status.Queued? ==> Replay(n, queuedAt, h).row.worker.None?
  {
    if h != [] {
      hide Apply, Disciplined;
      QueuedRow(n, queuedAt, h[..|h| - 1]);
      QueuedStep(n, Replay(n, queuedAt, h[..|h| - 1]), h[|h| - 1]);
    }
  }

  lemma OneMore(n: nat, queuedAt: int, h: seq<Event>, e: Event)
    requires Obeys(n, queuedAt, h) && Disciplined(n, Replay(n, queuedAt, h), e)
    ensures Obeys(n, queuedAt, h + [e])
    ensures Replay(n, queuedAt, h + [e]) == Apply(n, Replay(n, queuedAt, h), e)
  {
    assert (h + [e])[..|h + [e]| - 1] == h;
  }

  /** A Worker that has won the claim starts from a Run without results or intervals. */
  lemma ClaimedAfresh(n: nat, queuedAt: int, h: seq<Event>, worker: string, at: int)
    requires Obeys(n, queuedAt, h) && Replay(n, queuedAt, h).row.status.Queued?
    ensures Agrees(n, Apply(n, Replay(n, queuedAt, h), Event.Claim(worker, at)), [], [], false)
  {
    EveryHistoryKeepsInv(n, queuedAt, h);
    ApplyKeepsInv(n, Replay(n, queuedAt, h), Event.Claim(worker, at));
  }

  lemma StartedIsNotQueued(n: nat, s: State)
    requires Inv(n, s) && s.row.startedAt.Some?
    ensures !s.row.status.Queued?
  {
  }

  /** The rows of a Run that has just been queued. */
  method QueueOne(n: nat, queuedAt: int) returns (t: Tables)
    ensures fresh(t) && t.n == n && t.queuedAt == queuedAt && Kept(t) && t.row.status.Queued?
  {
    t := new Tables(n, queuedAt);
  }

  method Queue(ids: seq<Id>, works: map<Id, Work>, queuedAt: map<Id, int>) returns (made: map<Id, Tables>)
    requires forall i :: 0 <= i < |ids| ==> ids[i] in works && ids[i] in queuedAt
    requires forall i, j :: 0 <= i < j < |ids| ==> ids[i] != ids[j]
    ensures forall id :: id in made <==> id in ids
    ensures forall a, b :: a in made && b in made && a != b ==> made[a] != made[b]
    ensures forall id :: id in made ==>
              && fresh(made[id]) && Kept(made[id]) && made[id].row.status.Queued?
              && id in works && id in queuedAt
              && made[id].n == |works[id].steps| && made[id].queuedAt == queuedAt[id]
  {
    hide Kept;
    made := map[];
    var i := 0;
    while i < |ids|
      invariant i <= |ids|
      invariant forall id :: id in made <==> id in ids[..i]
      invariant forall a, b :: a in made && b in made && a != b ==> made[a] != made[b]
      invariant forall id :: id in made ==>
                  && fresh(made[id]) && Kept(made[id]) && made[id].row.status.Queued?
                  && id in works && id in queuedAt
                  && made[id].n == |works[id].steps| && made[id].queuedAt == queuedAt[id]
    {
      var t := QueueOne(|works[ids[i]].steps|, queuedAt[ids[i]]);
      made := made[ids[i] := t];
      i := i + 1;
    }
    assert ids[..i] == ids;
  }

  class Dispatcher {
    const ids: seq<Id>                 // every Run, the longest queued first
    const runs: map<Id, Tables>
    const works: map<Id, Work>
    const parse: string -> Option<Id>  // `UUID(...)`
    const show: Id -> string           // `str(...)`
    var pending: seq<string>

    /** Runs that have just been queued, the longest queued first, and a list that may hold anything. */
    constructor (ids: seq<Id>, works: map<Id, Work>, queuedAt: map<Id, int>, parse: string -> Option<Id>,
                 show: Id -> string, pending: seq<string>)
      requires forall id :: id in ids ==> id in works && id in queuedAt && parse(show(id)) == Some(id)
      requires forall i, j :: 0 <= i < j < |ids| ==> ids[i] != ids[j] && queuedAt[ids[i]] <= queuedAt[ids[j]]
      ensures Valid() && fresh(runs.Values)
      ensures this.ids == ids && this.works == works && this.pending == pending
      ensures forall id :: id in ids ==>
                id in runs && IsQueued(id) && runs[id].queuedAt == queuedAt[id] && runs[id].n == |works[id].steps|
    {
      var made := Queue(ids, works, queuedAt);
      this.ids := ids;
      this.runs := made;
      this.works := works;
      this.parse := parse;
      this.show := show;
      this.pending := pending;
    }

    function Named(raw: string): Option<Id> { parse(raw) }

    /** What never changes. */
    ghost predicate Registered() {
      && (forall id :: id in ids <==> id in runs)
      && LongestQueuedFirst(ids)
      && (forall a, b :: a in runs && b in runs && a != b ==> runs[a] != runs[b])
      && (forall id :: id in runs ==> id in works && runs[id].n == |works[id].steps|)
      && (forall id :: id in runs ==> Named(show(id)) == Some(id))
    }

    ghost predicate Valid()
      reads runs.Values
    {
      Registered() && forall id :: id in runs ==> Kept(runs[id])
    }

    ghost predicate IsQueued(id: Id)
      reads runs.Values
    {
      id in runs && runs[id].row.status.Queued?
    }

    ghost predicate Claimable(raw: string)
      reads runs.Values
    {
      Named(raw).Some? && IsQueued(Named(raw).value)
    }

    ghost predicate Names(raws: seq<string>, id: Id) {
      exists i :: 0 <= i < |raws| && Named(raws[i]) == Some(id)
    }

    lemma NamesConcat(a: seq<string>, b: seq<string>, id: Id)
      ensures Names(a + b, id) <==> Names(a, id) || Names(b, id)
    {
      if Names(a + b, id) {
        var i :| 0 <= i < |a + b| && Named((a + b)[i]) == Some(id);
        assert if i < |a| then Named(a[i]) == Some(id) else Named(b[i - |a|]) == Some(id);
      }
      if Names(a, id) {
        var i :| 0 <= i < |a| && Named(a[i]) == Some(id);
        assert (a + b)[i] == a[i];
      }
      if Names(b, id) {
        var i :| 0 <= i < |b| && Named(b[i]) == Some(id);
        assert (a + b)[|a| + i] == b[i];
      }
    }

    lemma NamesNothing(id: Id)
      ensures !Names([], id)
    {
    }

    // ------------------------------------------------------------ the Worker

    method ClaimRun(id: Id, worker: string, at: int) returns (claimed: bool)
      requires Valid() && id in runs
      modifies runs[id]
      ensures Kept(runs[id])
      ensures claimed == old(IsQueued(id))
      ensures !claimed ==> runs[id].State() == old(runs[id].State())
      ensures claimed ==> Agrees(runs[id].n, runs[id].State(), [], [], false)
    {
      var t := runs[id];
      OneMore(t.n, t.queuedAt, t.history, Event.Claim(worker, at));
      if t.row.status.Queued? {
        ClaimedAfresh(t.n, t.queuedAt, t.history, worker, at);
      }
      claimed := t.Claim(worker, at);
    }

    method Perform(id: Id)
      requires Registered() && id in runs && Kept(runs[id])
      requires Agrees(runs[id].n, runs[id].State(), [], [], false)
      modifies runs[id]
      ensures Kept(runs[id]) && Inv(runs[id].n, runs[id].State()) && !runs[id].row.status.Queued?
    {
      hide Agrees, Inv;
      var world: Timeline := *;
      KeepsTime(world);
      var life: int :| 0 <= life;
      var worker := new Worker(runs[id], works[id], world, life);
      var exit := worker.Execute();
      StartedIsNotQueued(runs[id].n, runs[id].State());
    }

    /** Claim and execute the Run an entry names, if that Run is queued. */
    method TakeUp(raw: string, worker: string) returns (worked: Option<Id>)
      requires Valid()
      modifies runs.Values
      ensures Valid()
      ensures worked == if old(Claimable(raw)) then Named(raw) else None
      ensures worked.Some? ==> !IsQueued(worked.value) && Inv(runs[worked.value].n, runs[worked.value].State())
      ensures forall id :: id in runs && Some(id) != worked ==> runs[id].State() == old(runs[id].State())
    {
      hide Agrees, Inv, Kept;
      worked := None;
      var name := Named(raw);
      if name.Some? && name.value in runs {
        var at: int := *;
        var claimed := ClaimRun(name.value, worker, at);
        if claimed {
          Perform(name.value);
          worked := name;
        }
      }
    }

    /** Take the last entry off the list and take up the Run it names, if that is queued. */
    method PopOne(worker: string) returns (raw: string, worked: Option<Id>)
      requires Valid() && pending != []
      modifies `pending, runs.Values
      ensures Valid() && old(pending) == pending + [raw]
      ensures worked == if old(Claimable(raw)) then Named(raw) else None
      ensures worked.Some? ==> !IsQueued(worked.value) && Inv(runs[worked.value].n, runs[worked.value].State())
      ensures forall id :: id in runs && Some(id) != worked ==> runs[id].State() == old(runs[id].State())
    {
      hide Inv, Kept, Registered, IsQueued;
      raw := pending[|pending| - 1];
      pending := pending[..|pending| - 1];
      worked := TakeUp(raw, worker);
    }

    /** `work_once`: pop until an id is claimed, and execute that Run.  `popped` are the entries it
        took, the last one first. */
    method WorkOnce(worker: string) returns (worked: Option<Id>, ghost popped: seq<string>)
      requires Valid()
      modifies `pending, runs.Values
      ensures Valid()
      ensures old(pending) == pending + popped
      ensures worked.None? ==> pending == []
      ensures forall i :: (if worked.Some? then 1 else 0) <= i < |popped| ==> !old(Claimable(popped[i]))
      ensures worked.Some? ==> popped != [] && Named(popped[0]) == worked && old(IsQueued(worked.value))
      ensures worked.Some? ==> !IsQueued(worked.value) && Inv(runs[worked.value].n, runs[worked.value].State())
      ensures forall id :: id in runs && Some(id) != worked ==> runs[id].State() == old(runs[id].State())
      ensures forall id :: Names(popped, id) ==> !IsQueued(id)
    {
      hide Inv, Kept, Names, NoneOf, Registered, Valid;
      ghost var queued := set id | id in runs && IsQueued(id);
      ghost var passed: seq<string> := [];
      worked := None;
      popped := [];
      NoneOfNothing(queued);
      while pending != [] && worked.None?
        invariant Valid() && NoneOf(passed, queued)
        invariant if worked.Some? then
                    && popped != [] && popped == [popped[0]] + passed && Named(popped[0]) == worked
                    && worked.value in queued
                    && !IsQueued(worked.value) && Inv(runs[worked.value].n, runs[worked.value].State())
                  else popped == passed
        invariant old(pending) == pending + popped
        invariant forall id :: id in runs && Some(id) != worked ==> runs[id].State() == old(runs[id].State())
        decreases |pending|
      {
        var raw;
        raw, worked := PopOne(worker);
        popped := [raw] + popped;
        if worked.None? {
          NoneOfMore(raw, passed, queued);
          passed := popped;
        }
      }
      NoneOfMeans(passed, queued);
      if worked.Some? {
        NamesFirst(popped[0], passed);
      }
    }

    /** None of the entries names one of these Runs. */
    ghost predicate NoneOf(raws: seq<string>, queued: set<Id>) {
      forall i :: 0 <= i < |raws| ==> Named(raws[i]).None? || Named(raws[i]).value !in queued
    }

    lemma NoneOfNothing(queued: set<Id>)
      ensures NoneOf([], queued)
    {
    }

    lemma NoneOfMore(raw: string, raws: seq<string>, queued: set<Id>)
      requires NoneOf(raws, queued) && (Named(raw).None? || Named(raw).value !in queued)
      ensures NoneOf([raw] + raws, queued)
    {
    }

    lemma NoneOfMeans(raws: seq<string>, queued: set<Id>)
      requires NoneOf(raws, queued)
      ensures forall i :: 0 <= i < |raws| ==> Named(raws[i]).None? || Named(raws[i]).value !in queued
      ensures forall id :: Names(raws, id) ==> id !in queued
    {
    }

    lemma NamesFirst(raw: string, raws: seq<string>)
      ensures forall id :: Names([raw] + raws, id) <==> Named(raw) == Some(id) || Names(raws, id)
    {
      forall id
        ensures Names([raw] + raws, id) <==> Named(raw) == Some(id) || Names(raws, id)
      {
        NamesConcat([raw], raws, id);
        assert [raw][0] == raw;
      }
    }

    /** A Worker works until the list is empty.  Then no Run is queued that the list had named, and
        none is queued that was not queued before. */
    method Consume(worker: string)
      requires Valid()
      modifies `pending, runs.Values
      ensures Valid() && pending == []
      ensures forall id :: IsQueued(id) ==> old(IsQueued(id)) && runs[id].State() == old(runs[id].State())
      ensures forall id :: Names(old(pending), id) ==> !IsQueued(id)
    {
      hide Valid, Names, Inv, Claimable;
      ghost var gone: seq<string> := [];
      assert forall id :: !Names(gone, id) by {
        forall id ensures !Names(gone, id) {
          NamesNothing(id);
        }
      }
      var busy := true;
      while busy
        invariant Valid()
        invariant old(pending) == pending + gone
        invariant !busy ==> pending == []
        invariant forall id :: IsQueued(id) ==> old(IsQueued(id)) && runs[id].State() == old(runs[id].State())
        invariant forall id :: Names(gone, id) ==> !IsQueued(id)
        decreases |pending|, busy
      {
        var worked, popped := WorkOnce(worker);
        forall id ensures Names(popped + gone, id) <==> Names(popped, id) || Names(gone, id) {
          NamesConcat(popped, gone, id);
        }
        gone := popped + gone;
        busy := worked.Some?;
      }
      assert [] + gone == gone;
    }

    // ------------------------------------------------------------ the minute loop

    method ReapLostRun(id: Id, now: int)
      requires id in runs && Kept(runs[id])
      modifies runs[id]
      ensures Kept(runs[id]) && runs[id].State() == Apply(runs[id].n, old(runs[id].State()), ReapLost(now))
    {
      hide Apply;
      OneMore(runs[id].n, runs[id].queuedAt, runs[id].history, ReapLost(now));
      runs[id].ReapLostWorker(now);
    }

    method ReapOverdueRun(id: Id, now: int)
      requires id in runs && Kept(runs[id])
      modifies runs[id]
      ensures Kept(runs[id]) && runs[id].State() == Apply(runs[id].n, old(runs[id].State()), ReapTakeover(now))
    {
      hide Apply;
      OneMore(runs[id].n, runs[id].queuedAt, runs[id].history, ReapTakeover(now));
      runs[id].ReapTakeoverDeadline(now);
    }

    method ReapLostWorkers(now: int)
      requires Valid()
      modifies runs.Values
      ensures Valid()
      ensures forall id :: id in runs ==> runs[id].State() == Apply(runs[id].n, old(runs[id].State()), ReapLost(now))
    {
      hide Apply, Kept;
      var i := 0;
      while i < |ids|
        invariant i <= |ids| && Valid()
        invariant forall k :: 0 <= k < |ids| ==>
                    runs[ids[k]].State() ==
                    if k < i then Apply(runs[ids[k]].n, old(runs[ids[k]].State()), ReapLost(now))
                    else old(runs[ids[k]].State())
      {
        ReapLostRun(ids[i], now);
        i := i + 1;
      }
    }

    method ReapTakeoverDeadlines(now: int)
      requires Valid()
      modifies runs.Values
      ensures Valid()
      ensures forall id :: id in runs ==>
                runs[id].State() == Apply(runs[id].n, old(runs[id].State()), ReapTakeover(now))
    {
      hide Apply, Kept;
      var i := 0;
      while i < |ids|
        invariant i <= |ids| && Valid()
        invariant forall k :: 0 <= k < |ids| ==>
                    runs[ids[k]].State() ==
                    if k < i then Apply(runs[ids[k]].n, old(runs[ids[k]].State()), ReapTakeover(now))
                    else old(runs[ids[k]].State())
      {
        ReapOverdueRun(ids[i], now);
        i := i + 1;
      }
    }

    lemma QueuedRows(id: Id)
      requires id in runs && Kept(runs[id])
      ensures runs[id].row.queuedAt == runs[id].queuedAt
      ensures runs[id].row.status.Queued? ==> runs[id].row.worker.None?
    {
      QueuedRow(runs[id].n, runs[id].queuedAt, runs[id].history);
    }

    /** Of these Runs, those that have been queued for more than a minute. */
    ghost function OverdueAmong(some: seq<Id>, now: int): seq<Id>
      requires forall id :: id in some ==> id in runs
      reads runs.Values
    {
      if some == [] then []
      else
        var init, last := some[..|some| - 1], some[|some| - 1];
        OverdueAmong(init, now) + if LeftQueued(runs[last].row, now) then [last] else []
    }

    lemma {:induction false} OverdueMembers(some: seq<Id>, now: int)
      requires forall id :: id in some ==> id in runs
      ensures forall id :: id in OverdueAmong(some, now) <==> id in some && LeftQueued(runs[id].row, now)
    {
      if some != [] {
        OverdueMembers(some[..|some| - 1], now);
        assert some == some[..|some| - 1] + [some[|some| - 1]];
      }
    }

    ghost predicate LongestQueuedFirst(some: seq<Id>) {
      forall i, j :: 0 <= i < j < |some| && some[i] in runs && some[j] in runs ==>
        some[i] != some[j] && runs[some[i]].queuedAt <= runs[some[j]].queuedAt
    }

    lemma {:induction false} OverdueInOrder(some: seq<Id>, now: int)
      requires (forall id :: id in some ==> id in runs) && LongestQueuedFirst(some)
      ensures LongestQueuedFirst(OverdueAmong(some, now))
    {
      if some != [] {
        var init := some[..|some| - 1];
        OverdueInOrder(init, now);
        OverdueMembers(init, now);
        var before := OverdueAmong(init, now);
        assert forall i :: 0 <= i < |before| ==> before[i] in before;
      }
    }

    /** The Runs that have been queued for more than a minute, the longest first. */
    method QueuedWithoutAWorker(now: int) returns (left: seq<Id>)
      requires Valid()
      ensures forall id :: id in left <==> id in runs && LeftQueued(runs[id].row, now)
      ensures LongestQueuedFirst(left)
      ensures forall id :: id in left <==> IsQueued(id) && runs[id].queuedAt < now - 60_000_000
    {
      hide Kept, LongestQueuedFirst;
      left := [];
      var i := 0;
      while i < |ids|
        invariant i <= |ids|
        invariant left == OverdueAmong(ids[..i], now)
      {
        QueuedRows(ids[i]);
        assert ids[..i + 1][..i] == ids[..i];
        var t := runs[ids[i]];
        if t.row.status.Queued? && t.row.worker.None? && t.row.queuedAt < now - QUEUED_BACKSTOP_AFTER {
          left := left + [ids[i]];
        }
        i := i + 1;
      }
      assert ids[..i] == ids;
      OverdueMembers(ids, now);
      OverdueInOrder(ids, now);
      forall id | id in runs
        ensures runs[id].row.queuedAt == runs[id].queuedAt
      {
        QueuedRows(id);
      }
    }

    method Push(left: seq<Id>)
      modifies `pending
      ensures pending == Pushed(left) + old(pending)
    {
      var i := 0;
      while i < |left|
        invariant i <= |left|
        invariant pending == Pushed(left[..i]) + old(pending)
      {
        pending := [show(left[i])] + pending;
        assert left[..i + 1][..i] == left[..i];
        i := i + 1;
      }
      assert left[..i] == left;
    }

    /** Reap, and push again what is still queued. */
    method ReapAndBackstop(now: int) returns (left: seq<Id>)
      requires Valid()
      modifies `pending, runs.Values
      ensures Valid()
      ensures forall id :: id in runs ==> runs[id].State() == Reaped(runs[id].n, old(runs[id].State()), now)
      ensures forall id :: id in left <==> id in runs && LeftQueued(runs[id].row, now)
      ensures LongestQueuedFirst(left)
      ensures pending == Pushed(left) + old(pending)
      ensures forall id :: id in left <==> IsQueued(id) && runs[id].queuedAt < now - 60_000_000
      ensures forall id :: id in runs ==> Fit(runs[id].row, now)
      ensures forall id :: id in runs && old(Fit(runs[id].row, now)) ==> runs[id].State() == old(runs[id].State())
    {
      hide Apply, Kept, Pushed, Fit;
      forall id | id in runs
        ensures Fit(Reaped(runs[id].n, runs[id].State(), now).row, now)
        ensures Fit(runs[id].row, now) ==> Reaped(runs[id].n, runs[id].State(), now) == runs[id].State()
      {
        ReapedIsFit(runs[id].n, runs[id].State(), now);
      }
      ReapLostWorkers(now);
      ReapTakeoverDeadlines(now);
      left := QueuedWithoutAWorker(now);
      Push(left);
    }

    function Pushed(left: seq<Id>): seq<string> {
      if left == [] then [] else [show(left[|left| - 1])] + Pushed(left[..|left| - 1])
    }

    lemma {:induction false} PushedNames(left: seq<Id>, k: nat)
      requires Registered() && k < |left| && forall id :: id in left ==> id in runs
      ensures |Pushed(left)| == |left| && Named(Pushed(left)[|left| - 1 - k]) == Some(left[k])
    {
      var init := left[..|left| - 1];
      if k < |init| {
        PushedNames(init, k);
      } else {
        PushedLength(init);
      }
    }

    lemma {:induction false} PushedLength(left: seq<Id>)
      ensures |Pushed(left)| == |left|
    {
      if left != [] {
        PushedLength(left[..|left| - 1]);
      }
    }

    /** Main result: no dispatch is lost for good.  Whatever happened to the list before, after one
        round of the minute loop and a Worker that works until the list is empty, no Run is queued
        that had been queued for a minute. */
    method RoundServesEveryQueuedRun(now: int, worker: string)
      requires Valid()
      modifies `pending, runs.Values
      ensures Valid()
      ensures forall id :: IsQueued(id) ==> runs[id].queuedAt >= now - 60_000_000
    {
      hide Kept, Apply;
      var left := ReapAndBackstop(now);
      ghost var list := pending;
      forall k | 0 <= k < |left| ensures Names(list, left[k]) {
        PushedNames(left, k);
        assert list[|left| - 1 - k] == Pushed(left)[|left| - 1 - k];
      }
      Consume(worker);
    }
  }
}
