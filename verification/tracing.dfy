/**
 Trace capture around a Run (`TraceCapture`).  Any number of reasons may hold the recording back at
 once; a chunk is saved each time the recording stops.  What becomes of a save is decided outside:
 the chunk is stored, the browser writes none, or storing it raises an error that leaves the caller.
 */
module Tracing {

  datatype PauseReason = Secret | Takeover

  datatype SaveOutcome = Stored | NoChunk | StoreFailed

  /** The index after these saves: an error in the store leaves it where it was. */
  function IndexAfter(outcomes: seq<SaveOutcome>): nat {
    if outcomes == [] then 0
    else IndexAfter(outcomes[..|outcomes| - 1]) + if outcomes[|outcomes| - 1].StoreFailed? then 0 else 1
  }

  /** The indices of the chunks that reached the store. */
  function StoredBy(outcomes: seq<SaveOutcome>): seq<nat> {
    if outcomes == [] then []
    else
      var init := outcomes[..|outcomes| - 1];
      StoredBy(init) + if outcomes[|outcomes| - 1].Stored? then [IndexAfter(init)] else []
  }

  ghost predicate Consecutive(indices: seq<nat>) {
    forall i :: 0 <= i < |indices| ==> indices[i] == i
  }

  /** No chunk is stored after a save for which the browser wrote none. */
  ghost predicate NoStoreAfterGap(outcomes: seq<SaveOutcome>) {
    forall i, j :: 0 <= i < j < |outcomes| && outcomes[i].NoChunk? ==> !outcomes[j].Stored?
  }

  ghost predicate NoGap(outcomes: seq<SaveOutcome>) {
    forall i :: 0 <= i < |outcomes| ==> !outcomes[i].NoChunk?
  }

  /** The stored indices lag behind the index exactly if some save wrote no chunk. */
  lemma {:induction false} StoredLag(outcomes: seq<SaveOutcome>)
    ensures |StoredBy(outcomes)| <= IndexAfter(outcomes)
    ensures |StoredBy(outcomes)| == IndexAfter(outcomes) <==> NoGap(outcomes)
    ensures forall i :: 0 <= i < |StoredBy(outcomes)| ==> StoredBy(outcomes)[i] < IndexAfter(outcomes)
  {
    if outcomes != [] {
      var init := outcomes[..|outcomes| - 1];
      StoredLag(init);
      assert NoGap(outcomes) <==> NoGap(init) && !outcomes[|outcomes| - 1].NoChunk?;
    }
  }

  /** Stored indices never repeat or fall. */
  lemma {:induction false} StoredIndicesRise(outcomes: seq<SaveOutcome>)
    ensures var s := StoredBy(outcomes); forall i, j :: 0 <= i < j < |s| ==> s[i] < s[j]
  {
    if outcomes != [] {
      StoredIndicesRise(outcomes[..|outcomes| - 1]);
      StoredLag(outcomes[..|outcomes| - 1]);
    }
  }

  /** Main result: the stored chunks are numbered 0, 1, 2 and so on if and only if no chunk is stored
      after a save for which the browser wrote none. */
  lemma {:induction false} ConsecutiveExactly(outcomes: seq<SaveOutcome>)
    ensures Consecutive(StoredBy(outcomes)) <==> NoStoreAfterGap(outcomes)
  {
    if outcomes != [] {
      var init, last := outcomes[..|outcomes| - 1], outcomes[|outcomes| - 1];
      ConsecutiveExactly(init);
      StoredLag(init);
      assert NoStoreAfterGap(outcomes) <==> NoStoreAfterGap(init) && (last.Stored? ==> NoGap(init));
      var s := StoredBy(outcomes);
      if last.Stored? {
        assert s[|s| - 1] == IndexAfter(init) && s[..|s| - 1] == StoredBy(init);
        assert Consecutive(s) <==> Consecutive(StoredBy(init)) && IndexAfter(init) == |s| - 1;
      } else {
        assert s == StoredBy(init);
      }
    }
  }

  /** A gap: the browser fails to write the first chunk and writes the second. */
  lemma GapAfterFailedStop()
    ensures StoredBy([NoChunk, Stored]) == [1]
  {
    assert [NoChunk, Stored][..1] == [NoChunk] && [NoChunk][..0] == [];
  }

  class TraceCapture {
    var index: nat
    var active: bool
    var reasons: set<PauseReason>
    ghost var outcomes: seq<SaveOutcome>   // what became of every save

    ghost predicate Valid()
      reads this
    {
      && index == IndexAfter(outcomes)
      && (reasons != {} && active ==> outcomes != [] && outcomes[|outcomes| - 1].StoreFailed?)
    }

    /** Nothing is recorded while any reason is held. */
    ghost predicate Quiet()
      reads this
    {
      Valid() && (reasons != {} ==> !active)
    }

    constructor ()
      ensures Quiet() && reasons == {} && !active && outcomes == []
    {
      index := 0;
      active := false;
      reasons := {};
      outcomes := [];
    }

    method Start()
      requires Valid() && reasons == {}
      modifies `active
      ensures Quiet() && active
    {
      active := true;
    }

    /** When it returns, nothing is recorded; when storing the chunk raises, it stays as it was. */
    method Pause(reason: PauseReason) returns (raised: bool)
      requires Valid()
      modifies this
      ensures Valid() && reasons == old(reasons) + {reason} && old(outcomes) <= outcomes
      ensures !raised ==> Quiet() && !active
      ensures !old(active) ==> !raised && outcomes == old(outcomes)
      ensures old(active) ==> |outcomes| == |old(outcomes)| + 1
      ensures raised <==> old(active) && outcomes == old(outcomes) + [StoreFailed]
      ensures raised ==> active
    {
      reasons := reasons + {reason};
      raised := false;
      if active {
        var outcome := Save();
        if outcome.StoreFailed? {
          return true;
        }
        active := false;
      }
    }

    method Resume(reason: PauseReason)
      requires Valid()
      modifies `active, `reasons
      ensures Valid() && (old(Quiet()) ==> Quiet())
      ensures reasons == old(reasons) - {reason}
      ensures active && !old(active) ==> reasons == {}
    {
      reasons := reasons - {reason};
      if reasons == {} && !active {
        var started: bool := *;
        active := started;
      }
    }

    method Finish() returns (raised: bool)
      requires Valid()
      modifies this
      ensures Valid() && reasons == old(reasons) && old(outcomes) <= outcomes
      ensures active == raised
      ensures raised <==> old(active) && outcomes == old(outcomes) + [StoreFailed]
    {
      raised := false;
      if active {
        var outcome := Save();
        if outcome.StoreFailed? {
          return true;
        }
        active := false;
      }
    }

    /** One chunk; what becomes of it is decided outside. */
    method Save() returns (outcome: SaveOutcome)
      requires index == IndexAfter(outcomes)
      modifies `index, `outcomes
      ensures outcomes == old(outcomes) + [outcome] && index == IndexAfter(outcomes)
      ensures StoredBy(outcomes) == StoredBy(old(outcomes)) + if outcome.Stored? then [old(index)] else []
    {
      outcome := *;
      if !outcome.StoreFailed? {
        index := index + 1;
      }
      outcomes := outcomes + [outcome];
      assert outcomes[..|outcomes| - 1] == old(outcomes);
    }
  }
}
