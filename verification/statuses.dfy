/**
 How a Batch and a Schedule see a Run: by its status alone.  Whatever happens to the Run, they see a
 status that moves and, once final, stays.
 */
module Statuses {
  import opened Wrappers
  import opened RunProtocol
  import Batches
  import Schedules

  /** Every transaction on a Run is, for its Batch, a move to the status it leaves. */
  lemma BatchSeesMove(n: nat, s: State, e: Event, batch: Batches.Batch, k: nat)
    requires Inv(n, s) && Disciplined(n, s, e) && k < |batch.runs| && batch.runs[k].status == s.row.status
    ensures var after := Batches.Apply(batch, Batches.RunMoves(k, Apply(n, s, e).row.status));
            && after.rows == batch.rows && |after.runs| == |batch.runs|
            && after.runs[k] == batch.runs[k].(status := Apply(n, s, e).row.status)
            && forall j :: 0 <= j < |batch.runs| && j != k ==> after.runs[j] == batch.runs[j]
  {
    if Terminal(s.row.status) {
      TerminalStays(n, s, e);
    }
    hide Apply, Disciplined, Inv;
  }

  /** For its Schedule likewise. */
  lemma ScheduleSeesMove(n: nat, s: State, e: Event, runs: seq<RunStatus>, k: nat)
    requires Inv(n, s) && Disciplined(n, s, e) && k < |runs| && runs[k] == s.row.status
    ensures Schedules.Moved(runs, k, Apply(n, s, e).row.status) == runs[k := Apply(n, s, e).row.status]
  {
    if Terminal(s.row.status) {
      TerminalStays(n, s, e);
      assert runs[k := runs[k]] == runs;
    }
    hide Apply, Disciplined, Inv;
  }

  /** The moves a Batch sees while its Run goes through a history. */
  function Moves(n: nat, queuedAt: int, h: seq<Event>, k: nat): seq<Batches.Step> {
    if h == [] then []
    else Moves(n, queuedAt, h[..|h| - 1], k) + [Batches.RunMoves(k, Replay(n, queuedAt, h).row.status)]
  }

  /** Main result: through any history of a Run its Batch keeps up with its status, and with nothing else. */
  lemma {:induction false} BatchKeepsUp(n: nat, queuedAt: int, h: seq<Event>, batch: Batches.Batch, k: nat)
    requires Obeys(n, queuedAt, h) && k < |batch.runs| && batch.runs[k].status.Queued?
    ensures var after := Batches.Replay(batch, Moves(n, queuedAt, h, k));
            && after.rows == batch.rows && |after.runs| == |batch.runs|
            && after.runs[k].status == Replay(n, queuedAt, h).row.status
            && forall j :: 0 <= j < |batch.runs| && j != k ==> after.runs[j] == batch.runs[j]
  {
    if h != [] {
      hide Inv, Disciplined, Apply, Batches.Apply;
      var init := h[..|h| - 1];
      BatchKeepsUp(n, queuedAt, init, batch, k);
      EveryHistoryKeepsInv(n, queuedAt, init);
      var seen := Moves(n, queuedAt, init, k);
      var move := Batches.RunMoves(k, Replay(n, queuedAt, h).row.status);
      assert (seen + [move])[..|seen + [move]| - 1] == seen;
      BatchSeesMove(n, Replay(n, queuedAt, init), h[|h| - 1], Batches.Replay(batch, seen), k);
    }
  }

  /** What cancelling a Batch does to its Run is what cancelling the Run does. */
  lemma CancellingIsCancelling(n: nat, s: State, at: int, run: Batches.BatchRun)
    requires run.status == s.row.status
    ensures Batches.CancelledRun(run).status == Apply(n, s, Cancel(at)).row.status
    ensures s.row.status.Running? ==>
              Batches.CancelledRun(run).cancelRequested && Apply(n, s, Cancel(at)).row.cancelRequestedAt.Some?
  {
  }
}
