/**
 When a task a worker gave back runs again, and what is left of a cancelled run
 (src/sluicery/db/repositories/task.py).
 */
module TaskOutcomes {
  import opened Common
  import opened TaskQueue
  import opened TaskSafety

  // ---- given back ----

  /** A running task of a reachable table, before its worker or the reaper writes to it. */
  ghost predicate InHand(rows: Rows, id: nat, worker: string) {
    RowsKept(rows) && EdgesBackward(rows) && DependenciesSucceeded(rows) && Owns(rows, id, worker)
  }

  /** The new row of a task whose dependencies are done is claimable as its own fields say. */
  lemma OwnFieldsDecide(rows: Rows, id: nat, worker: string, t: Task, at: real)
    requires InHand(rows, id, worker) && t.dependsOn == rows[id].dependsOn && t.status.Waiting()
    ensures Eligible(rows[id := t], id, t.workerClass, at, None) <==> !t.cancelRequested && Due(t, at)
  {
    assert RowKept(rows[id]);
    assert DependencySucceeded(rows, rows[id]);
  }

  /**
   A failed attempt with attempts left is claimable again exactly from the end of its delay on; so is
   a blocked task; and a task released by a shutdown at once, even if it had been asked to cancel.
   */
  lemma ReadyAgainExactly(rows: Rows, id: nat, worker: string, delay: real, now: real, at: real)
    requires InHand(rows, id, worker)
    ensures var t := rows[id];
            && (!t.cancelRequested && t.attempts + 1 < t.maxAttempts ==>
                  (Eligible(FailForRetry(rows, id, worker, delay, now), id, t.workerClass, at, None)
                   <==> now + delay <= at))
            && (!t.cancelRequested ==>
                  (Eligible(Block(rows, id, worker, delay, now), id, t.workerClass, at, None) <==> now + delay <= at))
            && (Eligible(Release(rows, id, worker, now), id, t.workerClass, at, None) <==> now <= at)
  {
    var t := rows[id];
    assert RowKept(t);
    if !t.cancelRequested {
      OwnFieldsDecide(rows, id, worker, Held(t, delay, now), at);
      if t.attempts + 1 < t.maxAttempts {
        OwnFieldsDecide(rows, id, worker, FailedOnce(t, delay, now), at);
      }
    }
    OwnFieldsDecide(rows, id, worker, Released(t, now), at);
  }

  /** A cancel request is honoured by every outcome but the two that keep the attempt open. */
  lemma CancelHonoured(rows: Rows, id: nat, worker: string, delay: real, now: real)
    requires InHand(rows, id, worker) && rows[id].cancelRequested
    ensures FailForRetry(rows, id, worker, delay, now)[id].status.Cancelled?
            && Block(rows, id, worker, delay, now)[id].status.Cancelled?
    ensures FailForRetry(rows, id, worker, delay, now)[id].attempts == rows[id].attempts
    ensures Release(rows, id, worker, now)[id].status.Pending? && !Release(rows, id, worker, now)[id].cancelRequested
  {
  }

  // ---- a cancelled run ----

  /** No task of the run waits, and those that run have been asked to stop. */
  ghost predicate RunDown(rows: Rows, run: nat) {
    forall x :: 0 <= x < |rows| && rows[x].run == Some(run)
      ==> !rows[x].status.Waiting() && (rows[x].status.Running? ==> rows[x].cancelRequested)
  }

  /** Cancelling a run takes it down and touches no other run. */
  lemma CancelRunTakesDown(rows: Rows, run: nat, now: real)
    ensures RunDown(RequestCancelRun(rows, run, now), run)
    ensures forall x :: 0 <= x < |rows| && rows[x].run != Some(run) ==> RequestCancelRun(rows, run, now)[x] == rows[x]
    ensures forall x :: 0 <= x < |rows| && rows[x].status.Terminal() ==> RequestCancelRun(rows, run, now)[x] == rows[x]
  {
  }

  /** The step puts a task of the run back to the queue, or adds one. */
  ghost predicate Reopens(rows: Rows, step: Step, run: nat) {
    match step
    case ReleaseTask(id, worker, _) => Owns(rows, id, worker) && rows[id].run == Some(run)
    case Reap(staleBefore, _) =>
      exists x :: 0 <= x < |rows| && rows[x].run == Some(run) && Stale(rows[x], staleBefore)
        && rows[x].attempts + 1 < rows[x].maxAttempts
    case RetryTask(id, _) => id < |rows| && rows[id].run == Some(run) && !rows[id].status.Running?
    case EnqueueChain(kinds, r, _) => r == Some(run) && kinds != []
    case _ => false
  }

  /** Exactly these steps bring a run that is down back. */
  lemma StepReopensExactly(rows: Rows, step: Step, run: nat)
    requires RunDown(rows, run)
    ensures RunDown(Changed(rows, step), run) <==> !Reopens(rows, step, run)
  {
    match step {
      case EnqueueChain(kinds, r, maxAttempts) =>
        ChainShape(rows, kinds, r, maxAttempts);
        var after := Changed(rows, step);
        if r == Some(run) && kinds != [] {
          assert after[|rows|].run == Some(run) && after[|rows|].status.Waiting();
        }
        assert forall x :: 0 <= x < |rows| ==> after[x] == rows[x];
      case Reap(staleBefore, now) => ReapReopens(rows, staleBefore, now, run);
      case ReleaseTask(id, worker, now) =>
        if Owns(rows, id, worker) && rows[id].run == Some(run) {
          assert Changed(rows, step)[id].status.Pending?;
        }
      case RetryTask(id, now) =>
        if id < |rows| && rows[id].run == Some(run) && !rows[id].status.Running? {
          assert Changed(rows, step)[id].status.Pending?;
        }
      case _ =>
    }
  }

  lemma ReapReopens(rows: Rows, staleBefore: real, now: real, run: nat)
    requires RunDown(rows, run)
    ensures RunDown(RecoverStale(rows, staleBefore, now), run) <==> !Reopens(rows, Reap(staleBefore, now), run)
  {
    var after := RecoverStale(rows, staleBefore, now);
    if x :| 0 <= x < |rows| && rows[x].run == Some(run) && Stale(rows[x], staleBefore)
            && rows[x].attempts + 1 < rows[x].maxAttempts {
      assert after[x].status.Pending? && after[x].run == Some(run);
    }
  }

  ghost predicate NeverReopened(q: Queue, steps: seq<Step>, run: nat) {
    steps == []
    || (NeverReopened(q, steps[..|steps| - 1], run)
       && !Reopens(Execute(q, steps[..|steps| - 1]).rows, steps[|steps| - 1], run))
  }

  /** After a run is cancelled none of its tasks ever waits or starts again, unless one of those steps is taken. */
  lemma {:induction false} CancelledRunStaysDown(rows: Rows, owed: set<nat>, run: nat, now: real, steps: seq<Step>)
    requires NeverReopened(Queue(RequestCancelRun(rows, run, now), owed), steps, run)
    ensures RunDown(Execute(Queue(RequestCancelRun(rows, run, now), owed), steps).rows, run)
  {
    var q := Queue(RequestCancelRun(rows, run, now), owed);
    if steps == [] {
      CancelRunTakesDown(rows, run, now);
    } else {
      CancelledRunStaysDown(rows, owed, run, now, steps[..|steps| - 1]);
      StepReopensExactly(Execute(q, steps[..|steps| - 1]).rows, steps[|steps| - 1], run);
    }
  }
}
