/**
 What an operator's requests and a round of the reaper leave in the task table
 (src/sluicery/db/repositories/task.py).
 */
module TaskRequests {
  import opened Common
  import opened TaskQueue
  import R = TaskRepository
  import TaskSafety
  import TaskHeartbeat

  // ---- requests ----

  /** A cancelled row waits for nothing and belongs to nobody. */
  ghost predicate ClosedAt(t: Task, now: real) {
    && t.status == Cancelled && t.finishedAt == Some(now) && !t.cancelRequested
    && t.worker == None && t.startedAt == None && t.heartbeatAt == None
  }

  /**
   A request to cancel a task asks a running one to stop, which goes on running, closes a waiting one, and leaves a
   settled one as it is; no other row changes.
   */
  lemma CancelExactly(rows: Rows, id: nat, now: real, x: nat)
    requires id < |rows| && x < |rows|
    ensures |RequestCancel(rows, id, now)| == |rows|
    ensures var (was, got) := (rows[x], RequestCancel(rows, id, now)[x]);
            && (x != id || was.status.Terminal() ==> got == was)
            && (x == id && was.status == Running ==> got.cancelRequested && got == was.(cancelRequested := true))
            && (x == id && (was.status == Pending || was.status == Queued || was.status == Blocked) ==>
                  && ClosedAt(got, now) && got.availableAt == got.blockedUntil == None
                  && got.attempts == was.attempts && got.run == was.run && got.dependsOn == was.dependsOn)
  {
  }

  /** A request to cancel a run does so for each of its tasks, and touches no other. */
  lemma CancelRunExactly(rows: Rows, run: nat, now: real, x: nat)
    requires x < |rows|
    ensures var (was, got) := (rows[x], RequestCancelRun(rows, run, now)[x]);
            && (was.run != Some(run) || was.status.Terminal() ==> got == was)
            && (was.run == Some(run) && was.status == Running ==>
                  got.cancelRequested && got == was.(cancelRequested := true))
            && (was.run == Some(run) && (was.status == Pending || was.status == Queued || was.status == Blocked) ==>
                  ClosedAt(got, now) && got.run == was.run && got.dependsOn == was.dependsOn)
  {
  }

  /**
   A retry by hand takes any task that is not running back to the queue as if new: no attempt charged, no request
   pending, no wait; so once what it depends on has succeeded any worker of its class may have it from now on.
   */
  lemma RetriedExactly(rows: Rows, id: nat, now: real, at: real)
    requires id < |rows| && rows[id].status != Running
    ensures var (was, got) := (rows[id], Retry(rows, id, now)[id]);
            && got.status == Pending && got.attempts == 0 && !got.cancelRequested && got.worker == None
            && got.startedAt == got.heartbeatAt == got.finishedAt == None
            && got.kind == was.kind && got.run == was.run && got.dependsOn == was.dependsOn
            && got.maxAttempts == was.maxAttempts
    ensures Retry(rows, id, now) == rows[id := Retry(rows, id, now)[id]]
    ensures (rows[id].dependsOn.Some? ==>
               rows[id].dependsOn.value < |rows| && rows[id].dependsOn.value != id
               && rows[rows[id].dependsOn.value].status == Succeeded)
            ==> (Eligible(Retry(rows, id, now), id, rows[id].workerClass, at, None) <==> now <= at)
  {
  }

  // ---- waiting rows ----

  /** Nothing of an earlier execution shows on a row that waits. */
  ghost predicate Unstarted(t: Task) {
    t.status == Pending || t.status == Queued || t.status == Blocked
    ==> t.worker == None && t.startedAt == None && t.heartbeatAt == None && t.finishedAt == None
  }

  lemma StepKeepsUnstarted(rows: Rows, step: TaskSafety.Step, x: nat)
    requires TaskSafety.RowsKept(rows) && forall y :: 0 <= y < |rows| ==> Unstarted(rows[y])
    requires x < |TaskSafety.Changed(rows, step)|
    ensures Unstarted(TaskSafety.Changed(rows, step)[x])
  {
    if step.EnqueueChain? {
      TaskSafety.ChainShape(rows, step.kinds, step.run, step.maxAttempts);
    }
    if x < |rows| {
      assert TaskSafety.RowKept(rows[x]) && Unstarted(rows[x]);
    }
  }

  /** However it came back to the queue, over every run. */
  lemma {:induction false} RunKeepsUnstarted(steps: seq<TaskSafety.Step>, x: nat)
    requires TaskSafety.AllEnqueueable(steps)
    requires x < |TaskSafety.Execute(TaskSafety.Queue([], {}), steps).rows|
    ensures Unstarted(TaskSafety.Execute(TaskSafety.Queue([], {}), steps).rows[x])
  {
    if steps != [] {
      var before := steps[..|steps| - 1];
      var rows := TaskSafety.Execute(TaskSafety.Queue([], {}), before).rows;
      TaskSafety.RunKeepsRows(TaskSafety.Queue([], {}), before);
      forall y: nat | y < |rows|
        ensures Unstarted(rows[y])
      {
        RunKeepsUnstarted(before, y);
      }
      StepKeepsUnstarted(rows, steps[|steps| - 1], x);
    }
  }

  // ---- a round of the reaper ----

  /** Calling cancel_descendants for each of these leaves nothing waiting behind any of them. */
  lemma {:induction false} NothingBehind(rows: Rows, ids: seq<nat>, now: real, t: nat, x: nat)
    requires EdgesBackward(rows) && t in ids
    ensures EdgesBackward(R.CancelEach(rows, ids, now)) && !Under(R.CancelEach(rows, ids, now), t, x)
  {
    var init, last := ids[..|ids| - 1], ids[|ids| - 1];
    var before, after := R.CancelEach(rows, init, now), R.CancelEach(rows, ids, now);
    EachStays(rows, init, now);
    TaskSafety.DropAnswers(before, last, now, {});
    if t != last {
      NothingBehind(rows, init, now, t, x);
      if Under(after, t, x) {
        TaskSafety.UnderBackwards(before, after, t, x);
      }
    }
  }

  lemma {:induction false} EachStays(rows: Rows, ids: seq<nat>, now: real)
    requires EdgesBackward(rows)
    ensures var after := R.CancelEach(rows, ids, now);
            && |after| == |rows| && EdgesBackward(after)
            && forall y :: 0 <= y < |rows| ==>
                 after[y].dependsOn == rows[y].dependsOn && (after[y].status.Waiting() ==> rows[y].status.Waiting())
  {
    if ids != [] {
      EachStays(rows, ids[..|ids| - 1], now);
    }
  }

  /** And drops nothing else. */
  lemma {:induction false} OnlyBehind(rows: Rows, ids: seq<nat>, now: real, x: nat)
    requires EdgesBackward(rows) && x < |rows|
    ensures |R.CancelEach(rows, ids, now)| == |rows|
    ensures R.CancelEach(rows, ids, now)[x] != rows[x] ==>
              R.CancelEach(rows, ids, now)[x] == Dropped(rows[x], now) && exists t :: t in ids && Under(rows, t, x)
  {
    if ids != [] {
      var init, last := ids[..|ids| - 1], ids[|ids| - 1];
      var before, after := R.CancelEach(rows, init, now), R.CancelEach(rows, ids, now);
      EachStays(rows, init, now);
      OnlyBehind(rows, init, now, x);
      if after[x] != before[x] {
        TaskSafety.UnderBackwards(rows, before, last, x);
        assert before[x].status.Waiting();
      }
    }
  }

  /** The task is out of attempts and its worker has not been seen since the limit. */
  ghost predicate LostForGood(t: Task, staleBefore: real) {
    && t.status == Running && t.attempts + 1 >= t.maxAttempts
    && (|| (t.heartbeatAt.Some? && t.heartbeatAt.value < staleBefore)
        || (t.heartbeatAt == None && t.startedAt.Some? && t.startedAt.value < staleBefore))
  }

  function AfterReap(rows: Rows, staleBefore: real, now: real): Rows {
    R.CancelEach(RecoverStale(rows, staleBefore, now),
      R.LastAttempts(rows, R.StaleIds(rows, |rows|, staleBefore)), now)
  }

  /**
   A round of the reaper gives up exactly the running tasks out of attempts whose worker was not seen in time, and
   nothing waits behind one of these any more; any other row that is not as the recovery alone leaves it waited
   behind one and is cancelled.
   */
  lemma ReapLeaves(rows: Rows, staleBefore: real, now: real, x: nat)
    requires EdgesBackward(rows) && x < |rows|
    ensures |AfterReap(rows, staleBefore, now)| == |rows|
    ensures LostForGood(rows[x], staleBefore) ==>
              && AfterReap(rows, staleBefore, now)[x].status == Unavailable
              && forall y :: 0 <= y < |rows| ==> !Under(AfterReap(rows, staleBefore, now), x, y)
    ensures var (alone, got) := (RecoverStale(rows, staleBefore, now)[x], AfterReap(rows, staleBefore, now)[x]);
            got != alone ==>
              && alone.status.Waiting() && got.status == Cancelled && got.finishedAt == Some(now)
              && exists t: nat :: t < |rows| && LostForGood(rows[t], staleBefore)
                                  && Under(RecoverStale(rows, staleBefore, now), t, x)
  {
    var recovered := RecoverStale(rows, staleBefore, now);
    var ids := R.LastAttempts(rows, R.StaleIds(rows, |rows|, staleBefore));
    assert EdgesBackward(recovered);
    forall t: nat | t < |rows|
      ensures t in ids <==> LostForGood(rows[t], staleBefore)
    {
    }
    OnlyBehind(recovered, ids, now, x);
    TaskHeartbeat.ReapExactly(rows, staleBefore, now, x);
    if LostForGood(rows[x], staleBefore) {
      forall y | 0 <= y < |rows|
        ensures !Under(AfterReap(rows, staleBefore, now), x, y)
      {
        NothingBehind(recovered, ids, now, x, y);
      }
    }
  }
}
