/**
 Which running tasks the reaper takes, and that it never takes one whose worker is seen often enough
 (src/sluicery/db/repositories/task.py).
 */
module TaskHeartbeat {
  import opened Common
  import opened TaskQueue
  import opened TaskSafety

  /**
   The reaper takes exactly the running rows whose heartbeat, or without one whose start, lies before the limit.
   A row taken is charged an attempt and waits again at once, or is given up with its last one; no other changes.
   */
  lemma ReapExactly(rows: Rows, staleBefore: real, now: real, id: nat)
    requires id < |rows|
    ensures var (was, got) := (rows[id], RecoverStale(rows, staleBefore, now)[id]);
            var silent := || (was.heartbeatAt.Some? && was.heartbeatAt.value < staleBefore)
                          || (was.heartbeatAt == None && was.startedAt.Some? && was.startedAt.value < staleBefore);
            && (was.status == Running && silent <==> was.status == Running && got.status != Running)
            && (was.status == Running && silent ==>
                  && got.attempts == was.attempts + 1 && got.worker == None
                  && got.startedAt == None && got.heartbeatAt == None
                  && (if was.attempts + 1 < was.maxAttempts
                      then got.status == Pending && got.availableAt == Some(now) && got.finishedAt == None
                      else got.status == Unavailable && got.availableAt == None && got.finishedAt == Some(now))
                  && got.cancelRequested == was.cancelRequested && got.dependsOn == was.dependsOn)
            && (!(was.status == Running && silent) ==> got == was)
  {
  }

  /** When the worker was last seen after one more step: a heartbeat of its own for the task says so. */
  function SeenAfter(seen: real, step: Step, id: nat, worker: string): real {
    match step
    case Heartbeat(i, w, now) => if i == id && w == worker then now else seen
    case _ => seen
  }

  function LastSeen(seen: real, steps: seq<Step>, id: nat, worker: string): real {
    if steps == [] then seen
    else SeenAfter(LastSeen(seen, steps[..|steps| - 1], id, worker), steps[|steps| - 1], id, worker)
  }

  /** The worker itself puts the task down. */
  predicate PutsDown(step: Step, id: nat, worker: string) {
    match step
    case Mark(i, w, _, _) => i == id && w == worker
    case MarkFailed(i, w, _, _) => i == id && w == worker
    case MarkBlocked(i, w, _, _) => i == id && w == worker
    case ReleaseTask(i, w, _) => i == id && w == worker
    case _ => false
  }

  /** No reaper asks for a later sign of life than the worker has given by then, and the worker goes on. */
  ghost predicate SeenInTime(seen: real, steps: seq<Step>, id: nat, worker: string) {
    steps == []
    || (var before, step := steps[..|steps| - 1], steps[|steps| - 1];
        && SeenInTime(seen, before, id, worker) && !PutsDown(step, id, worker)
        && (step.Reap? ==> step.staleBefore <= LastSeen(seen, before, id, worker)))
  }

  /** The row runs under the worker's name and shows when it was last seen. */
  ghost predicate Working(rows: Rows, id: nat, worker: string, seen: real) {
    && id < |rows| && rows[id].status == Running && rows[id].worker == Some(worker)
    && rows[id].heartbeatAt == Some(seen)
  }

  lemma StepKeepsWorking(rows: Rows, step: Step, id: nat, worker: string, seen: real)
    requires Working(rows, id, worker, seen) && !PutsDown(step, id, worker)
    requires step.Reap? ==> step.staleBefore <= seen
    ensures Working(Changed(rows, step), id, worker, SeenAfter(seen, step, id, worker))
  {
    match step {
      case EnqueueChain(kinds, run, maxAttempts) => ChainShape(rows, kinds, run, maxAttempts);
      case _ =>
    }
  }

  /** Whatever else happens to the table, a worker that is seen in time keeps its task. */
  lemma {:induction false} SeenIsKept(q: Queue, steps: seq<Step>, id: nat, worker: string, seen: real)
    requires Working(q.rows, id, worker, seen) && SeenInTime(seen, steps, id, worker)
    ensures Working(Execute(q, steps).rows, id, worker, LastSeen(seen, steps, id, worker))
  {
    if steps != [] {
      var before, step := steps[..|steps| - 1], steps[|steps| - 1];
      SeenIsKept(q, before, id, worker, seen);
      StepKeepsWorking(Execute(q, before).rows, step, id, worker, LastSeen(seen, before, id, worker));
    }
  }

  /**
   From a claim at a given time on: a reap takes the task exactly when it asks for a later sign of life than the
   claim or the last heartbeat since.
   */
  lemma ReapedExactly(
    rows: Rows, owed: set<nat>, workerClass: WorkerClass, worker: string, now: real, limit: Option<int>, id: nat,
    steps: seq<Step>, staleBefore: real, at: real)
    requires BestBelow(rows, |rows|, workerClass, now, limit) == Some(id) && SeenInTime(now, steps, id, worker)
    ensures var claimed := Apply(Queue(rows, owed), ClaimNext(workerClass, worker, now, limit));
            var after := Execute(claimed, steps).rows;
            && Working(after, id, worker, LastSeen(now, steps, id, worker))
            && (Changed(after, Reap(staleBefore, at))[id].status == Running
                <==> staleBefore <= LastSeen(now, steps, id, worker))
  {
    var claimed := Apply(Queue(rows, owed), ClaimNext(workerClass, worker, now, limit));
    SeenIsKept(claimed, steps, id, worker, now);
    ReapExactly(Execute(claimed, steps).rows, staleBefore, at, id);
  }
}
