/**
 What a worker makes of a handler's result, and the reaper of stale tasks
 (src/sluicery/tasks/worker.py): the task row first, then what waits behind it, then the target.
 */
module Worker {
  import opened Common
  import opened TaskQueue
  import Backoff
  import R = TaskRepository
  import TaskSafety
  import TS = TargetState

  datatype Outcome = Success | Failure | Hopeless | Hindered(forbidden: bool) | Stopped

  /** Seconds: the back-off's base and cap, and the waits of a blocked task. */
  datatype Config = Config(retryBase: real, retryMax: real, blockedRetry: real, forbiddenRetry: real)

  type Targets = map<nat, TS.Target>

  function TaskStatusOf(s: Status): TS.TaskStatus {
    match s
    case Pending => TS.TaskPending
    case Queued => TS.TaskQueued
    case Running => TS.TaskRunning
    case Succeeded => TS.TaskSucceeded
    case Failed => TS.TaskFailed
    case Unavailable => TS.TaskUnavailable
    case Blocked => TS.TaskBlocked
    case Cancelled => TS.TaskCancelled
  }

  // ---- what a result leaves behind ----

  /** The worker's own write; attempts is what the worker read when it claimed the task. */
  function Written(
    rows: Rows, id: nat, worker: string, outcome: Outcome, attempts: nat, config: Config, fraction: real,
      now: real): Rows
  {
    match outcome
    case Success => Finish(rows, id, worker, Succeeded, now)
    case Hopeless => Finish(rows, id, worker, Unavailable, now)
    case Stopped => Finish(rows, id, worker, Cancelled, now)
    case Hindered(forbidden) =>
      Block(rows, id, worker, if forbidden then config.forbiddenRetry else config.blockedRetry, now)
    case Failure =>
      FailForRetry(rows, id, worker,
        Backoff.RetryDelay(attempts + 1, config.retryBase, config.retryMax, fraction).value, now)
  }

  /** Then everything that waits behind a task that died. */
  function Swept(rows: Rows, id: nat, now: real): Rows {
    if id < |rows| && rows[id].status.Dead() then CancelDescendants(rows, id, now) else rows
  }

  function SyncedTarget(targets: Targets, t: nat, status: Status, message: Option<string>, failedAttempt: bool): Targets
  {
    if t in targets then targets[t := TS.Synced(targets[t], TaskStatusOf(status), message, failedAttempt)] else targets
  }

  class TargetTable {
    var rows: Targets

    constructor (rows: Targets)
      ensures this.rows == rows
    {
      this.rows := rows;
    }

    method SyncAfterTask(t: nat, status: Status, message: Option<string>, failedAttempt: bool)
      modifies this
      ensures rows == SyncedTarget(old(rows), t, status, message, failedAttempt)
    {
      if t in rows {
        var row := new TS.Row(rows[t]);
        var _ := row.SyncAfterTask(TaskStatusOf(status), message, failedAttempt);
        rows := rows[t := row.target];
      }
    }
  }

  class Worker {
    const name: string
    const config: Config
    const repo: R.TaskRepository
    const table: TargetTable

    constructor (name: string, config: Config, repo: R.TaskRepository, table: TargetTable)
      ensures this.name == name && this.config == config && this.repo == repo && this.table == table
    {
      this.name, this.config, this.repo, this.table := name, config, repo, table;
    }

    /**
     Writes the result of task id. A result that comes too late, when the row is no longer this
     worker's, changes neither the tasks nor the target.
     */
    method ApplyResult(
      id: nat, attempts: nat, target: Option<nat>, outcome: Outcome, message: Option<string>, fraction: real, now: real)
      requires EdgesBackward(repo.rows)
      modifies repo, table
      ensures var owned := Owns(old(repo.rows), id, name);
              var written := Written(old(repo.rows), id, name, outcome, attempts, config, fraction, now);
              && |written| == |old(repo.rows)|
              && repo.rows == (if owned then Swept(written, id, now) else old(repo.rows))
              && table.rows == (if owned && !outcome.Success? && target.Some?
                                then SyncedTarget(old(table.rows), target.value, written[id].status, message,
                                  outcome.Failure?)
                                else old(table.rows))
    {
      ghost var rows0 := repo.rows;
      var settled: Option<Status> := None;
      match outcome {
        case Success =>
          var _ := repo.MarkSucceeded(id, name, now);
        case Stopped =>
          var changed := repo.MarkDead(id, name, Cancelled, now);
          if changed {
            settled := Some(Cancelled);
          }
        case Hopeless =>
          var changed := repo.MarkDead(id, name, Unavailable, now);
          if changed {
            settled := Some(Unavailable);
          }
        case Hindered(forbidden) =>
          var changed :=
            repo.MarkBlocked(id, name, if forbidden then config.forbiddenRetry else config.blockedRetry, now);
          if changed {
            settled := Some(repo.rows[id].status);
          }
        case Failure =>
          var delay := Backoff.RetryDelay(attempts + 1, config.retryBase, config.retryMax, fraction).value;
          settled := repo.MarkFailedForRetry(id, name, delay, now);
      }
      if settled.Some? && target.Some? {
        table.SyncAfterTask(target.value, settled.value, message, outcome.Failure?);
      }
    }
  }

  /** The targets of recovered tasks that are out of attempts. */
  function ReapedTargets(
    targets: Targets, rows: Rows, refs: map<nat, nat>, ids: seq<nat>, message: Option<string>): Targets
  {
    if ids == [] then targets
    else
      var before := ReapedTargets(targets, rows, refs, ids[..|ids| - 1], message);
      var id := ids[|ids| - 1];
      if GivenUp(rows, refs, id) then SyncedTarget(before, refs[id], Unavailable, message, false) else before
  }

  predicate GivenUp(rows: Rows, refs: map<nat, nat>, id: nat) {
    id < |rows| && rows[id].status.Unavailable? && id in refs
  }

  class StaleTaskReaper {
    const repo: R.TaskRepository
    const table: TargetTable

    constructor (repo: R.TaskRepository, table: TargetTable)
      ensures this.repo == repo && this.table == table
    {
      this.repo, this.table := repo, table;
    }

    /** Recovers every stale task, then settles the targets of those given up; refs names the target of a task. */
    method RunOnce(
      refs: map<nat, nat>, staleBefore: real, now: real, message: Option<string>) returns (recovered: seq<nat>)
      requires EdgesBackward(repo.rows)
      modifies repo, table
      ensures recovered == R.StaleIds(old(repo.rows), |old(repo.rows)|, staleBefore)
      ensures repo.rows
              == R.CancelEach(RecoverStale(old(repo.rows), staleBefore, now), R.LastAttempts(old(repo.rows), recovered),
              now)
      ensures table.rows == ReapedTargets(old(table.rows), repo.rows, refs, recovered, message)
    {
      recovered := repo.RecoverStaleTasks(staleBefore, now);
      SettleGivenUp(refs, recovered, message);
    }

    method SettleGivenUp(refs: map<nat, nat>, recovered: seq<nat>, message: Option<string>)
      modifies table
      ensures table.rows == ReapedTargets(old(table.rows), repo.rows, refs, recovered, message)
    {
      ghost var before := table.rows;
      for i := 0 to |recovered|
        invariant table.rows == ReapedTargets(before, repo.rows, refs, recovered[..i], message)
      {
        assert recovered[..i + 1][..i] == recovered[..i];
        var id := recovered[i];
        if id < |repo.rows| && repo.rows[id].status.Unavailable? && id in refs {
          table.SyncAfterTask(refs[id], Unavailable, message, false);
        }
      }
      assert recovered[..|recovered|] == recovered;
    }
  }

  // ---- results ----

  /** What a result makes of the worker's own task; no other row changes. */
  lemma ResultExactly(
    rows: Rows, id: nat, worker: string, outcome: Outcome, attempts: nat, config: Config, fraction: real, now: real,
    delay: real)
    requires Owns(rows, id, worker)
    requires Backoff.RetryDelay(attempts + 1, config.retryBase, config.retryMax, fraction) == Ok(delay)
    ensures var written := Written(rows, id, worker, outcome, attempts, config, fraction, now);
            && |written| == |rows| && (forall x :: 0 <= x < |rows| && x != id ==> written[x] == rows[x])
            && var (was, got) := (rows[id], written[id]);
               && got.worker == None && got.heartbeatAt == None && !got.cancelRequested
               && (outcome.Failure? && !was.cancelRequested <==> got.attempts == was.attempts + 1)
               && (got.attempts == was.attempts || got.attempts == was.attempts + 1)
               && match outcome
                  case Success => got.status == Succeeded && got.finishedAt == Some(now)
                  case Hopeless => got.status == Unavailable && got.finishedAt == Some(now)
                  case Stopped => got.status == Cancelled && got.finishedAt == Some(now)
                  case Hindered(forbidden) =>
                    if was.cancelRequested then got.status == Cancelled && got.finishedAt == Some(now)
                    else
                      && got.status == Blocked && got.finishedAt == None
                      && got.blockedUntil
                         == Some(now + if forbidden then config.forbiddenRetry else config.blockedRetry)
                  case Failure =>
                    if was.cancelRequested then got.status == Cancelled && got.finishedAt == Some(now)
                    else if was.attempts + 1 < was.maxAttempts then
                      got.status == Pending && got.finishedAt == None && got.availableAt == Some(now + delay)
                    else got.status == Unavailable && got.finishedAt == Some(now)
  {
  }

  /** Behind a task that died nothing waits any more; behind any other nothing is touched. */
  lemma SweptExactly(rows: Rows, id: nat, now: real)
    requires EdgesBackward(rows) && id < |rows|
    ensures rows[id].status.Dead() ==> forall x :: 0 <= x < |rows| ==> !Under(Swept(rows, id, now), id, x)
    ensures |Swept(rows, id, now)| == |rows|
    ensures forall x :: 0 <= x < |rows| && Swept(rows, id, now)[x] != rows[x]
                        ==> rows[id].status.Dead() && Under(rows, id, x)
  {
    TaskSafety.DropAnswers(rows, id, now, {});
  }

  /** What a result makes of its target. */
  function TargetAfter(rows: Rows, id: nat, outcome: Outcome, message: Option<string>, t: TS.Target): TS.Target
    requires id < |rows|
  {
    if outcome.Success? then t else TS.Synced(t, TaskStatusOf(rows[id].status), message, outcome.Failure?)
  }

  /** Whether a charged attempt is counted on the target: it is active, and not blocked unless the task is given up. */
  predicate Counted(task: Task, t: TS.Target) {
    t.status in TS.ACTIVE && (t.status.Blocked? ==> task.status.Unavailable?)
  }

  /**
   Task and target after a result, whatever the result and whatever the target was, with or without a
   pending cancel request. The target's retries grow as the task's attempts do exactly when the task was not
   charged or the target is one whose attempts are counted. The target is unavailable exactly when it was or
   the task is given up and the target was active, or failed and this attempt failed too; blocked exactly when
   an active target's task is, or it was blocked and the task goes on; failed exactly when the task of an
   active target was cancelled, or went back to the queue with the target not blocked, or it was failed and
   stays so. A target that is downloaded, missing, ignored or unavailable keeps everything.
   */
  lemma TargetFollowsTask(
    rows: Rows, id: nat, worker: string, outcome: Outcome, attempts: nat, config: Config, fraction: real, now: real,
    message: Option<string>, t: TS.Target)
    requires Owns(rows, id, worker)
    ensures var written := Written(rows, id, worker, outcome, attempts, config, fraction, now);
            && |written| == |rows|
            && var (task, after) := (written[id], TargetAfter(written, id, outcome, message, t));
               var active := t.status in TS.ACTIVE;
               && rows[id].attempts <= task.attempts <= rows[id].attempts + 1
               && t.retries <= after.retries <= t.retries + 1
               && (after.retries - t.retries == task.attempts - rows[id].attempts
                   <==> task.attempts == rows[id].attempts || Counted(task, t))
               && (after.status.Unavailable?
                   <==> t.status.Unavailable?
                        || (task.status.Unavailable? && (active || (t.status.Failed? && outcome.Failure?))))
               && (after.status.Blocked?
                   <==> (active && task.status.Blocked?)
                        || (t.status.Blocked? && (task.status.Pending? || task.status.Succeeded?)))
               && (after.status.Failed?
                   <==> (active && (task.status.Cancelled? || (task.status.Pending? && !t.status.Blocked?)))
                        || (t.status.Failed? && !(task.status.Unavailable? && outcome.Failure?)))
               && (!active && !t.status.Failed? ==> after == t)
               && (task.status.Succeeded? ==> after == t)
  {
  }

  /** After the reaper no target is left waiting for a task it gave up; no retry is counted, and other targets stay. */
  lemma {:induction false} ReaperSettles(
    targets: Targets, rows: Rows, refs: map<nat, nat>, ids: seq<nat>, message: Option<string>, t: nat)
    requires t in targets
    ensures var after := ReapedTargets(targets, rows, refs, ids, message);
            && t in after && after[t].retries == targets[t].retries
            && ((exists id <- ids :: GivenUp(rows, refs, id) && refs[id] == t) ==> after[t].status !in TS.ACTIVE)
            && (!(exists id <- ids :: GivenUp(rows, refs, id) && refs[id] == t) ==> after[t] == targets[t])
  {
    if ids != [] {
      var init, last := ids[..|ids| - 1], ids[|ids| - 1];
      ReaperSettles(targets, rows, refs, init, message, t);
      forall id <- ids
        ensures id in init || id == last
      {
      }
    }
  }
}
