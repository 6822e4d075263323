/**
 Task rows and what each repository operation makes of them
 (src/sluicery/db/repositories/task.py). Task ids are positions; a task depends on an earlier one.
 */
module TaskQueue {
  import opened Common

  datatype Status = Pending | Queued | Running | Succeeded | Failed | Unavailable | Blocked | Cancelled
  {
    predicate Waiting() { Pending? || Queued? || Blocked? }
    predicate Terminal() { Succeeded? || Dead() }
    predicate Dead() { Failed? || Unavailable? || Cancelled? }
    predicate Live() { Waiting() || Running? }
  }

  datatype Kind = Discover | Download | Verify | Postprocess | Publish | Index | OtherTask

  datatype WorkerClass = Network | Compute

  datatype Task = Task(
    kind: Kind, workerClass: WorkerClass, priority: int, scheduledAt: Option<real>,
    dependsOn: Option<nat>, run: Option<nat>, status: Status, attempts: nat, maxAttempts: int,
    availableAt: Option<real>, blockedUntil: Option<real>,
    startedAt: Option<real>, heartbeatAt: Option<real>, finishedAt: Option<real>,
    worker: Option<string>, cancelRequested: bool)

  type Rows = seq<Task>

  /** A freshly inserted row. */
  function NewTask(
    kind: Kind, workerClass: WorkerClass, dependsOn: Option<nat>, run: Option<nat>, maxAttempts: int): Task
  {
    Task(kind, workerClass, 0, None, dependsOn, run, Queued, 0, maxAttempts, None, None, None, None, None, None, false)
  }

  /** The five steps of a target's pipeline. */
  const PIPELINE_STEPS: seq<(Kind, WorkerClass)> :=
    [(Download, Network), (Verify, Compute), (Postprocess, Compute), (Publish, Network), (Index, Network)]

  /** A chain of new tasks, each depending on the one before it. */
  function Chain(rows: Rows, kinds: seq<(Kind, WorkerClass)>, run: Option<nat>, maxAttempts: int): Rows {
    if kinds == [] then rows
    else
      var before := Chain(rows, kinds[..|kinds| - 1], run, maxAttempts);
      var (kind, workerClass) := kinds[|kinds| - 1];
      before + [NewTask(kind, workerClass, if |kinds| == 1 then None else Some(|before| - 1), run, maxAttempts)]
  }

  // ---- claiming ----

  predicate Due(t: Task, now: real) {
    && (t.availableAt == None || t.availableAt.value <= now)
    && ((!t.status.Blocked? && t.blockedUntil == None) || (t.blockedUntil.Some? && t.blockedUntil.value <= now))
  }

  predicate DependencySucceeded(rows: Rows, t: Task) {
    t.dependsOn == None || (t.dependsOn.value < |rows| && rows[t.dependsOn.value].status.Succeeded?)
  }

  function RunningDownloads(rows: Rows): nat {
    if rows == [] then 0
    else
      RunningDownloads(rows[..|rows| - 1])
      + if rows[|rows| - 1].kind.Download? && rows[|rows| - 1].status.Running? then 1 else 0
  }

  predicate Eligible(rows: Rows, id: nat, workerClass: WorkerClass, now: real, limit: Option<int>) {
    && id < |rows|
    && var t := rows[id];
       && t.status.Waiting() && t.workerClass == workerClass && !t.cancelRequested
       && Due(t, now) && DependencySucceeded(rows, t)
       && (workerClass.Network? && limit.Some? ==> !t.kind.Download? || RunningDownloads(rows) < limit.value)
  }

  /** Priority descending, then scheduled time ascending with nulls first, then id. */
  predicate Before(rows: Rows, a: nat, b: nat)
    requires a < |rows| && b < |rows|
  {
    var s, t := rows[a], rows[b];
    if s.priority != t.priority then s.priority > t.priority
    else if s.scheduledAt != t.scheduledAt then
      s.scheduledAt == None || (t.scheduledAt.Some? && s.scheduledAt.value < t.scheduledAt.value)
    else a < b
  }

  /** The first eligible id below n in claim order. */
  function BestBelow(rows: Rows, n: nat, workerClass: WorkerClass, now: real, limit: Option<int>): (r: Option<nat>)
    requires n <= |rows|
    ensures r.Some? ==> r.value < n && Eligible(rows, r.value, workerClass, now, limit)
  {
    if n == 0 then None
    else
      var best := BestBelow(rows, n - 1, workerClass, now, limit);
      if !Eligible(rows, n - 1, workerClass, now, limit) then best
      else if best.Some? && Before(rows, best.value, n - 1) then best
      else Some(n - 1)
  }

  function Claimed(t: Task, worker: string, now: real): Task {
    t.(status := Running, worker := Some(worker), startedAt := Some(now), heartbeatAt := Some(now), finishedAt := None,
       availableAt := None, blockedUntil := None)
  }

  function Claim(rows: Rows, workerClass: WorkerClass, worker: string, now: real, limit: Option<int>): Rows {
    match BestBelow(rows, |rows|, workerClass, now, limit)
    case None => rows
    case Some(id) => rows[id := Claimed(rows[id], worker, now)]
  }

  // ---- a worker's writes ----

  /** The worker the row names as its owner; the only guard of a worker's write. */
  predicate Owns(rows: Rows, id: nat, worker: string) {
    id < |rows| && rows[id].status.Running? && rows[id].worker == Some(worker)
  }

  function Beat(rows: Rows, id: nat, worker: string, now: real): Rows {
    if Owns(rows, id, worker) then rows[id := rows[id].(heartbeatAt := Some(now))] else rows
  }

  function Finished(t: Task, status: Status, now: real): Task {
    t.(status := status, finishedAt := Some(now), worker := None, heartbeatAt := None, cancelRequested := false)
  }

  function Finish(rows: Rows, id: nat, worker: string, status: Status, now: real): Rows {
    if Owns(rows, id, worker) then rows[id := Finished(rows[id], status, now)] else rows
  }

  function FailedOnce(t: Task, delay: real, now: real): Task {
    var exhausted := t.attempts + 1 >= t.maxAttempts;
    var settled := t.cancelRequested || exhausted;
    t.(status := if t.cancelRequested then Cancelled else if exhausted then Unavailable else Pending,
       attempts := if t.cancelRequested then t.attempts else t.attempts + 1,
       availableAt := if settled then None else Some(now + delay),
       finishedAt := if settled then Some(now) else None,
       worker := None, startedAt := None, heartbeatAt := None, cancelRequested := false)
  }

  function FailForRetry(rows: Rows, id: nat, worker: string, delay: real, now: real): Rows {
    if Owns(rows, id, worker) then rows[id := FailedOnce(rows[id], delay, now)] else rows
  }

  function Held(t: Task, delay: real, now: real): Task {
    t.(status := if t.cancelRequested then Cancelled else Blocked,
       blockedUntil := if t.cancelRequested then None else Some(now + delay),
       worker := None, startedAt := None, heartbeatAt := None,
       finishedAt := if t.cancelRequested then Some(now) else None,
       availableAt := None, cancelRequested := false)
  }

  function Block(rows: Rows, id: nat, worker: string, delay: real, now: real): Rows {
    if Owns(rows, id, worker) then rows[id := Held(rows[id], delay, now)] else rows
  }

  function Released(t: Task, now: real): Task {
    t.(status := Pending, availableAt := Some(now), worker := None, startedAt := None, heartbeatAt := None,
       finishedAt := None, cancelRequested := false)
  }

  function Release(rows: Rows, id: nat, worker: string, now: real): Rows {
    if Owns(rows, id, worker) then rows[id := Released(rows[id], now)] else rows
  }

  // ---- operators and the reaper ----

  function CancelAsked(t: Task, now: real): Task {
    if t.status.Running? then t.(cancelRequested := true)
    else
      t.(status := Cancelled, finishedAt := Some(now), cancelRequested := false, worker := None, startedAt := None,
         heartbeatAt := None, availableAt := None, blockedUntil := None)
  }

  function RequestCancel(rows: Rows, id: nat, now: real): Rows {
    if id < |rows| && rows[id].status.Live() then rows[id := CancelAsked(rows[id], now)] else rows
  }

  function CancelledWithRun(t: Task, now: real): Task {
    t.(status := Cancelled, finishedAt := Some(now), cancelRequested := false, worker := None, startedAt := None,
      heartbeatAt := None)
  }

  function RequestCancelRun(rows: Rows, run: nat, now: real): (r: Rows)
    ensures |r| == |rows|
  {
    seq(|rows|, id requires 0 <= id < |rows| =>
      if rows[id].run != Some(run) then rows[id]
      else if rows[id].status.Waiting() then CancelledWithRun(rows[id], now)
      else if rows[id].status.Running? then rows[id].(cancelRequested := true)
      else rows[id])
  }

  function Renewed(t: Task, now: real): Task {
    t.(status := Pending, attempts := 0, availableAt := Some(now), blockedUntil := None, cancelRequested := false,
       finishedAt := None, worker := None, startedAt := None, heartbeatAt := None)
  }

  function Retry(rows: Rows, id: nat, now: real): Rows {
    if id < |rows| && !rows[id].status.Running? then rows[id := Renewed(rows[id], now)] else rows
  }

  predicate Stale(t: Task, staleBefore: real) {
    t.status.Running?
    && ((t.heartbeatAt.Some? && t.heartbeatAt.value < staleBefore)
        || (t.heartbeatAt == None && t.startedAt.Some? && t.startedAt.value < staleBefore))
  }

  function Reaped(t: Task, now: real): Task {
    var terminal := t.attempts + 1 >= t.maxAttempts;
    t.(status := if terminal then Unavailable else Pending, attempts := t.attempts + 1,
       availableAt := if terminal then None else Some(now), finishedAt := if terminal then Some(now) else None,
       worker := None, startedAt := None, heartbeatAt := None)
  }

  function RecoverStale(rows: Rows, staleBefore: real, now: real): (r: Rows)
    ensures |r| == |rows|
  {
    seq(|rows|, id requires 0 <= id < |rows| => if Stale(rows[id], staleBefore) then Reaped(rows[id], now)
      else rows[id])
  }

  // ---- cancelling what can no longer run ----

  ghost predicate EdgesBackward(rows: Rows) {
    forall x :: 0 <= x < |rows| && rows[x].dependsOn.Some? ==> rows[x].dependsOn.value < x
  }

  /** Task x waits behind t through tasks that all wait. */
  predicate Under(rows: Rows, t: nat, x: nat)
    decreases x
  {
    && x < |rows| && rows[x].status.Waiting() && rows[x].dependsOn.Some?
    && var p := rows[x].dependsOn.value;
       p == t || (p < x && Under(rows, t, p))
  }

  function Dropped(t: Task, now: real): Task {
    t.(status := Cancelled, finishedAt := Some(now), cancelRequested := false)
  }

  function CancelDescendants(rows: Rows, t: nat, now: real): (r: Rows)
    ensures |r| == |rows|
  {
    seq(|rows|, x requires 0 <= x < |rows| => if Under(rows, t, x) then Dropped(rows[x], now) else rows[x])
  }

  // ---- results about claiming ----

  lemma BeforeTotal(rows: Rows, a: nat, b: nat, c: nat)
    requires a < |rows| && b < |rows| && c < |rows|
    ensures a != b ==> Before(rows, a, b) || Before(rows, b, a)
    ensures !(Before(rows, a, b) && Before(rows, b, a))
    ensures Before(rows, a, b) && Before(rows, b, c) ==> Before(rows, a, c)
  {
  }

  lemma {:induction false} BestIsFirst(rows: Rows, n: nat, workerClass: WorkerClass, now: real, limit: Option<int>)
    requires n <= |rows|
    ensures BestBelow(rows, n, workerClass, now, limit) == None
            <==> forall id: nat :: id < n ==> !Eligible(rows, id, workerClass, now, limit)
    ensures forall best :: BestBelow(rows, n, workerClass, now, limit) == Some(best) ==>
              forall id: nat :: id < n && Eligible(rows, id, workerClass, now, limit) && id != best
                ==> Before(rows, best, id)
  {
    if n > 0 {
      BestIsFirst(rows, n - 1, workerClass, now, limit);
      var before := BestBelow(rows, n - 1, workerClass, now, limit);
      if before.Some? {
        forall id: nat | id < n
          ensures Before(rows, n - 1, before.value) && Before(rows, before.value, id) ==> Before(rows, n - 1, id)
        {
          BeforeTotal(rows, n - 1, before.value, id);
        }
        BeforeTotal(rows, n - 1, before.value, n - 1);
      }
    }
  }

  /**
   Claiming is work-conserving and ordered: nothing is claimed iff nothing is eligible, and
   otherwise exactly one row changes, the first eligible one.
   */
  lemma ClaimTakesFirst(rows: Rows, workerClass: WorkerClass, worker: string, now: real, limit: Option<int>)
    ensures (forall id: nat :: !Eligible(rows, id, workerClass, now, limit))
            ==> Claim(rows, workerClass, worker, now, limit) == rows
    ensures (exists id: nat :: Eligible(rows, id, workerClass, now, limit)) ==>
              exists best: nat ::
                && Eligible(rows, best, workerClass, now, limit)
                && (forall id: nat :: Eligible(rows, id, workerClass, now, limit) && id != best
                      ==> Before(rows, best, id))
                && Claim(rows, workerClass, worker, now, limit) == rows[best := Claimed(rows[best], worker, now)]
  {
    BestIsFirst(rows, |rows|, workerClass, now, limit);
    var best := BestBelow(rows, |rows|, workerClass, now, limit);
    if best.Some? {
      assert Eligible(rows, best.value, workerClass, now, limit);
    }
  }
}
