/**
 Workers, operators and the reaper racing on the task table: one step per repository commit, in
 any order. A dead task owes a cancel_descendants call, which is a later step of its own.
 */
module TaskSafety {
  import opened Common
  import opened TaskQueue

  /** The table, and the tasks whose cancel_descendants call has been issued but not finished. */
  datatype Queue = Queue(rows: Rows, owed: set<nat>)

  datatype Step =
    | EnqueueChain(kinds: seq<(Kind, WorkerClass)>, run: Option<nat>, maxAttempts: int)
    | ClaimNext(workerClass: WorkerClass, worker: string, now: real, limit: Option<int>)
    | Heartbeat(id: nat, worker: string, now: real)
    | Mark(id: nat, worker: string, status: Status, now: real)
    | MarkFailed(id: nat, worker: string, delay: real, now: real)
    | MarkBlocked(id: nat, worker: string, delay: real, now: real)
    | ReleaseTask(id: nat, worker: string, now: real)
    | AskCancel(id: nat, now: real)
    | AskCancelRun(runId: nat, now: real)
    | RetryTask(id: nat, now: real)
    | Reap(staleBefore: real, now: real)
    | DropDescendants(t: nat, now: real)

  /** The table after one step. */
  function Changed(rows: Rows, step: Step): Rows {
    match step
    case EnqueueChain(kinds, run, maxAttempts) => Chain(rows, kinds, run, maxAttempts)
    case ClaimNext(workerClass, worker, now, limit) => Claim(rows, workerClass, worker, now, limit)
    case Heartbeat(id, worker, now) => Beat(rows, id, worker, now)
    case Mark(id, worker, status, now) => if status.Terminal() then Finish(rows, id, worker, status, now) else rows
    case MarkFailed(id, worker, delay, now) => FailForRetry(rows, id, worker, delay, now)
    case MarkBlocked(id, worker, delay, now) => Block(rows, id, worker, delay, now)
    case ReleaseTask(id, worker, now) => Release(rows, id, worker, now)
    case AskCancel(id, now) => RequestCancel(rows, id, now)
    case AskCancelRun(run, now) => RequestCancelRun(rows, run, now)
    case RetryTask(id, now) => Retry(rows, id, now)
    case Reap(staleBefore, now) => RecoverStale(rows, staleBefore, now)
    case DropDescendants(t, now) => CancelDescendants(rows, t, now)
  }

  function NewlyDead(before: Rows, after: Rows): set<nat> {
    set x: nat | x < |after| && after[x].status.Dead() && !(x < |before| && before[x].status.Dead())
  }

  function Apply(q: Queue, step: Step): Queue {
    var rows := Changed(q.rows, step);
    Queue(rows,
          if step.AskCancelRun? then q.owed
          else if step.DropDescendants? then q.owed - {step.t}
          else q.owed + NewlyDead(q.rows, rows))
  }

  function Execute(q: Queue, steps: seq<Step>): Queue {
    if steps == [] then q else Apply(Execute(q, steps[..|steps| - 1]), steps[|steps| - 1])
  }

  // ---- what the rows keep under every step ----

  ghost predicate RowKept(t: Task) {
    && (t.status.Running? <==> t.worker.Some?) && (t.status.Running? <==> t.heartbeatAt.Some?)
    && (t.status.Running? ==> t.startedAt.Some?)
    && (t.status.Terminal() <==> t.finishedAt.Some?)
    && (t.status.Blocked? ==> t.blockedUntil.Some?)
    && (t.status.Pending? || t.status.Queued? || t.status.Running? ==> t.blockedUntil == None)
    && (t.cancelRequested ==> t.status.Running? || t.status.Pending? || t.status.Unavailable?)
    && t.maxAttempts >= 1 && t.attempts <= t.maxAttempts && (t.status.Live() ==> t.attempts < t.maxAttempts)
    && (t.kind.Download? ==> t.workerClass.Network?)
  }

  ghost predicate RowsKept(rows: Rows) { forall x :: 0 <= x < |rows| ==> RowKept(rows[x]) }

  /** Edges lead backwards and stay inside one run. */
  ghost predicate Edges(rows: Rows) {
    && EdgesBackward(rows)
    && forall x :: 0 <= x < |rows| && rows[x].dependsOn.Some? ==> rows[rows[x].dependsOn.value].run == rows[x].run
  }

  /** What callers of enqueue guarantee: an attempt at least, and downloads on the network class. */
  ghost predicate Enqueueable(step: Step) {
    step.EnqueueChain? ==>
      step.maxAttempts >= 1 && forall k :: 0 <= k < |step.kinds|
                                 ==> (step.kinds[k].0.Download? ==> step.kinds[k].1.Network?)
  }

  lemma {:induction false} ChainShape(rows: Rows, kinds: seq<(Kind, WorkerClass)>, run: Option<nat>, maxAttempts: int)
    ensures var after := Chain(rows, kinds, run, maxAttempts);
            && |after| == |rows| + |kinds|
            && (forall x :: 0 <= x < |rows| ==> after[x] == rows[x])
            && forall x :: |rows| <= x < |after| ==>
                 var (kind, workerClass) := kinds[x - |rows|];
                 after[x] == NewTask(kind, workerClass, if x == |rows| then None else Some(x - 1), run, maxAttempts)
  {
    if kinds != [] {
      ChainShape(rows, kinds[..|kinds| - 1], run, maxAttempts);
    }
  }

  /** The lifecycle of every row: ownership, times, attempts and classes, whatever step is taken. */
  lemma StepKeepsRows(rows: Rows, step: Step)
    requires RowsKept(rows) && Enqueueable(step)
    ensures RowsKept(Changed(rows, step))
  {
    var after := Changed(rows, step);
    if step.EnqueueChain? {
      ChainShape(rows, step.kinds, step.run, step.maxAttempts);
    }
    forall x | 0 <= x < |after|
      ensures RowKept(after[x])
    {
      if x < |rows| {
        assert RowKept(rows[x]);
      }
    }
  }

  lemma StepKeepsEdges(rows: Rows, step: Step)
    requires Edges(rows)
    ensures Edges(Changed(rows, step)) && |Changed(rows, step)| >= |rows|
  {
    if step.EnqueueChain? {
      ChainShape(rows, step.kinds, step.run, step.maxAttempts);
    } else {
      SameEdges(rows, step);
    }
  }

  lemma SameEdges(rows: Rows, step: Step)
    requires !step.EnqueueChain?
    ensures var after := Changed(rows, step);
            |after| == |rows|
            && forall x :: 0 <= x < |rows| ==> after[x].dependsOn == rows[x].dependsOn && after[x].run == rows[x].run
  {
  }

  // ---- how statuses move ----

  /** One row under a step other than a retry. */
  ghost predicate StatusMoves(rows: Rows, before: Task, after: Task) {
    && after.dependsOn == before.dependsOn && after.run == before.run
    && (|| after.status == before.status
        || (before.status.Waiting() && after.status.Running? && DependencySucceeded(rows, before))
        || (before.status.Running? && (after.status.Waiting() || after.status.Terminal()))
        || (before.status.Waiting() && after.status.Cancelled?))
  }

  ghost predicate Moves(rows: Rows, after: Rows) {
    |after| == |rows| && forall x :: 0 <= x < |rows| ==> StatusMoves(rows, rows[x], after[x])
  }

  lemma StepMoves(rows: Rows, step: Step)
    requires !step.RetryTask? && !step.EnqueueChain?
    ensures Moves(rows, Changed(rows, step))
  {
  }

  // ---- dependency safety ----

  /** A task that runs or has succeeded depends on one that has succeeded. */
  ghost predicate DependenciesSucceeded(rows: Rows) {
    forall x :: 0 <= x < |rows| && (rows[x].status.Running? || rows[x].status.Succeeded?)
      ==> DependencySucceeded(rows, rows[x])
  }

  /** Retrying this task takes away the success another task was started on. */
  ghost predicate RetryUndercuts(rows: Rows, id: nat) {
    && id < |rows| && rows[id].status.Succeeded?
    && exists x :: 0 <= x < |rows| && rows[x].dependsOn == Some(id)
         && (rows[x].status.Running? || rows[x].status.Succeeded?)
  }

  /** Retry keeps dependency safety exactly when it does not undercut a started task. */
  lemma RetryExact(rows: Rows, id: nat, now: real)
    requires EdgesBackward(rows) && DependenciesSucceeded(rows)
    ensures DependenciesSucceeded(Retry(rows, id, now)) <==> !RetryUndercuts(rows, id)
  {
    var after := Retry(rows, id, now);
    if RetryUndercuts(rows, id) {
      var x :| 0 <= x < |rows| && rows[x].dependsOn == Some(id)
        && (rows[x].status.Running? || rows[x].status.Succeeded?);
      assert after[x] == rows[x] && !DependencySucceeded(after, after[x]);
    }
  }

  lemma StepKeepsDependencies(rows: Rows, step: Step)
    requires Edges(rows) && DependenciesSucceeded(rows)
    requires step.RetryTask? ==> !RetryUndercuts(rows, step.id)
    ensures DependenciesSucceeded(Changed(rows, step))
  {
    match step {
      case RetryTask(id, now) => RetryExact(rows, id, now);
      case EnqueueChain(kinds, run, maxAttempts) =>
        ChainShape(rows, kinds, run, maxAttempts);
        var after := Changed(rows, step);
        forall x | 0 <= x < |after| && (after[x].status.Running? || after[x].status.Succeeded?)
          ensures DependencySucceeded(after, after[x])
        {
          assert DependencySucceeded(rows, rows[x]);
        }
      case _ =>
        StepMoves(rows, step);
        MovesKeepDependencies(rows, Changed(rows, step));
    }
  }

  lemma MovesKeepDependencies(rows: Rows, after: Rows)
    requires Moves(rows, after) && DependenciesSucceeded(rows)
    ensures DependenciesSucceeded(after)
  {
    forall x | 0 <= x < |after| && (after[x].status.Running? || after[x].status.Succeeded?)
      ensures DependencySucceeded(after, after[x])
    {
      assert StatusMoves(rows, rows[x], after[x]);
      if rows[x].dependsOn.Some? {
        assert DependencySucceeded(rows, rows[x]);
        assert StatusMoves(rows, rows[rows[x].dependsOn.value], after[rows[x].dependsOn.value]);
      }
    }
  }

  /** Task a is reached from x by following dependencies. */
  predicate Ancestor(rows: Rows, a: nat, x: nat)
    decreases x
  {
    x < |rows| && rows[x].dependsOn.Some? && var p := rows[x].dependsOn.value; p < x && (p == a || Ancestor(rows, a, p))
  }

  lemma {:induction false} AncestorsSucceeded(rows: Rows, a: nat, x: nat)
    requires DependenciesSucceeded(rows) && Ancestor(rows, a, x)
    requires rows[x].status.Running? || rows[x].status.Succeeded?
    ensures a < x && rows[a].status.Succeeded?
    decreases x
  {
    assert DependencySucceeded(rows, rows[x]);
    var p := rows[x].dependsOn.value;
    if p != a {
      AncestorsSucceeded(rows, a, p);
    }
  }

  // ---- dead subtrees ----

  /** Every waiting task behind a dead one is covered by a call that is still owed. */
  ghost predicate Covered(rows: Rows, owed: set<nat>) {
    forall x :: 0 <= x < |rows| && rows[x].status.Waiting() && BehindDead(rows, x)
      ==> exists t :: t in owed && Under(rows, t, x)
  }

  predicate BehindDead(rows: Rows, x: nat)
    requires x < |rows|
  {
    rows[x].dependsOn.Some? && rows[x].dependsOn.value < |rows| && rows[rows[x].dependsOn.value].status.Dead()
  }

  ghost predicate OwedDead(rows: Rows, owed: set<nat>) { forall t :: t in owed ==> t < |rows| && rows[t].status.Dead() }

  /** A newly dead task is owed its call, or nothing waits on it. */
  ghost predicate Answered(rows: Rows, after: Rows, owed: set<nat>) {
    forall z :: 0 <= z < |after| && after[z].status.Dead() && !(z < |rows| && rows[z].status.Dead()) ==>
      z in owed || forall y :: 0 <= y < |after| && after[y].dependsOn == Some(z) ==> !after[y].status.Waiting()
  }

  /** Something that waits under t starts with a waiting child of t. */
  lemma {:induction false} UnderHasChild(rows: Rows, t: nat, x: nat) returns (y: nat)
    requires Under(rows, t, x)
    ensures y < |rows| && rows[y].dependsOn == Some(t) && rows[y].status.Waiting() && (y == x || Under(rows, y, x))
    decreases x
  {
    var p := rows[x].dependsOn.value;
    if p == t {
      y := x;
    } else {
      y := UnderHasChild(rows, t, p);
    }
  }

  /** A waiting chain under a dead task survives a step, or restarts at a task that just died. */
  lemma {:induction false} ChainMoves(rows: Rows, after: Rows, t: nat, x: nat) returns (z: nat)
    requires EdgesBackward(rows) && Moves(rows, after) && t < |rows| && rows[t].status.Dead()
    requires Under(rows, t, x) && after[x].status.Waiting()
    ensures Under(after, z, x) && (z == t || (z < |rows| && rows[z].status.Waiting() && after[z].status.Dead()))
    decreases x
  {
    var p := rows[x].dependsOn.value;
    assert StatusMoves(rows, rows[x], after[x]);
    if p == t {
      z := t;
    } else {
      assert StatusMoves(rows, rows[p], after[p]);
      var above := rows[p].dependsOn.value;
      assert above == t || Under(rows, t, above);
      if after[p].status.Waiting() {
        z := ChainMoves(rows, after, t, p);
      } else {
        z := p;
      }
    }
  }

  lemma MovesKeepCover(rows: Rows, after: Rows, owed: set<nat>, owed2: set<nat>)
    requires EdgesBackward(rows) && Moves(rows, after) && DependenciesSucceeded(rows)
    requires Covered(rows, owed) && OwedDead(rows, owed) && Answered(rows, after, owed2)
    requires forall t :: t in owed && t !in owed2 ==> forall x :: 0 <= x < |after| ==> !Under(after, t, x)
    ensures Covered(after, owed2)
  {
    forall x | 0 <= x < |after| && after[x].status.Waiting() && BehindDead(after, x)
      ensures exists t :: t in owed2 && Under(after, t, x)
    {
      var p := rows[x].dependsOn.value;
      assert StatusMoves(rows, rows[x], after[x]) && StatusMoves(rows, rows[p], after[p]);
      assert !DependencySucceeded(rows, rows[x]) ==> !rows[x].status.Running?;
      if rows[p].status.Dead() {
        var t :| t in owed && Under(rows, t, x);
        var z := ChainMoves(rows, after, t, x);
        var y := UnderHasChild(after, z, x);
        assert z in owed2 && Under(after, z, x);
      } else {
        assert p in owed2 && Under(after, p, x);
      }
    }
  }

  lemma {:induction false} UnderBackwards(rows: Rows, after: Rows, t: nat, x: nat)
    requires |after| == |rows| && Under(after, t, x)
    requires forall y :: 0 <= y < |rows|
               ==> after[y].dependsOn == rows[y].dependsOn && (after[y].status.Waiting() ==> rows[y].status.Waiting())
    ensures Under(rows, t, x)
    decreases x
  {
    var p := after[x].dependsOn.value;
    if p != t {
      UnderBackwards(rows, after, t, p);
    }
  }

  /** Dropping answers every task it kills and leaves nothing under t. */
  lemma DropAnswers(rows: Rows, t: nat, now: real, owed: set<nat>)
    requires EdgesBackward(rows)
    ensures Answered(rows, CancelDescendants(rows, t, now), owed)
    ensures forall x :: 0 <= x < |rows| ==> !Under(CancelDescendants(rows, t, now), t, x)
  {
    var after := CancelDescendants(rows, t, now);
    forall z, y | 0 <= z < |after| && after[z].status.Dead() && !rows[z].status.Dead() && 0 <= y < |after|
      && after[y].dependsOn == Some(z)
      ensures !after[y].status.Waiting()
    {
      assert Under(rows, t, z);
      assert rows[y].status.Waiting() ==> Under(rows, t, y);
    }
    forall x | 0 <= x < |rows|
      ensures !Under(after, t, x)
    {
      if Under(after, t, x) {
        UnderBackwards(rows, after, t, x);
      }
    }
  }

  lemma CancelRunAnswers(rows: Rows, run: nat, now: real, owed: set<nat>)
    requires Edges(rows)
    ensures Answered(rows, RequestCancelRun(rows, run, now), owed)
  {
  }

  lemma {:induction false} UnderExtended(rows: Rows, after: Rows, t: nat, x: nat)
    requires |rows| <= |after| && (forall y :: 0 <= y < |rows| ==> after[y] == rows[y]) && Under(rows, t, x)
    ensures Under(after, t, x)
    decreases x
  {
    var p := rows[x].dependsOn.value;
    if p != t {
      UnderExtended(rows, after, t, p);
    }
  }

  lemma EnqueueKeepsCover(
    rows: Rows, owed: set<nat>, kinds: seq<(Kind, WorkerClass)>, run: Option<nat>, maxAttempts: int)
    requires Edges(rows) && Covered(rows, owed)
    ensures Covered(Chain(rows, kinds, run, maxAttempts), owed)
    ensures NewlyDead(rows, Chain(rows, kinds, run, maxAttempts)) == {}
  {
    var after := Chain(rows, kinds, run, maxAttempts);
    ChainShape(rows, kinds, run, maxAttempts);
    forall x | 0 <= x < |after| && after[x].status.Waiting() && BehindDead(after, x)
      ensures exists t :: t in owed && Under(after, t, x)
    {
      assert after[x].dependsOn.value < |rows|;
      assert x < |rows| && BehindDead(rows, x);
      var t :| t in owed && Under(rows, t, x);
      UnderExtended(rows, after, t, x);
    }
  }

  /** The invariant of a run without manual retries. */
  ghost predicate Kept(q: Queue) {
    Edges(q.rows) && DependenciesSucceeded(q.rows) && Covered(q.rows, q.owed) && OwedDead(q.rows, q.owed)
  }

  lemma StepKeeps(q: Queue, step: Step)
    requires Kept(q) && !step.RetryTask?
    ensures Kept(Apply(q, step))
  {
    StepKeepsEdges(q.rows, step);
    StepKeepsDependencies(q.rows, step);
    StepKeepsCover(q, step);
  }

  lemma StepKeepsCover(q: Queue, step: Step)
    requires Kept(q) && !step.RetryTask?
    ensures var q2 := Apply(q, step);
            q2.rows == Changed(q.rows, step) && Covered(q2.rows, q2.owed) && OwedDead(q2.rows, q2.owed)
  {
    if step.EnqueueChain? {
      EnqueueKeepsCover(q.rows, q.owed, step.kinds, step.run, step.maxAttempts);
      ChainShape(q.rows, step.kinds, step.run, step.maxAttempts);
    } else {
      var q2 := Apply(q, step);
      StepMoves(q.rows, step);
      StepAnswers(q, step);
      MovesKeepCover(q.rows, q2.rows, q.owed, q2.owed);
      OwedStayDead(q, step);
    }
  }

  /** A cancellation no longer owed has left nothing under its task. */
  ghost predicate Discharged(q: Queue, q2: Queue) {
    forall t :: t in q.owed && t !in q2.owed ==> forall x :: 0 <= x < |q2.rows| ==> !Under(q2.rows, t, x)
  }

  /** Every task that has died is owed a cancellation, or the step has made it. */
  lemma StepAnswers(q: Queue, step: Step)
    requires Kept(q) && !step.RetryTask? && !step.EnqueueChain?
    ensures Answered(q.rows, Apply(q, step).rows, Apply(q, step).owed)
    ensures Discharged(q, Apply(q, step))
  {
    var q2 := Apply(q, step);
    match step {
      case DropDescendants(t, now) => DropAnswers(q.rows, t, now, q2.owed);
      case AskCancelRun(run, now) => CancelRunAnswers(q.rows, run, now, q2.owed);
      case _ =>
    }
  }

  lemma OwedStayDead(q: Queue, step: Step)
    requires Kept(q) && !step.RetryTask? && !step.EnqueueChain?
    ensures var q2 := Apply(q, step); forall t <- q2.owed :: t < |q2.rows| && q2.rows[t].status.Dead()
  {
    var q2 := Apply(q, step);
    StepMoves(q.rows, step);
    forall t | t in q2.owed
      ensures t < |q2.rows| && q2.rows[t].status.Dead()
    {
      if t in q.owed {
        assert StatusMoves(q.rows, q.rows[t], q2.rows[t]);
      }
    }
  }

  ghost predicate NoRetry(steps: seq<Step>) { forall step <- steps :: !step.RetryTask? }

  lemma {:induction false} RunKeeps(q: Queue, steps: seq<Step>)
    requires Kept(q) && NoRetry(steps)
    ensures Kept(Execute(q, steps))
  {
    if steps != [] {
      RunKeeps(q, steps[..|steps| - 1]);
      StepKeeps(Execute(q, steps[..|steps| - 1]), steps[|steps| - 1]);
    }
  }

  /** With every call finished, a waiting task has no dead ancestor. */
  lemma {:induction false} NoDeadAncestor(rows: Rows, a: nat, x: nat)
    requires Edges(rows) && DependenciesSucceeded(rows) && Covered(rows, {})
    requires Ancestor(rows, a, x) && rows[x].status.Waiting()
    ensures a < |rows| && !rows[a].status.Dead()
    decreases x
  {
    var p := rows[x].dependsOn.value;
    assert !BehindDead(rows, x);
    if p != a {
      if rows[p].status.Waiting() {
        NoDeadAncestor(rows, a, p);
      } else {
        AncestorsSucceeded(rows, a, p);
      }
    }
  }

  /** Over every interleaving without manual retry: once no call is owed, dead subtrees are gone. */
  lemma DeadSubtreesCancelled(steps: seq<Step>, a: nat, x: nat)
    requires NoRetry(steps)
    requires var q := Execute(Queue([], {}), steps);
             q.owed == {} && Ancestor(q.rows, a, x) && q.rows[x].status.Waiting()
    ensures var rows := Execute(Queue([], {}), steps).rows; a < |rows| && !rows[a].status.Dead()
  {
    var q := Execute(Queue([], {}), steps);
    RunKeeps(Queue([], {}), steps);
    NoDeadAncestor(q.rows, a, x);
  }

  // ---- dependency safety over whole runs ----

  /** Every retry in this run leaves alone the successes other tasks were started on. */
  ghost predicate CarefulRetries(q: Queue, steps: seq<Step>) {
    steps == []
    || (CarefulRetries(q, steps[..|steps| - 1])
        && (steps[|steps| - 1].RetryTask?
           ==> !RetryUndercuts(Execute(q, steps[..|steps| - 1]).rows, steps[|steps| - 1].id)))
  }

  lemma {:induction false} RunKeepsDependencies(q: Queue, steps: seq<Step>)
    requires Edges(q.rows) && DependenciesSucceeded(q.rows) && CarefulRetries(q, steps)
    ensures Edges(Execute(q, steps).rows) && DependenciesSucceeded(Execute(q, steps).rows)
  {
    if steps != [] {
      RunKeepsDependencies(q, steps[..|steps| - 1]);
      var rows := Execute(q, steps[..|steps| - 1]).rows;
      StepKeepsEdges(rows, steps[|steps| - 1]);
      StepKeepsDependencies(rows, steps[|steps| - 1]);
    }
  }

  /** Whatever runs or has succeeded has only succeeded ancestors, over every interleaving. */
  lemma OnlySucceededAncestors(steps: seq<Step>, a: nat, x: nat)
    requires CarefulRetries(Queue([], {}), steps)
    requires var rows := Execute(Queue([], {}), steps).rows;
             Ancestor(rows, a, x) && (rows[x].status.Running? || rows[x].status.Succeeded?)
    ensures var rows := Execute(Queue([], {}), steps).rows; a < x && rows[a].status.Succeeded?
  {
    RunKeepsDependencies(Queue([], {}), steps);
    AncestorsSucceeded(Execute(Queue([], {}), steps).rows, a, x);
  }

  /** The rows of one chain, in order. */
  ghost predicate IsChain(rows: Rows, first: nat, length: nat) {
    first + length <= |rows| && forall k :: first < k < first + length ==> rows[k].dependsOn == Some(k - 1)
  }

  lemma {:induction false} ChainAncestors(rows: Rows, first: nat, length: nat, i: nat, j: nat)
    requires IsChain(rows, first, length) && first <= i < j < first + length
    ensures Ancestor(rows, i, j)
    decreases j
  {
    if i < j - 1 {
      ChainAncestors(rows, first, length, i, j - 1);
    }
  }

  /** A new pipeline is such a chain, and its rows keep their edges ever after. */
  lemma PipelineIsChain(
    rows: Rows, kinds: seq<(Kind, WorkerClass)>, run: Option<nat>, maxAttempts: int, q: Queue, steps: seq<Step>)
    requires q.rows == Chain(rows, kinds, run, maxAttempts)
    ensures IsChain(Execute(q, steps).rows, |rows|, |kinds|)
  {
    ChainShape(rows, kinds, run, maxAttempts);
    EdgesStay(q, steps);
  }

  lemma {:induction false} EdgesStay(q: Queue, steps: seq<Step>)
    ensures var after := Execute(q, steps).rows;
            |q.rows| <= |after| && forall x :: 0 <= x < |q.rows| ==> after[x].dependsOn == q.rows[x].dependsOn
  {
    if steps != [] {
      EdgesStay(q, steps[..|steps| - 1]);
      var rows, step := Execute(q, steps[..|steps| - 1]).rows, steps[|steps| - 1];
      if step.EnqueueChain? {
        ChainShape(rows, step.kinds, step.run, step.maxAttempts);
      } else {
        SameEdges(rows, step);
      }
    }
  }

  /**
   A pipeline enqueued at any moment: at most one of its tasks runs at a time, and they succeed in
   order, so the succeeded ones are a prefix and the running one comes right after it.
   */
  lemma PipelineInOrder(
    rows: Rows, kinds: seq<(Kind, WorkerClass)>, run: Option<nat>, maxAttempts: int, q: Queue, steps: seq<Step>, i: nat,
    j: nat)
    requires q.rows == Chain(rows, kinds, run, maxAttempts) && Edges(q.rows) && DependenciesSucceeded(q.rows)
    requires CarefulRetries(q, steps) && i < j < |kinds|
    ensures var after := Execute(q, steps).rows;
            && |rows| + j < |after|
            && (after[|rows| + j].status.Running? || after[|rows| + j].status.Succeeded?
               ==> after[|rows| + i].status.Succeeded?)
            && !(after[|rows| + i].status.Running? && after[|rows| + j].status.Running?)
  {
    PipelineIsChain(rows, kinds, run, maxAttempts, q, steps);
    RunKeepsDependencies(q, steps);
    ChainInOrder(Execute(q, steps).rows, |rows|, |kinds|, |rows| + i, |rows| + j);
  }

  lemma ChainInOrder(rows: Rows, first: nat, length: nat, i: nat, j: nat)
    requires DependenciesSucceeded(rows) && IsChain(rows, first, length) && first <= i < j < first + length
    ensures rows[j].status.Running? || rows[j].status.Succeeded? ==> rows[i].status.Succeeded?
  {
    ChainAncestors(rows, first, length, i, j);
    if rows[j].status.Running? || rows[j].status.Succeeded? {
      AncestorsSucceeded(rows, i, j);
    }
  }

  datatype PayloadError = TaskMissing | DependencyMissing | DependencyNotSucceeded

  /** What a handler reads first: the id of the succeeded dependency, if there is one. */
  function DependencyPayload(rows: Rows, id: nat): Result<Option<nat>, PayloadError> {
    if id >= |rows| then Err(TaskMissing)
    else if rows[id].dependsOn == None then Ok(None)
    else
      var p := rows[id].dependsOn.value;
      if p >= |rows| then Err(DependencyMissing)
      else if !rows[p].status.Succeeded? then Err(DependencyNotSucceeded)
      else Ok(Some(p))
  }

  /** For a running task it never fails. */
  lemma PayloadReadable(steps: seq<Step>, id: nat)
    requires CarefulRetries(Queue([], {}), steps)
    requires var rows := Execute(Queue([], {}), steps).rows; id < |rows| && rows[id].status.Running?
    ensures DependencyPayload(Execute(Queue([], {}), steps).rows, id).Ok?
  {
    var rows := Execute(Queue([], {}), steps).rows;
    RunKeepsDependencies(Queue([], {}), steps);
    assert DependencySucceeded(rows, rows[id]);
  }

  // ---- attempts ----

  ghost predicate AllEnqueueable(steps: seq<Step>) { forall step <- steps :: Enqueueable(step) }

  /** The lifecycle holds of every row of every reachable table, retries included. */
  lemma {:induction false} RunKeepsRows(q: Queue, steps: seq<Step>)
    requires RowsKept(q.rows) && AllEnqueueable(steps)
    ensures RowsKept(Execute(q, steps).rows)
  {
    if steps != [] {
      RunKeepsRows(q, steps[..|steps| - 1]);
      StepKeepsRows(Execute(q, steps[..|steps| - 1]).rows, steps[|steps| - 1]);
    }
  }

  /** This step charges task id an attempt: a failure that counts, or a stale recovery. */
  predicate Charges(rows: Rows, step: Step, id: nat) {
    id < |rows|
    && ((step.MarkFailed? && step.id == id && Owns(rows, id, step.worker) && !rows[id].cancelRequested)
        || (step.Reap? && Stale(rows[id], step.staleBefore)))
  }

  function ChargeCount(q: Queue, steps: seq<Step>, id: nat): nat {
    if steps == [] then 0
    else
      ChargeCount(q, steps[..|steps| - 1], id)
      + if Charges(Execute(q, steps[..|steps| - 1]).rows, steps[|steps| - 1], id) then 1 else 0
  }

  lemma StepCharges(rows: Rows, step: Step, id: nat)
    requires id < |Changed(rows, step)|
    requires !(step.RetryTask? && step.id == id)
    ensures Changed(rows, step)[id].attempts
         == (if id < |rows| then rows[id].attempts else 0) + if Charges(rows, step, id) then 1 else 0
    ensures id < |rows| ==> Changed(rows, step)[id].maxAttempts == rows[id].maxAttempts
  {
    if step.EnqueueChain? {
      ChainShape(rows, step.kinds, step.run, step.maxAttempts);
    }
  }

  lemma {:induction false} RunCharges(steps: seq<Step>, id: nat)
    requires id < |Execute(Queue([], {}), steps).rows|
    requires forall step <- steps :: !(step.RetryTask? && step.id == id)
    ensures Execute(Queue([], {}), steps).rows[id].attempts == ChargeCount(Queue([], {}), steps, id)
  {
    if steps != [] {
      var rows, step := Execute(Queue([], {}), steps[..|steps| - 1]).rows, steps[|steps| - 1];
      if id < |rows| {
        RunCharges(steps[..|steps| - 1], id);
      } else {
        NotYetCharged(steps[..|steps| - 1], id);
      }
      StepCharges(rows, step, id);
    }
  }

  lemma {:induction false} NotYetCharged(steps: seq<Step>, id: nat)
    requires id >= |Execute(Queue([], {}), steps).rows|
    ensures ChargeCount(Queue([], {}), steps, id) == 0
  {
    if steps != [] {
      var rows, step := Execute(Queue([], {}), steps[..|steps| - 1]).rows, steps[|steps| - 1];
      if step.EnqueueChain? {
        ChainShape(rows, step.kinds, step.run, step.maxAttempts);
      } else {
        SameEdges(rows, step);
      }
      NotYetCharged(steps[..|steps| - 1], id);
    }
  }

  /** Failures and stale recoveries of a task that is never retried by hand never exceed its limit. */
  lemma AttemptBound(steps: seq<Step>, id: nat)
    requires AllEnqueueable(steps) && id < |Execute(Queue([], {}), steps).rows|
    requires forall step <- steps :: !(step.RetryTask? && step.id == id)
    ensures ChargeCount(Queue([], {}), steps, id) <= Execute(Queue([], {}), steps).rows[id].maxAttempts
    ensures Execute(Queue([], {}), steps).rows[id].status.Live() ==>
              ChargeCount(Queue([], {}), steps, id) < Execute(Queue([], {}), steps).rows[id].maxAttempts
  {
    RunCharges(steps, id);
    RunKeepsRows(Queue([], {}), steps);
    assert RowKept(Execute(Queue([], {}), steps).rows[id]);
  }

  // ---- concurrency of downloads ----

  ghost predicate Limited(steps: seq<Step>, k: nat) {
    forall step <- steps :: step.ClaimNext? && step.workerClass.Network? ==> step.limit == Some(k)
  }

  predicate Downloading(t: Task) { t.kind.Download? && t.status.Running? }

  lemma {:induction false} FewerDownloads(rows: Rows, after: Rows)
    requires |rows| <= |after|
    requires forall x :: 0 <= x < |rows| ==> (Downloading(after[x]) ==> Downloading(rows[x]))
    requires forall x :: |rows| <= x < |after| ==> !Downloading(after[x])
    ensures RunningDownloads(after) <= RunningDownloads(rows)
    decreases |after|
  {
    if |rows| < |after| {
      FewerDownloads(rows, after[..|after| - 1]);
    } else if rows != [] {
      FewerDownloads(rows[..|rows| - 1], after[..|after| - 1]);
    }
  }

  lemma {:induction false} OneMoreDownload(rows: Rows, id: nat, t: Task)
    requires id < |rows|
    ensures RunningDownloads(rows[id := t]) <= RunningDownloads(rows) + if Downloading(t) then 1 else 0
  {
    var after := rows[id := t];
    if id == |rows| - 1 {
      assert after[..|after| - 1] == rows[..|rows| - 1];
    } else {
      assert after[..|after| - 1] == rows[..|rows| - 1][id := t];
      OneMoreDownload(rows[..|rows| - 1], id, t);
    }
  }

  lemma KindsStay(rows: Rows, step: Step)
    requires !step.EnqueueChain? && !step.ClaimNext?
    ensures var after := Changed(rows, step);
            |after| == |rows| && forall x :: 0 <= x < |rows| ==> (Downloading(after[x]) ==> Downloading(rows[x]))
  {
  }

  lemma StepKeepsLimit(rows: Rows, step: Step, k: nat)
    requires RowsKept(rows) && RunningDownloads(rows) <= k
    requires step.ClaimNext? && step.workerClass.Network? ==> step.limit == Some(k)
    ensures RunningDownloads(Changed(rows, step)) <= k
  {
    match step {
      case ClaimNext(workerClass, worker, now, limit) =>
        var best := BestBelow(rows, |rows|, workerClass, now, limit);
        if best.Some? {
          assert RowKept(rows[best.value]);
          OneMoreDownload(rows, best.value, Claimed(rows[best.value], worker, now));
        }
      case EnqueueChain(kinds, run, maxAttempts) =>
        ChainShape(rows, kinds, run, maxAttempts);
        FewerDownloads(rows, Changed(rows, step));
      case _ =>
        KindsStay(rows, step);
        FewerDownloads(rows, Changed(rows, step));
    }
  }

  /** Across all workers, no more than k downloads ever run when every network claim passes the limit k. */
  lemma {:induction false} DownloadsLimited(steps: seq<Step>, k: nat)
    requires AllEnqueueable(steps) && Limited(steps, k)
    ensures RunningDownloads(Execute(Queue([], {}), steps).rows) <= k
  {
    if steps != [] {
      DownloadsLimited(steps[..|steps| - 1], k);
      RunKeepsRows(Queue([], {}), steps[..|steps| - 1]);
      StepKeepsLimit(Execute(Queue([], {}), steps[..|steps| - 1]).rows, steps[|steps| - 1], k);
    }
  }

  // ---- fencing ----

  /** The worker whose write this step is, if it is one. */
  function Writer(step: Step): Option<(nat, string)> {
    match step
    case Heartbeat(id, worker, _) => Some((id, worker))
    case Mark(id, worker, _, _) => Some((id, worker))
    case MarkFailed(id, worker, _, _) => Some((id, worker))
    case MarkBlocked(id, worker, _, _) => Some((id, worker))
    case ReleaseTask(id, worker, _) => Some((id, worker))
    case _ => None
  }

  /** A worker's write changes something only while the row is running under its name, and then only that row. */
  lemma Fenced(rows: Rows, step: Step)
    requires Writer(step).Some?
    ensures var (id, worker) := Writer(step).value;
            && (Changed(rows, step) != rows ==> Owns(rows, id, worker))
            && |Changed(rows, step)| == |rows|
            && forall x :: 0 <= x < |rows| && x != id ==> Changed(rows, step)[x] == rows[x]
  {
  }

  /**
   The fence names the worker and not the claim. When a stale execution was reaped and, whatever happened in
   between, the task is claimed again, a late result of the earlier execution takes effect exactly when the
   same worker made the new claim; of another worker's earlier execution no write changes anything.
   */
  lemma LateWriteExactly(
    q: Queue, id: nat, worker: string, staleBefore: real, at: real, steps: seq<Step>,
    workerClass: WorkerClass, other: string, now: real, limit: Option<int>, status: Status, late: real)
    requires Owns(q.rows, id, worker) && Stale(q.rows[id], staleBefore) && status.Terminal()
    requires var rows := Execute(q, [Reap(staleBefore, at)] + steps).rows;
             BestBelow(rows, |rows|, workerClass, now, limit) == Some(id)
    ensures var rows := Execute(q, [Reap(staleBefore, at)] + steps).rows;
            var reclaimed := Claim(rows, workerClass, other, now, limit);
            && id < |rows| && reclaimed == rows[id := Claimed(rows[id], other, now)]
            && (Changed(reclaimed, Mark(id, worker, status, late)) != reclaimed <==> other == worker)
            && (other == worker ==>
                  Changed(reclaimed, Mark(id, worker, status, late))
                    == reclaimed[id := Finished(reclaimed[id], status, late)])
            && (other != worker ==>
                  forall step: Step :: Writer(step) == Some((id, worker)) ==> Changed(reclaimed, step) == reclaimed)
  {
    var rows := Execute(q, [Reap(staleBefore, at)] + steps).rows;
    var reclaimed := Claim(rows, workerClass, other, now, limit);
    assert reclaimed[id] == Claimed(rows[id], other, now);
    assert Finished(reclaimed[id], status, late).status != reclaimed[id].status;
  }

  /** Such a claim follows the reaping at once when the row is alone, has attempts left and is not asked to cancel. */
  lemma ReapedIsReclaimed(t: Task, owed: set<nat>, staleBefore: real, at: real, limit: Option<int>)
    requires Stale(t, staleBefore) && t.attempts + 1 < t.maxAttempts && !t.cancelRequested
    requires t.blockedUntil == None && t.dependsOn == None && (limit.Some? ==> limit.value > 0)
    ensures var rows := Execute(Queue([t], owed), [Reap(staleBefore, at)] + []).rows;
            BestBelow(rows, |rows|, t.workerClass, at, limit) == Some(0)
  {
    var steps := [Reap(staleBefore, at)];
    assert steps + [] == steps && steps[..0] == [];
    var rows := Execute(Queue([t], owed), steps).rows;
    assert steps[|steps| - 1] == Reap(staleBefore, at) && Execute(Queue([t], owed), steps[..0]).rows == [t];
    assert rows == RecoverStale([t], staleBefore, at);
    assert rows == [Reaped(t, at)];
    assert rows[..0] == [] && RunningDownloads(rows[..0]) == 0;
    assert Eligible(rows, 0, t.workerClass, at, limit);
    assert BestBelow(rows, 0, t.workerClass, at, limit) == None;
  }

  // ---- a request the reaper strands ----

  predicate Stranded(t: Task) { t.status.Pending? && t.cancelRequested }

  /** An operator's step that addresses this task, or a cancellation from above. */
  predicate Addresses(rows: Rows, step: Step, x: nat)
    requires x < |rows|
  {
    match step
    case AskCancel(id, _) => id == x
    case AskCancelRun(runId, _) => rows[x].run == Some(runId)
    case RetryTask(id, _) => id == x
    case DropDescendants(t, _) => Under(rows, t, x)
    case _ => false
  }

  ghost predicate NeverAddressed(q: Queue, steps: seq<Step>, x: nat) {
    steps == []
    || (NeverAddressed(q, steps[..|steps| - 1], x)
        && x < |Execute(q, steps[..|steps| - 1]).rows|
        && !Addresses(Execute(q, steps[..|steps| - 1]).rows, steps[|steps| - 1], x))
  }

  lemma StrandedStep(rows: Rows, step: Step, x: nat)
    requires x < |rows| && Stranded(rows[x]) && !Addresses(rows, step, x)
    ensures x < |Changed(rows, step)| && Changed(rows, step)[x] == rows[x]
  {
    match step {
      case EnqueueChain(kinds, run, maxAttempts) => ChainShape(rows, kinds, run, maxAttempts);
      case _ =>
    }
  }

  /** It is then never claimed, by any worker at any time, until it is cancelled or retried by hand. */
  lemma {:induction false} StrandedForever(
    q: Queue, steps: seq<Step>, x: nat, workerClass: WorkerClass, now: real, limit: Option<int>)
    requires x < |q.rows| && Stranded(q.rows[x]) && NeverAddressed(q, steps, x)
    ensures x < |Execute(q, steps).rows| && Execute(q, steps).rows[x] == q.rows[x]
    ensures !Eligible(Execute(q, steps).rows, x, workerClass, now, limit)
  {
    if steps != [] {
      StrandedForever(q, steps[..|steps| - 1], x, workerClass, now, limit);
      StrandedStep(Execute(q, steps[..|steps| - 1]).rows, steps[|steps| - 1], x);
    }
  }

  /** So a stale task that was asked to cancel, with attempts left, is stranded by the reaper. */
  lemma ReapStrands(
    rows: Rows, owed: set<nat>, staleBefore: real, at: real, steps: seq<Step>, x: nat,
    workerClass: WorkerClass, now: real, limit: Option<int>)
    requires x < |rows| && Stale(rows[x], staleBefore) && rows[x].cancelRequested
             && rows[x].attempts + 1 < rows[x].maxAttempts
    requires NeverAddressed(Queue(RecoverStale(rows, staleBefore, at), owed), steps, x)
    ensures var after := Execute(Queue(RecoverStale(rows, staleBefore, at), owed), steps).rows;
            x < |after| && after[x] == Reaped(rows[x], at) && !Eligible(after, x, workerClass, now, limit)
  {
    StrandedForever(Queue(RecoverStale(rows, staleBefore, at), owed), steps, x, workerClass, now, limit);
  }

  // ---- a retry that waits ----

  /** No claim of this run is made at or after the given time. */
  ghost predicate ClaimsBefore(steps: seq<Step>, due: real) {
    forall step <- steps :: step.ClaimNext? ==> step.now < due
  }

  /** A task sent back with a delay is left alone until the delay is over, by every worker. */
  lemma {:induction false} WaitsUntilDue(q: Queue, steps: seq<Step>, x: nat, due: real)
    requires x < |q.rows| && q.rows[x].status.Waiting() && q.rows[x].availableAt == Some(due)
    requires ClaimsBefore(steps, due) && NeverAddressed(q, steps, x)
    ensures x < |Execute(q, steps).rows| && Execute(q, steps).rows[x] == q.rows[x]
  {
    if steps != [] {
      WaitsUntilDue(q, steps[..|steps| - 1], x, due);
      WaitingStep(Execute(q, steps[..|steps| - 1]).rows, steps[|steps| - 1], x, due);
    }
  }

  lemma WaitingStep(rows: Rows, step: Step, x: nat, due: real)
    requires x < |rows| && rows[x].status.Waiting() && rows[x].availableAt == Some(due) && !Addresses(rows, step, x)
    requires step.ClaimNext? ==> step.now < due
    ensures x < |Changed(rows, step)| && Changed(rows, step)[x] == rows[x]
  {
    if step.EnqueueChain? {
      ChainShape(rows, step.kinds, step.run, step.maxAttempts);
    }
  }
}
