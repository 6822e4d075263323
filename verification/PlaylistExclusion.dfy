/**
 One operation per playlist (src/sluicery/core/sync.py, core/retention.py, core/folder_move.py,
 scheduler/__init__.py, db/repositories/run.py): a RUNNING run and the live tasks of a playlist
 together act as its lock.
 */
module PlaylistExclusion {
  import opened Common
  import opened TaskQueue
  import TaskSafety

  datatype RunStatus = Open | Done | Broken | Cancelled | Skipped

  datatype RunKind = DiscoverRun | DownloadRun | RetentionRun | FolderMoveRun

  datatype RunRow = RunRow(playlist: nat, kind: RunKind, status: RunStatus)

  datatype TargetId = TargetId(playlist: nat, number: nat)

  /** The tasks first, first + 1, … enqueued for one target by one run. */
  datatype Pipeline = Pipeline(run: nat, target: TargetId, first: nat)

  /**
   The runs and tasks of all playlists; the download runs whose process is still enqueuing, with the
   targets it has yet to enqueue; the pipelines enqueued so far; and the runs whose tasks an operator has
   asked to cancel and which the same request is about to close.
   */
  datatype Shop = Shop(
    runs: seq<RunRow>, queue: TaskSafety.Queue, enqueuing: map<nat, set<TargetId>>, pipelines: seq<Pipeline>,
    asked: set<nat>)

  datatype Step =
    | StartDiscover(playlist: nat, maxAttempts: int)
    | StartDownload(playlist: nat, candidates: set<nat>)
    | Enqueue(run: nat, target: TargetId, maxAttempts: int)
    | EndDownload(run: nat, status: RunStatus)
    | DieDownload(run: nat)
    | StartRetention(playlist: nat)
    | StartFolderMove(playlist: nat, interrupted: set<nat>)
    | EndExclusive(run: nat, status: RunStatus)
    | FinishDiscover(run: nat, status: RunStatus)
    | AskCancelRun(run: nat, now: real)
    | CloseCancelled(run: nat)
    | RecoverOrphan(run: nat)
    | RecordSkipped(playlist: nat, kind: RunKind)
    | TaskStep(step: TaskSafety.Step)

  /** The playlist of a task is that of the run it was enqueued for. */
  predicate TaskOf(s: Shop, x: nat, playlist: nat)
    requires x < |s.queue.rows|
  {
    var run := s.queue.rows[x].run;
    run.Some? && run.value < |s.runs| && s.runs[run.value].playlist == playlist
  }

  predicate LiveTask(s: Shop, x: nat, playlist: nat) {
    x < |s.queue.rows| && s.queue.rows[x].status.Live() && TaskOf(s, x, playlist)
  }

  predicate OpenRun(runs: seq<RunRow>, r: nat, playlist: nat) {
    r < |runs| && runs[r].playlist == playlist && runs[r].status.Open?
  }

  /** The check every operation makes under the write lock it starts with. */
  predicate SyncIsActive(s: Shop, playlist: nat) {
    (exists x: nat :: x < |s.queue.rows| && LiveTask(s, x, playlist))
    || (exists r: nat :: r < |s.runs| && OpenRun(s.runs, r, playlist))
  }

  /** What a cancel request for a run counts: the tasks of the run it can still touch. */
  predicate HasLiveTask(s: Shop, run: nat) {
    exists x :: 0 <= x < |s.queue.rows| && s.queue.rows[x].run == Some(run) && s.queue.rows[x].status.Live()
  }

  /** How a run without live tasks is closed when nobody closed it. */
  function OrphanStatus(s: Shop, run: nat): RunStatus {
    if !(exists x :: 0 <= x < |s.queue.rows| && s.queue.rows[x].run == Some(run)) then Broken
    else if forall x :: 0 <= x < |s.queue.rows| && s.queue.rows[x].run == Some(run)
              ==> s.queue.rows[x].status.Succeeded? then Done
    else if exists x :: 0 <= x < |s.queue.rows| && s.queue.rows[x].run == Some(run) && s.queue.rows[x].status.Cancelled?
    then RunStatus.Cancelled
    else Broken
  }

  function OpenNew(s: Shop, playlist: nat, kind: RunKind): Shop {
    s.(runs := s.runs + [RunRow(playlist, kind, Open)])
  }

  /** RunRepository.finish: only a cancellation overwrites a cancelled run. */
  function Finish(runs: seq<RunRow>, r: nat, status: RunStatus): seq<RunRow> {
    if r < |runs| && (status.Cancelled? || !runs[r].status.Cancelled?) then runs[r := runs[r].(status := status)]
      else runs
  }

  function Close(runs: seq<RunRow>, ids: set<nat>): (r: seq<RunRow>)
    ensures |r| == |runs|
  {
    seq(|runs|, i requires 0 <= i < |runs| => if i in ids then runs[i].(status := Broken) else runs[i])
  }

  /** The interrupted folder moves a confirmed plan recovers. */
  predicate Interrupted(runs: seq<RunRow>, ids: set<nat>, playlist: nat) {
    forall r <- ids :: OpenRun(runs, r, playlist) && runs[r].kind.FolderMoveRun?
  }

  function TargetsOf(playlist: nat, numbers: set<nat>): set<TargetId> { set n | n in numbers :: TargetId(playlist, n) }

  function WithTasks(s: Shop, kinds: seq<(Kind, WorkerClass)>, run: nat, maxAttempts: int): Shop {
    s.(queue := TaskSafety.Apply(s.queue, TaskSafety.EnqueueChain(kinds, Some(run), maxAttempts)))
  }

  function Apply(s: Shop, step: Step): Shop {
    match step
    case StartDiscover(playlist, maxAttempts) =>
      if maxAttempts < 1 || SyncIsActive(s, playlist) then s
      else WithTasks(OpenNew(s, playlist, DiscoverRun), [(Discover, Network)], |s.runs|, maxAttempts)
    case StartDownload(playlist, candidates) =>
      if SyncIsActive(s, playlist) then s
      else OpenNew(s, playlist, DownloadRun).(enqueuing := s.enqueuing[|s.runs| := TargetsOf(playlist, candidates)])
    case Enqueue(run, target, maxAttempts) =>
      if run in s.enqueuing && target in s.enqueuing[run] then
        WithTasks(s, PIPELINE_STEPS, run, maxAttempts)
        .(enqueuing := s.enqueuing[run := s.enqueuing[run] - {target}],
          pipelines := s.pipelines + [Pipeline(run, target, |s.queue.rows|)])
      else s
    case EndDownload(run, status) =>
      if run !in s.enqueuing || status.Open? then s
      else s.(runs := Finish(s.runs, run, status), enqueuing := s.enqueuing - {run})
    case DieDownload(run) => s.(enqueuing := s.enqueuing - {run})
    case StartRetention(playlist) =>
      if SyncIsActive(s, playlist) then s else OpenNew(s, playlist, RetentionRun)
    case StartFolderMove(playlist, interrupted) =>
      if !Interrupted(s.runs, interrupted, playlist) then s
      else
        var closed := s.(runs := Close(s.runs, interrupted));
        if SyncIsActive(closed, playlist) then s else OpenNew(closed, playlist, FolderMoveRun)
    case EndExclusive(run, status) =>
      if run < |s.runs| && (s.runs[run].kind.RetentionRun? || s.runs[run].kind.FolderMoveRun?) && !status.Open? then
        s.(runs := s.runs[run := s.runs[run].(status := status)])
      else s
    case FinishDiscover(run, status) =>
      if run < |s.runs| && s.runs[run].kind.DiscoverRun? && !status.Open? then s.(runs := Finish(s.runs, run, status))
        else s
    case AskCancelRun(run, now) =>
      s.(queue := TaskSafety.Apply(s.queue, TaskSafety.AskCancelRun(run, now)),
         asked := if HasLiveTask(s, run) then s.asked + {run} else s.asked)
    case CloseCancelled(run) =>
      if run in s.asked then s.(runs := Finish(s.runs, run, RunStatus.Cancelled), asked := s.asked - {run}) else s
    case RecoverOrphan(run) =>
      if run < |s.runs| && s.runs[run].status.Open? && !HasLiveTask(s, run) then
        s.(runs := Finish(s.runs, run, OrphanStatus(s, run)))
      else s
    case RecordSkipped(playlist, kind) => s.(runs := s.runs + [RunRow(playlist, kind, Skipped)])
    case TaskStep(step) => if step.EnqueueChain? || step.AskCancelRun? then s
      else s.(queue := TaskSafety.Apply(s.queue, step))
  }

  function Execute(s: Shop, steps: seq<Step>): Shop {
    if steps == [] then s else Apply(Execute(s, steps[..|steps| - 1]), steps[|steps| - 1])
  }

  const EMPTY := Shop([], TaskSafety.Queue([], {}), map[], [], {})

  // ---- at most one run is open ----

  ghost predicate OneOpen(runs: seq<RunRow>) {
    forall i: nat, j: nat ::
      i < |runs| && j < |runs| && runs[i].status.Open? && runs[j].status.Open? && runs[i].playlist == runs[j].playlist
      ==> i == j
  }

  lemma OpenNewKeeps(s: Shop, playlist: nat, kind: RunKind)
    requires OneOpen(s.runs) && !SyncIsActive(s, playlist)
    ensures OneOpen(OpenNew(s, playlist, kind).runs)
  {
    forall i: nat | i < |s.runs| && s.runs[i].playlist == playlist
      ensures !s.runs[i].status.Open?
    {
      assert !OpenRun(s.runs, i, playlist);
    }
  }

  lemma StepKeepsOneOpen(s: Shop, step: Step)
    requires OneOpen(s.runs)
    ensures OneOpen(Apply(s, step).runs)
  {
    match step {
      case StartDiscover(playlist, maxAttempts) =>
        if !SyncIsActive(s, playlist) { OpenNewKeeps(s, playlist, DiscoverRun); }
      case StartDownload(playlist, candidates) =>
        if !SyncIsActive(s, playlist) { OpenNewKeeps(s, playlist, DownloadRun); }
      case StartRetention(playlist) =>
        if !SyncIsActive(s, playlist) { OpenNewKeeps(s, playlist, RetentionRun); }
      case StartFolderMove(playlist, interrupted) =>
        var closed := s.(runs := Close(s.runs, interrupted));
        assert OneOpen(closed.runs);
        if !SyncIsActive(closed, playlist) { OpenNewKeeps(closed, playlist, FolderMoveRun); }
      case _ =>
    }
  }

  /** In every reachable state, whatever is cancelled, recovered or retried, no playlist has two RUNNING runs. */
  lemma {:induction false} AtMostOneOpen(steps: seq<Step>)
    ensures OneOpen(Execute(EMPTY, steps).runs)
  {
    if steps != [] {
      AtMostOneOpen(steps[..|steps| - 1]);
      StepKeepsOneOpen(Execute(EMPTY, steps[..|steps| - 1]), steps[|steps| - 1]);
    }
  }

  /** A cancelled discover or download run stays cancelled, whatever its process or the scheduler reports later. */
  lemma {:induction false} CancelledStays(s: Shop, steps: seq<Step>, r: nat)
    requires r < |s.runs| && s.runs[r].status.Cancelled? && (s.runs[r].kind.DiscoverRun? || s.runs[r].kind.DownloadRun?)
    ensures r < |Execute(s, steps).runs| && Execute(s, steps).runs[r] == s.runs[r]
  {
    if steps != [] {
      CancelledStays(s, steps[..|steps| - 1], r);
      CancelledStep(Execute(s, steps[..|steps| - 1]), steps[|steps| - 1], r);
    }
  }

  lemma CancelledStep(s: Shop, step: Step, r: nat)
    requires r < |s.runs| && s.runs[r].status.Cancelled? && (s.runs[r].kind.DiscoverRun? || s.runs[r].kind.DownloadRun?)
    ensures r < |Apply(s, step).runs| && Apply(s, step).runs[r] == s.runs[r]
  {
  }

  // ---- live tasks belong to one run ----

  /** All live tasks of one playlist belong to one run. */
  ghost predicate SingleRun(s: Shop) {
    forall x: nat, y: nat, playlist: nat :: LiveTask(s, x, playlist) && LiveTask(s, y, playlist)
      ==> s.queue.rows[x].run == s.queue.rows[y].run
  }

  /** While a run is open, live tasks of its playlist are its own. */
  ghost predicate OpenOwnsTasks(s: Shop) {
    forall r: nat, x: nat :: r < |s.runs| && s.runs[r].status.Open? && LiveTask(s, x, s.runs[r].playlist)
      ==> s.queue.rows[x].run == Some(r)
  }

  ghost predicate EnqueuersOpen(s: Shop) { forall r <- s.enqueuing.Keys :: r < |s.runs| && s.runs[r].status.Open? }

  ghost predicate Tagged(s: Shop) {
    forall x :: 0 <= x < |s.queue.rows| && s.queue.rows[x].run.Some? ==> s.queue.rows[x].run.value < |s.runs|
  }

  ghost predicate Exclusive(s: Shop) {
    OneOpen(s.runs) && SingleRun(s) && OpenOwnsTasks(s) && EnqueuersOpen(s) && Tagged(s)
  }

  /** No run is closed from outside while its process still enqueues, and nothing is retried by hand. */
  ghost predicate Orderly(s: Shop, step: Step) {
    && (step.CloseCancelled? || step.RecoverOrphan? ==> step.run !in s.enqueuing)
    && (step.TaskStep? ==> !step.step.RetryTask?)
  }

  /** Rows only leave the live tasks; runs are only closed. */
  ghost predicate Shrinks(s: Shop, s2: Shop) {
    && |s2.runs| == |s.runs| && |s2.queue.rows| == |s.queue.rows|
    && (forall r: nat :: r < |s.runs|
          ==> s2.runs[r].playlist == s.runs[r].playlist && (s2.runs[r].status.Open? ==> s.runs[r].status.Open?))
    && (forall x: nat :: x < |s.queue.rows| ==>
          s2.queue.rows[x].run == s.queue.rows[x].run
            && (s2.queue.rows[x].status.Live() ==> s.queue.rows[x].status.Live()))
  }

  lemma ShrinkKeeps(s: Shop, s2: Shop)
    requires Exclusive(s) && Shrinks(s, s2) && EnqueuersOpen(s2)
    ensures Exclusive(s2)
  {
    forall x: nat, playlist: nat | LiveTask(s2, x, playlist)
      ensures LiveTask(s, x, playlist)
    {
    }
  }

  /** Opening a run where nothing is live or open. */
  lemma OpenKeepsExclusive(s: Shop, playlist: nat, kind: RunKind)
    requires Exclusive(s) && !SyncIsActive(s, playlist)
    ensures Exclusive(OpenNew(s, playlist, kind))
    ensures forall x: nat :: !LiveTask(OpenNew(s, playlist, kind), x, playlist)
  {
    var s2 := OpenNew(s, playlist, kind);
    OpenNewKeeps(s, playlist, kind);
    forall x: nat, p: nat
      ensures LiveTask(s2, x, p) == LiveTask(s, x, p)
    {
      if x < |s.queue.rows| && s.queue.rows[x].run.Some? {
        assert s.queue.rows[x].run.value < |s.runs|;
      }
    }
    forall x: nat
      ensures !LiveTask(s, x, playlist)
    {
      if x < |s.queue.rows| {
        assert !LiveTask(s, x, playlist);
      }
    }
  }

  /** Enqueuing for an open run. */
  lemma TasksKeepExclusive(s: Shop, kinds: seq<(Kind, WorkerClass)>, run: nat, maxAttempts: int)
    requires Exclusive(s) && run < |s.runs| && s.runs[run].status.Open?
    ensures Exclusive(WithTasks(s, kinds, run, maxAttempts))
  {
    var s2 := WithTasks(s, kinds, run, maxAttempts);
    TaskSafety.ChainShape(s.queue.rows, kinds, Some(run), maxAttempts);
    forall x: nat, playlist: nat | LiveTask(s2, x, playlist)
      ensures x < |s.queue.rows| ==> LiveTask(s, x, playlist) && s2.queue.rows[x] == s.queue.rows[x]
      ensures playlist == s.runs[run].playlist ==> s2.queue.rows[x].run == Some(run)
      ensures x >= |s.queue.rows| ==> playlist == s.runs[run].playlist
    {
    }
  }

  lemma TaskStepShrinks(s: Shop, step: TaskSafety.Step, s2: Shop)
    requires !step.RetryTask? && !step.EnqueueChain?
    requires s2.runs == s.runs && s2.queue == TaskSafety.Apply(s.queue, step)
    ensures Shrinks(s, s2)
  {
    TaskSafety.StepMoves(s.queue.rows, step);
    var after := TaskSafety.Changed(s.queue.rows, step);
    forall x: nat | x < |s.queue.rows|
      ensures after[x].run == s.queue.rows[x].run && (after[x].status.Live() ==> s.queue.rows[x].status.Live())
    {
      assert TaskSafety.StatusMoves(s.queue.rows, s.queue.rows[x], after[x]);
    }
  }

  lemma EnqueuerAdded(s: Shop, run: nat, targets: set<TargetId>)
    requires Exclusive(s) && run < |s.runs| && s.runs[run].status.Open?
    ensures Exclusive(s.(enqueuing := s.enqueuing[run := targets]))
  {
    var s2 := s.(enqueuing := s.enqueuing[run := targets]);
    assert forall x: nat, p: nat :: LiveTask(s2, x, p) == LiveTask(s, x, p);
  }

  lemma EnqueueKeepsExclusive(s: Shop, run: nat, target: TargetId, maxAttempts: int)
    requires Exclusive(s)
    ensures Exclusive(Apply(s, Enqueue(run, target, maxAttempts)))
  {
    if run in s.enqueuing && target in s.enqueuing[run] {
      TasksKeepExclusive(s, PIPELINE_STEPS, run, maxAttempts);
      ShrinkKeeps(WithTasks(s, PIPELINE_STEPS, run, maxAttempts), Apply(s, Enqueue(run, target, maxAttempts)));
    }
  }

  /** Retention and folder moves never enqueue, so the runs they close and open are not those of an enqueuer. */
  ghost predicate EnqueuersDownload(s: Shop) {
    forall r <- s.enqueuing.Keys :: r < |s.runs| && s.runs[r].kind.DownloadRun?
  }

  lemma FolderMoveKeepsExclusive(s: Shop, playlist: nat, interrupted: set<nat>)
    requires Exclusive(s) && EnqueuersDownload(s)
    ensures Exclusive(Apply(s, StartFolderMove(playlist, interrupted)))
  {
    var closed := s.(runs := Close(s.runs, interrupted));
    if Interrupted(s.runs, interrupted, playlist) && !SyncIsActive(closed, playlist) {
      forall r <- closed.enqueuing.Keys
        ensures closed.runs[r].status.Open?
      {
        assert r !in interrupted;
      }
      ShrinkKeeps(s, closed);
      OpenKeepsExclusive(closed, playlist, FolderMoveRun);
    }
  }

  lemma SkipKeepsExclusive(s: Shop, playlist: nat, kind: RunKind)
    requires Exclusive(s)
    ensures Exclusive(Apply(s, RecordSkipped(playlist, kind)))
  {
    var s2 := Apply(s, RecordSkipped(playlist, kind));
    forall x: nat, p: nat
      ensures LiveTask(s2, x, p) == LiveTask(s, x, p)
    {
      if x < |s.queue.rows| && s.queue.rows[x].run.Some? {
        assert s.queue.rows[x].run.value < |s.runs|;
      }
    }
  }

  lemma StepKeepsExclusive(s: Shop, step: Step)
    requires Exclusive(s) && EnqueuersDownload(s) && Orderly(s, step)
    ensures Exclusive(Apply(s, step)) && EnqueuersDownload(Apply(s, step))
  {
    match step {
      case StartDiscover(playlist, maxAttempts) =>
        if !SyncIsActive(s, playlist) && maxAttempts >= 1 {
          OpenKeepsExclusive(s, playlist, DiscoverRun);
          TasksKeepExclusive(OpenNew(s, playlist, DiscoverRun), [(Discover, Network)], |s.runs|, maxAttempts);
        }
      case StartDownload(playlist, candidates) =>
        if !SyncIsActive(s, playlist) {
          OpenKeepsExclusive(s, playlist, DownloadRun);
          EnqueuerAdded(OpenNew(s, playlist, DownloadRun), |s.runs|, TargetsOf(playlist, candidates));
        }
      case StartRetention(playlist) =>
        if !SyncIsActive(s, playlist) { OpenKeepsExclusive(s, playlist, RetentionRun); }
      case StartFolderMove(playlist, interrupted) => FolderMoveKeepsExclusive(s, playlist, interrupted);
      case Enqueue(run, target, maxAttempts) =>
        EnqueueKeepsExclusive(s, run, target, maxAttempts);
      case TaskStep(inner) =>
        if !inner.EnqueueChain? && !inner.AskCancelRun? {
          TaskStepShrinks(s, inner, Apply(s, step));
          ShrinkKeeps(s, Apply(s, step));
        }
      case AskCancelRun(run, now) =>
        TaskStepShrinks(s, TaskSafety.AskCancelRun(run, now), Apply(s, step));
        ShrinkKeeps(s, Apply(s, step));
      case RecordSkipped(playlist, kind) => SkipKeepsExclusive(s, playlist, kind);
      case _ => CloseKeepsExclusive(s, step);
    }
  }

  /** Steps that only close runs or end an enqueuing process. */
  lemma CloseKeepsExclusive(s: Shop, step: Step)
    requires Exclusive(s) && EnqueuersDownload(s) && Orderly(s, step)
    requires step.EndDownload? || step.DieDownload? || step.EndExclusive? || step.FinishDiscover?
             || step.CloseCancelled? || step.RecoverOrphan?
    ensures Exclusive(Apply(s, step)) && EnqueuersDownload(Apply(s, step))
  {
    ShrinkKeeps(s, Apply(s, step));
  }

  ghost predicate OrderlyRun(s: Shop, steps: seq<Step>) {
    steps == []
    || (OrderlyRun(s, steps[..|steps| - 1]) && Orderly(Execute(s, steps[..|steps| - 1]), steps[|steps| - 1]))
  }

  lemma {:induction false} RunKeepsExclusive(steps: seq<Step>)
    requires OrderlyRun(EMPTY, steps)
    ensures Exclusive(Execute(EMPTY, steps)) && EnqueuersDownload(Execute(EMPTY, steps))
  {
    if steps != [] {
      RunKeepsExclusive(steps[..|steps| - 1]);
      StepKeepsExclusive(Execute(EMPTY, steps[..|steps| - 1]), steps[|steps| - 1]);
    }
  }

  /**
   In every state reached without a manual retry and without closing a run that still enqueues, all
   live tasks of a playlist belong to one run, and to the open run if there is one.
   */
  lemma LiveTasksOfOneRun(steps: seq<Step>, x: nat, y: nat, playlist: nat)
    requires OrderlyRun(EMPTY, steps)
    requires LiveTask(Execute(EMPTY, steps), x, playlist) && LiveTask(Execute(EMPTY, steps), y, playlist)
    ensures var s := Execute(EMPTY, steps);
            s.queue.rows[x].run == s.queue.rows[y].run
            && forall r: nat :: OpenRun(s.runs, r, playlist) ==> s.queue.rows[x].run == Some(r)
  {
    RunKeepsExclusive(steps);
  }

  // ---- one live pipeline per target ----

  /** Task x belongs to pipeline p. */
  predicate InPipeline(s: Shop, p: Pipeline, x: nat) { p.first <= x < p.first + |PIPELINE_STEPS| && x < |s.queue.rows| }

  ghost predicate PipelineHolds(s: Shop, p: Pipeline) {
    && p.run < |s.runs| && p.target.playlist == s.runs[p.run].playlist
    && forall x: nat :: InPipeline(s, p, x) ==> s.queue.rows[x].run == Some(p.run)
  }

  /**
   Every pipeline's tasks carry its run, no run has two pipelines of a target, and none of a target it has yet
   to enqueue.
   */
  ghost predicate PipelinesKept(s: Shop) {
    && (forall i :: 0 <= i < |s.pipelines|
          ==> PipelineHolds(s, s.pipelines[i]) && s.pipelines[i].first + |PIPELINE_STEPS| <= |s.queue.rows|)
    && (forall i, j :: 0 <= i < j < |s.pipelines| && s.pipelines[i].target == s.pipelines[j].target
                       ==> s.pipelines[i].run != s.pipelines[j].run)
    && (forall r <- s.enqueuing.Keys :: r < |s.runs| && TodoHolds(s, r))
  }

  ghost predicate TodoHolds(s: Shop, r: nat)
    requires r in s.enqueuing && r < |s.runs|
  {
    && (forall t <- s.enqueuing[r] :: t.playlist == s.runs[r].playlist)
    && forall i :: 0 <= i < |s.pipelines| && s.pipelines[i].run == r ==> s.pipelines[i].target !in s.enqueuing[r]
  }

  /** Runs and tasks may be added or change, but no run changes its playlist and no task its run. */
  ghost predicate Extends(s: Shop, s2: Shop) {
    && |s.runs| <= |s2.runs| && |s.queue.rows| <= |s2.queue.rows|
    && (forall r: nat :: r < |s.runs| ==> s2.runs[r].playlist == s.runs[r].playlist)
    && (forall x: nat :: x < |s.queue.rows| ==> s2.queue.rows[x].run == s.queue.rows[x].run)
  }

  lemma StepExtends(s: Shop, step: Step)
    ensures Extends(s, Apply(s, step))
  {
    match step {
      case StartDiscover(playlist, maxAttempts) =>
        TaskSafety.ChainShape(s.queue.rows, [(Discover, Network)], Some(|s.runs|), maxAttempts);
      case Enqueue(run, target, maxAttempts) =>
        TaskSafety.ChainShape(s.queue.rows, PIPELINE_STEPS, Some(run), maxAttempts);
      case TaskStep(inner) =>
        if !inner.EnqueueChain? {
          TaskSafety.SameEdges(s.queue.rows, inner);
        }
      case AskCancelRun(run, now) => TaskSafety.SameEdges(s.queue.rows, TaskSafety.AskCancelRun(run, now));
      case _ =>
    }
  }

  /** What was kept stays kept when no pipeline is added and nothing more is left to enqueue. */
  lemma ExtendedKeeps(s: Shop, s2: Shop)
    requires PipelinesKept(s) && Extends(s, s2) && s2.pipelines == s.pipelines
    requires forall r <- s2.enqueuing.Keys :: r in s.enqueuing && s2.enqueuing[r] == s.enqueuing[r]
    ensures PipelinesKept(s2)
  {
    forall i | 0 <= i < |s2.pipelines|
      ensures PipelineHolds(s2, s2.pipelines[i])
    {
      assert PipelineHolds(s, s.pipelines[i]);
      forall x: nat | InPipeline(s2, s2.pipelines[i], x)
        ensures s2.queue.rows[x].run == Some(s2.pipelines[i].run)
      {
        assert InPipeline(s, s.pipelines[i], x);
      }
    }
    forall r <- s2.enqueuing.Keys
      ensures r < |s2.runs| && TodoHolds(s2, r)
    {
      assert TodoHolds(s, r);
    }
  }

  lemma DownloadKeepsPipelines(s: Shop, playlist: nat, candidates: set<nat>)
    requires PipelinesKept(s)
    ensures PipelinesKept(Apply(s, StartDownload(playlist, candidates)))
  {
    if !SyncIsActive(s, playlist) {
      var opened0 := OpenNew(s, playlist, DownloadRun);
      ExtendedKeeps(s, opened0);
      var s2 := Apply(s, StartDownload(playlist, candidates));
      forall i | 0 <= i < |s2.pipelines|
        ensures PipelineHolds(s2, s2.pipelines[i]) && s2.pipelines[i].run != |s.runs|
      {
        assert PipelineHolds(s, s.pipelines[i]) && PipelineHolds(opened0, s.pipelines[i]);
        assert forall x: nat :: InPipeline(s2, s2.pipelines[i], x) ==> InPipeline(opened0, s2.pipelines[i], x);
      }
      forall r <- s2.enqueuing.Keys
        ensures r < |s2.runs| && TodoHolds(s2, r)
      {
        if r != |s.runs| {
          assert TodoHolds(opened0, r);
        }
      }
    }
  }

  lemma EnqueueKeepsPipelines(s: Shop, run: nat, target: TargetId, maxAttempts: int)
    requires PipelinesKept(s) && run in s.enqueuing && target in s.enqueuing[run]
    ensures PipelinesKept(Apply(s, Enqueue(run, target, maxAttempts)))
  {
    var with0 := WithTasks(s, PIPELINE_STEPS, run, maxAttempts);
    var s2 := Apply(s, Enqueue(run, target, maxAttempts));
    TaskSafety.ChainShape(s.queue.rows, PIPELINE_STEPS, Some(run), maxAttempts);
    ExtendedKeeps(s, with0);
    assert TodoHolds(with0, run);
    forall i | 0 <= i < |s2.pipelines|
      ensures PipelineHolds(s2, s2.pipelines[i])
    {
      if i < |s.pipelines| {
        assert PipelineHolds(with0, s.pipelines[i]);
        assert forall x: nat :: InPipeline(s2, s2.pipelines[i], x) ==> InPipeline(with0, s2.pipelines[i], x);
      }
    }
    forall r <- s2.enqueuing.Keys
      ensures r < |s2.runs| && TodoHolds(s2, r)
    {
      assert TodoHolds(with0, r);
    }
  }

  lemma {:induction false} RunKeepsPipelines(steps: seq<Step>)
    ensures PipelinesKept(Execute(EMPTY, steps))
  {
    if steps != [] {
      RunKeepsPipelines(steps[..|steps| - 1]);
      var s, step := Execute(EMPTY, steps[..|steps| - 1]), steps[|steps| - 1];
      match step {
        case StartDownload(playlist, candidates) => DownloadKeepsPipelines(s, playlist, candidates);
        case Enqueue(run, target, maxAttempts) =>
          if run in s.enqueuing && target in s.enqueuing[run] {
            EnqueueKeepsPipelines(s, run, target, maxAttempts);
          }
        case _ =>
          StepExtends(s, step);
          ExtendedKeeps(s, Apply(s, step));
      }
    }
  }

  /**
   No target ever has two live pipelines: of two pipelines enqueued for one target, at whatever times
   and by whatever runs, at most one has a task that still waits or runs.
   */
  lemma OneLivePipeline(steps: seq<Step>, i: nat, j: nat, x: nat, y: nat)
    requires OrderlyRun(EMPTY, steps)
    requires var s := Execute(EMPTY, steps);
             && i < j < |s.pipelines| && s.pipelines[i].target == s.pipelines[j].target
             && InPipeline(s, s.pipelines[i], x) && InPipeline(s, s.pipelines[j], y)
    ensures var rows := Execute(EMPTY, steps).queue.rows; !(rows[x].status.Live() && rows[y].status.Live())
  {
    var s := Execute(EMPTY, steps);
    RunKeepsPipelines(steps);
    assert PipelineHolds(s, s.pipelines[i]) && PipelineHolds(s, s.pipelines[j]);
    if s.queue.rows[x].status.Live() && s.queue.rows[y].status.Live() {
      LiveTasksOfOneRun(steps, x, y, s.pipelines[i].target.playlist);
    }
  }

  // ---- exactly what breaks it ----

  /** Another run of the same playlist has live tasks. */
  ghost predicate OthersLive(s: Shop, run: nat) {
    run < |s.runs| && exists x: nat :: LiveTask(s, x, s.runs[run].playlist) && s.queue.rows[x].run != Some(run)
  }

  /** Enqueuing mixes runs exactly when the run was closed early enough for another one to get live tasks. */
  lemma EnqueueExact(s: Shop, target: TargetId, run: nat, maxAttempts: int)
    requires SingleRun(s) && Tagged(s) && run in s.enqueuing && run < |s.runs| && target in s.enqueuing[run]
    ensures SingleRun(Apply(s, Enqueue(run, target, maxAttempts))) <==> !OthersLive(s, run)
  {
    var s2 := Apply(s, Enqueue(run, target, maxAttempts));
    var playlist := s.runs[run].playlist;
    TaskSafety.ChainShape(s.queue.rows, PIPELINE_STEPS, Some(run), maxAttempts);
    assert LiveTask(s2, |s.queue.rows|, playlist);
    forall x: nat, p: nat | x < |s.queue.rows|
      ensures LiveTask(s2, x, p) == LiveTask(s, x, p)
    {
    }
    if OthersLive(s, run) {
      var x: nat :| LiveTask(s, x, playlist) && s.queue.rows[x].run != Some(run);
      assert LiveTask(s2, x, playlist);
    }
  }

  /** A manual retry mixes runs exactly when another run of the playlist has live tasks. */
  lemma RetryMixesExactly(s: Shop, id: nat, now: real)
    requires SingleRun(s) && Tagged(s) && id < |s.queue.rows|
    requires s.queue.rows[id].status.Terminal() && s.queue.rows[id].run.Some?
    ensures SingleRun(Apply(s, TaskStep(TaskSafety.RetryTask(id, now)))) <==> !OthersLive(s, s.queue.rows[id].run.value)
  {
    var s2 := Apply(s, TaskStep(TaskSafety.RetryTask(id, now)));
    var run := s.queue.rows[id].run.value;
    var playlist := s.runs[run].playlist;
    assert LiveTask(s2, id, playlist);
    forall x: nat, p: nat | x < |s.queue.rows| && x != id
      ensures LiveTask(s2, x, p) == LiveTask(s, x, p)
    {
    }
    if OthersLive(s, run) {
      var x: nat :| LiveTask(s, x, playlist) && s.queue.rows[x].run != Some(run);
      assert x != id && LiveTask(s2, x, playlist);
    }
  }

  /**
   It happens: a download run is cancelled by an operator after its first pipeline is enqueued. A discover
   run starts, and the process then enqueues its second pipeline beside it.
   */
  lemma CancelledEnqueuerMixes(playlist: nat, t1: nat, t2: nat, now: real)
    requires t1 != t2
    ensures var s := Execute(EMPTY, CancelledEnqueuer(playlist, t1, t2, now)); !SingleRun(s) && OneOpen(s.runs)
  {
    var steps := CancelledEnqueuer(playlist, t1, t2, now);
    AtMostOneOpen(steps);
    EarlierSteps(playlist, t1, t2, now);
    OneEnqueued(playlist, t1, t2);
    OneCancelled(Execute(EMPTY, steps[..2]), playlist, TargetId(playlist, t2), now);
    DiscoverBeside(Execute(EMPTY, steps[..4]), playlist, TargetId(playlist, t2));
    EnqueueExact(Execute(EMPTY, steps[..5]), TargetId(playlist, t2), 0, 1);
    OneFurther(EMPTY, steps, 5);
    assert steps[..6] == steps;
  }

  lemma EarlierSteps(playlist: nat, t1: nat, t2: nat, now: real)
    ensures var steps := CancelledEnqueuer(playlist, t1, t2, now);
            && Execute(EMPTY, steps[..2]) == Apply(Apply(EMPTY, steps[0]), steps[1])
            && Execute(EMPTY, steps[..4]) == Apply(Apply(Execute(EMPTY, steps[..2]), steps[2]), steps[3])
            && Execute(EMPTY, steps[..5]) == Apply(Execute(EMPTY, steps[..4]), steps[4])
  {
    var steps := CancelledEnqueuer(playlist, t1, t2, now);
    OneFurther(EMPTY, steps, 0);
    OneFurther(EMPTY, steps, 1);
    OneFurther(EMPTY, steps, 2);
    OneFurther(EMPTY, steps, 3);
    OneFurther(EMPTY, steps, 4);
  }

  function CancelledEnqueuer(playlist: nat, t1: nat, t2: nat, now: real): seq<Step> {
    [StartDownload(playlist, {t1, t2}), Enqueue(0, TargetId(playlist, t1), 1), AskCancelRun(0, now), CloseCancelled(0),
     StartDiscover(playlist, 1), Enqueue(0, TargetId(playlist, t2), 1)]
  }

  /** A download run with one pipeline enqueued, all of it waiting, and one target left. */
  ghost predicate HalfEnqueued(s: Shop, playlist: nat, t: TargetId) {
    && s.runs == [RunRow(playlist, DownloadRun, Open)] && s.enqueuing == map[0 := {t}] && s.asked == {}
    && |s.queue.rows| == |PIPELINE_STEPS|
    && forall x :: 0 <= x < |s.queue.rows| ==> s.queue.rows[x].run == Some(0) && s.queue.rows[x].status.Queued?
  }

  lemma OneEnqueued(playlist: nat, t1: nat, t2: nat)
    requires t1 != t2
    ensures HalfEnqueued(Apply(Apply(EMPTY, StartDownload(playlist, {t1, t2})), Enqueue(0, TargetId(playlist, t1), 1)),
                         playlist, TargetId(playlist, t2))
  {
    var s1 := Apply(EMPTY, StartDownload(playlist, {t1, t2}));
    assert s1.runs == [RunRow(playlist, DownloadRun, Open)];
    assert TargetId(playlist, t1) in TargetsOf(playlist, {t1, t2});
    assert TargetsOf(playlist, {t1, t2}) - {TargetId(playlist, t1)} == {TargetId(playlist, t2)};
    TaskSafety.ChainShape([], PIPELINE_STEPS, Some(0), 1);
  }

  /** The same after the request, with every task cancelled and the run closed. */
  ghost predicate HalfCancelled(s: Shop, playlist: nat, t: TargetId) {
    && s.runs == [RunRow(playlist, DownloadRun, RunStatus.Cancelled)] && s.enqueuing == map[0 := {t}]
    && forall x :: 0 <= x < |s.queue.rows| ==> s.queue.rows[x].run == Some(0) && s.queue.rows[x].status.Cancelled?
  }

  lemma OneCancelled(s: Shop, playlist: nat, t: TargetId, now: real)
    requires HalfEnqueued(s, playlist, t)
    ensures HalfCancelled(Apply(Apply(s, AskCancelRun(0, now)), CloseCancelled(0)), playlist, t)
  {
    assert s.queue.rows[0].run == Some(0) && s.queue.rows[0].status.Live();
    assert HasLiveTask(s, 0);
  }

  lemma DiscoverBeside(s: Shop, playlist: nat, t: TargetId)
    requires HalfCancelled(s, playlist, t)
    ensures var s2 := Apply(s, StartDiscover(playlist, 1));
            SingleRun(s2) && Tagged(s2) && OthersLive(s2, 0) && s2.enqueuing == map[0 := {t}] && |s2.runs| == 2
  {
    var s2 := Apply(s, StartDiscover(playlist, 1));
    TaskSafety.ChainShape(s.queue.rows, [(Discover, Network)], Some(1), 1);
    assert !SyncIsActive(s, playlist);
    assert LiveTask(s2, |s.queue.rows|, playlist) && s2.queue.rows[|s.queue.rows|].run == Some(1);
  }

  /** One step further into a run. */
  lemma OneFurther(s: Shop, steps: seq<Step>, k: nat)
    requires k < |steps|
    ensures Execute(s, steps[..k + 1]) == Apply(Execute(s, steps[..k]), steps[k])
  {
    assert steps[..k + 1][..k] == steps[..k];
  }
}
