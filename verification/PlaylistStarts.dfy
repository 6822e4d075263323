/**
 Exactly when an operation on a playlist starts, what it starts with, and how its run is closed, said of the run
 and task rows (src/sluicery/core/sync.py, scheduler/__init__.py, db/repositories/run.py).
 */
module PlaylistStarts {
  import opened Common
  import opened TaskQueue
  import opened PlaylistExclusion
  import TaskSafety

  /** Task x was enqueued for a run of this playlist. */
  ghost predicate Serves(s: Shop, x: nat, playlist: nat) {
    && x < |s.queue.rows| && s.queue.rows[x].run.Some? && s.queue.rows[x].run.value < |s.runs|
    && s.runs[s.queue.rows[x].run.value].playlist == playlist
  }

  ghost predicate Settled(status: Status) {
    status == Succeeded || status == Failed || status == Unavailable || status == Status.Cancelled
  }

  /** No run of the playlist is RUNNING but these, and every task of its runs has settled. */
  ghost predicate IdleBut(s: Shop, playlist: nat, but: set<nat>) {
    && (forall r :: 0 <= r < |s.runs| && s.runs[r].playlist == playlist && s.runs[r].status == Open ==> r in but)
    && (forall x: nat :: Serves(s, x, playlist) ==> Settled(s.queue.rows[x].status))
  }

  lemma ActiveExactly(s: Shop, playlist: nat)
    ensures SyncIsActive(s, playlist) <==> !IdleBut(s, playlist, {})
  {
    if SyncIsActive(s, playlist) {
      if x: nat :| x < |s.queue.rows| && LiveTask(s, x, playlist) {
        assert Serves(s, x, playlist);
      } else {
        var r: nat :| r < |s.runs| && OpenRun(s.runs, r, playlist);
      }
    } else {
      forall x: nat | Serves(s, x, playlist)
        ensures Settled(s.queue.rows[x].status)
      {
        assert !LiveTask(s, x, playlist);
      }
      forall r: nat | r < |s.runs| && s.runs[r].playlist == playlist
        ensures s.runs[r].status != Open
      {
        assert !OpenRun(s.runs, r, playlist);
      }
    }
  }

  /** A discovery starts exactly on an idle playlist, with one RUNNING run and its task. */
  lemma DiscoverStartsExactly(s: Shop, playlist: nat, maxAttempts: int)
    ensures var s2 := Apply(s, StartDiscover(playlist, maxAttempts));
            if maxAttempts >= 1 && IdleBut(s, playlist, {}) then
              && s2.runs == s.runs + [RunRow(playlist, DiscoverRun, Open)]
              && s2.queue.rows
                 == s.queue.rows + [NewTask(Discover, Network, None, Some(|s.runs|), maxAttempts)]
              && s2.enqueuing == s.enqueuing && s2.pipelines == s.pipelines
            else s2 == s
  {
    ActiveExactly(s, playlist);
    TaskSafety.ChainShape(s.queue.rows, [(Discover, Network)], Some(|s.runs|), maxAttempts);
  }

  /** A download starts exactly on an idle playlist, with one RUNNING run that has all candidates to enqueue. */
  lemma DownloadStartsExactly(s: Shop, playlist: nat, candidates: set<nat>)
    ensures var s2 := Apply(s, StartDownload(playlist, candidates));
            if IdleBut(s, playlist, {}) then
              && s2.runs == s.runs + [RunRow(playlist, DownloadRun, Open)] && s2.queue == s.queue
              && s2.enqueuing.Keys == s.enqueuing.Keys + {|s.runs|}
              && (forall t :: t in s2.enqueuing[|s.runs|] <==> t.playlist == playlist && t.number in candidates)
            else s2 == s
  {
    ActiveExactly(s, playlist);
    forall t
      ensures t in TargetsOf(playlist, candidates) <==> t.playlist == playlist && t.number in candidates
    {
      assert t.playlist == playlist ==> t == TargetId(playlist, t.number);
    }
  }

  lemma RetentionStartsExactly(s: Shop, playlist: nat)
    ensures Apply(s, StartRetention(playlist))
         == if IdleBut(s, playlist, {}) then s.(runs := s.runs + [RunRow(playlist, RetentionRun, Open)]) else s
  {
    ActiveExactly(s, playlist);
  }

  lemma IdleWhenClosed(s: Shop, playlist: nat, interrupted: set<nat>)
    requires forall r <- interrupted :: r < |s.runs|
    ensures IdleBut(s.(runs := Close(s.runs, interrupted)), playlist, {}) <==> IdleBut(s, playlist, interrupted)
  {
    var closed := s.(runs := Close(s.runs, interrupted));
    forall x: nat
      ensures Serves(closed, x, playlist) <==> Serves(s, x, playlist)
    {
    }
    if IdleBut(closed, playlist, {}) {
      forall r | 0 <= r < |s.runs| && s.runs[r].playlist == playlist && s.runs[r].status == Open
        ensures r in interrupted
      {
        var after := closed.runs[r];
      }
    }
  }

  /** A folder move starts also while the moves it recovers, which it closes, are RUNNING. */
  lemma FolderMoveStartsExactly(s: Shop, playlist: nat, interrupted: set<nat>)
    requires forall r <- interrupted :: r < |s.runs| && s.runs[r].playlist == playlist
                                        && s.runs[r].kind == FolderMoveRun && s.runs[r].status == Open
    ensures var s2 := Apply(s, StartFolderMove(playlist, interrupted));
            if IdleBut(s, playlist, interrupted) then
              && |s2.runs| == |s.runs| + 1 && s2.runs[|s.runs|] == RunRow(playlist, FolderMoveRun, Open)
              && s2 == s.(runs := s2.runs)
              && forall r :: 0 <= r < |s.runs| ==>
                   s2.runs[r] == if r in interrupted then RunRow(playlist, FolderMoveRun, Broken) else s.runs[r]
            else s2 == s
  {
    assert Interrupted(s.runs, interrupted, playlist);
    ActiveExactly(s.(runs := Close(s.runs, interrupted)), playlist);
    IdleWhenClosed(s, playlist, interrupted);
  }

  /** It recovers nothing but RUNNING folder moves of its playlist. */
  lemma FolderMoveRecoversOwn(s: Shop, playlist: nat, interrupted: set<nat>, r: nat)
    requires r in interrupted
    requires r >= |s.runs| || s.runs[r].playlist != playlist || s.runs[r].kind != FolderMoveRun
             || s.runs[r].status != Open
    ensures Apply(s, StartFolderMove(playlist, interrupted)) == s
  {
  }

  /** Enqueuing a target the run has yet to enqueue gives it the five tasks in their order, and only once. */
  lemma PipelineEnqueued(s: Shop, run: nat, target: TargetId, maxAttempts: int)
    ensures var (n, s2) := (|s.queue.rows|, Apply(s, Enqueue(run, target, maxAttempts)));
            if run in s.enqueuing && target in s.enqueuing[run] then
              && |s2.queue.rows| == n + 5 && s2.queue.rows[..n] == s.queue.rows && s2.runs == s.runs
              && s2.queue.rows[n] == NewTask(Download, Network, None, Some(run), maxAttempts)
              && s2.queue.rows[n + 1] == NewTask(Verify, Compute, Some(n), Some(run), maxAttempts)
              && s2.queue.rows[n + 2] == NewTask(Postprocess, Compute, Some(n + 1), Some(run), maxAttempts)
              && s2.queue.rows[n + 3] == NewTask(Publish, Network, Some(n + 2), Some(run), maxAttempts)
              && s2.queue.rows[n + 4] == NewTask(Index, Network, Some(n + 3), Some(run), maxAttempts)
              && s2.enqueuing == s.enqueuing[run := s.enqueuing[run] - {target}]
              && s2.pipelines == s.pipelines + [Pipeline(run, target, n)]
            else s2 == s
  {
    TaskSafety.ChainShape(s.queue.rows, PIPELINE_STEPS, Some(run), maxAttempts);
  }

  // ---- closing ----

  /**
   The scheduler closes a RUNNING run whose tasks have all settled: as done if it had tasks and all succeeded, as
   cancelled if one was cancelled, and else as failed. Any other run it leaves alone.
   */
  lemma OrphanClosedExactly(s: Shop, run: nat, own: set<nat>)
    requires run < |s.runs| && own == set x: nat | x < |s.queue.rows| && s.queue.rows[x].run == Some(run)
    ensures var after := Apply(s, RecoverOrphan(run));
            if s.runs[run].status == Open && forall x <- own :: Settled(s.queue.rows[x].status) then
              after == s.(runs := s.runs[run := s.runs[run].(status := HowSettled(s, own))])
            else after == s
  {
    if HasLiveTask(s, run) {
      var x :| 0 <= x < |s.queue.rows| && s.queue.rows[x].run == Some(run) && s.queue.rows[x].status.Live();
      assert x in own;
    } else {
      forall x <- own
        ensures Settled(s.queue.rows[x].status)
      {
        assert !s.queue.rows[x].status.Live();
      }
    }
    OwnTasks(s, run, own);
  }

  ghost function HowSettled(s: Shop, own: set<nat>): RunStatus
    requires forall x <- own :: x < |s.queue.rows|
  {
    if own != {} && forall x <- own :: s.queue.rows[x].status == Succeeded then Done
    else if exists x <- own :: s.queue.rows[x].status == Status.Cancelled then RunStatus.Cancelled
    else Broken
  }

  lemma OwnTasks(s: Shop, run: nat, own: set<nat>)
    requires own == set x: nat | x < |s.queue.rows| && s.queue.rows[x].run == Some(run)
    ensures OrphanStatus(s, run) == HowSettled(s, own)
  {
    assert own == {} <==> !exists x :: 0 <= x < |s.queue.rows| && s.queue.rows[x].run == Some(run) by {
      if x :| 0 <= x < |s.queue.rows| && s.queue.rows[x].run == Some(run) {
        assert x in own;
      }
    }
    forall x | 0 <= x < |s.queue.rows|
      ensures s.queue.rows[x].run == Some(run) <==> x in own
    {
    }
  }

  /**
   What a process reports about its own discovery or download stands unless the run was cancelled before; a
   retention or folder move has its report in any case. No report reopens a run or touches another one.
   */
  lemma ReportStandsExactly(s: Shop, run: nat, status: RunStatus)
    requires run < |s.runs| && status != Open
    ensures var was := s.runs[run];
            var unless := if was.status == RunStatus.Cancelled && status != RunStatus.Cancelled then was
                          else was.(status := status);
            && Apply(s, FinishDiscover(run, status)).runs
               == (if was.kind == DiscoverRun then s.runs[run := unless] else s.runs)
            && Apply(s, EndDownload(run, status)).runs
               == (if run in s.enqueuing then s.runs[run := unless] else s.runs)
            && Apply(s, EndExclusive(run, status)).runs
               == if was.kind == RetentionRun || was.kind == FolderMoveRun then s.runs[run := was.(status := status)]
                  else s.runs
  {
  }

  /** A download that reported or died enqueues nothing more; nobody else's enqueuing is touched. */
  lemma EnqueuerEnds(s: Shop, run: nat, status: RunStatus, other: nat)
    requires status != Open
    ensures run !in Apply(s, EndDownload(run, status)).enqueuing && run !in Apply(s, DieDownload(run)).enqueuing
    ensures other != run && other in s.enqueuing ==>
              && other in Apply(s, EndDownload(run, status)).enqueuing && other in Apply(s, DieDownload(run)).enqueuing
              && Apply(s, EndDownload(run, status)).enqueuing[other] == s.enqueuing[other]
              && Apply(s, DieDownload(run)).enqueuing[other] == s.enqueuing[other]
    ensures Apply(s, DieDownload(run)).(enqueuing := s.enqueuing) == s
  {
  }

  /** A cancel request is followed by closing the run exactly when some task of it has not settled; and once. */
  lemma ClosedWhenAskedExactly(s: Shop, run: nat, now: real)
    ensures Apply(s, AskCancelRun(run, now)).asked
         == if exists x :: 0 <= x < |s.queue.rows| && s.queue.rows[x].run == Some(run)
                           && !Settled(s.queue.rows[x].status)
            then s.asked + {run} else s.asked
    ensures var after := Apply(s, CloseCancelled(run));
            if run in s.asked then
              && run !in after.asked && after.asked == s.asked - {run}
              && after == s.(runs := after.runs, asked := after.asked) && |after.runs| == |s.runs|
              && forall r :: 0 <= r < |s.runs| ==>
                   after.runs[r] == if r == run then s.runs[r].(status := RunStatus.Cancelled) else s.runs[r]
            else after == s
  {
    if HasLiveTask(s, run) {
      var x :| 0 <= x < |s.queue.rows| && s.queue.rows[x].run == Some(run) && s.queue.rows[x].status.Live();
      assert !Settled(s.queue.rows[x].status);
    } else {
      forall x | 0 <= x < |s.queue.rows| && s.queue.rows[x].run == Some(run)
        ensures Settled(s.queue.rows[x].status)
      {
        assert !s.queue.rows[x].status.Live();
      }
    }
  }

  /** A start that found the playlist busy may be recorded as skipped; that blocks nothing. */
  lemma SkipRecorded(s: Shop, playlist: nat, kind: RunKind, any: nat)
    ensures var after := Apply(s, RecordSkipped(playlist, kind));
            && after == s.(runs := s.runs + [RunRow(playlist, kind, Skipped)])
            && (IdleBut(s, any, {})
                && (forall x :: 0 <= x < |s.queue.rows| && s.queue.rows[x].run.Some? ==>
                      s.queue.rows[x].run.value < |s.runs|)
                ==> IdleBut(after, any, {}))
  {
    var after := Apply(s, RecordSkipped(playlist, kind));
    forall x: nat | Serves(after, x, any)
      ensures s.queue.rows[x].run.value < |s.runs| ==> Serves(s, x, any)
    {
    }
  }
}
