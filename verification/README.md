# Verified model of sluicery's state protocols

sluicery keeps a media library in step with online playlists. Its database rows, its storage trees,
its work queue and its yt-dlp installation are changed by several processes that can stop at any
moment. This project models those protocols as step systems and classes, and proves what every run
of them keeps. `dafny verify dfyconfig.toml` checks all of it.

## What is modelled

- **Folder names and prefixes** (`Naming`, `SafeNames`, `Layout`): the sanitizer and the subpath template
  that turn a playlist's folder name into the prefix its files live under, and which names a template can
  confuse.
- **Folder move** (`FolderPlan`, `FolderMove`, `FolderMoveSafety`, `FolderMoveResume`,
  `FolderMoveComplete`, `FolderMoveStrand`, `FolderMoveLimits`, `FolderMoveExec`, `FolderDestination`,
  `FolderRefusals`): the planner, and the executor as one step per database commit or storage call, with
  previews, refusals, lost answers, exceptions, crashes and the scheduler's orphan recovery at any point.
  Files may look alike, as hard links do, so what is conserved is stated by location. The results: every
  file that is no artifact's stays where it is, no storage gains or loses a file, and at most one
  artifact's file is away from its database path, at the destination of a persisted intent; previewing the
  intent's name in id order recognises it, whatever names were previewed and moved to before; previewing
  the name of an interrupted move again is never blocked; the artifacts left decrease; and the first
  execution that succeeds ends in the one state an uninterrupted run ends in. `FolderMoveStrand` follows a
  move to any clean name, and `FolderMoveLimits` holds the runs the conditions of these results shut out.
  `FolderMoveExec` is the executor in its own imperative form, proved to be a run of the step system.
- **Task queue** (`TaskQueue`, `TaskRepository`, `TaskSafety`, `TaskClaims`, `TaskHeartbeat`,
  `TaskRequests`, `TaskOutcomes`, `Backoff`, `Worker`): the repository's conditional updates as methods of
  a class, every interleaving of workers, operators and the reaper over them, and what a worker's result
  and the reaper make of the targets.
- **Playlist exclusion** (`PlaylistExclusion`, `PlaylistStarts`): run rows together with the task table of
  the queue as the lock of a playlist, and the pipelines enqueued under it.
- **Version store** (`VersionStore`, `VersionUpdate`): release rows, the `current` link and the
  directories under install, use, remove, prune and damage, and under a process that dies inside a switch,
  an installation, a rebuild of an existing directory, a removal or a pruning; updates and rollbacks on
  top.
- **Integrity check** (`Integrity`, `IntegrityFixpoint`, `IntegrityOutcome`): snapshot, decisions,
  revalidation and update as separate phases, so the database can change in between.
- **Retention** (`Retention`, `RetentionAudit`): selection and guards; execution with its two-phase audit
  log, the quarantining delete, and the two scanners that read the log.
- **Discovery, target states, configuration import, write throttling** (`Discovery`, `TargetState`,
  `ConfigImport`, `ConfigImportProofs`, `ConfigImportResults`, `ConfigImportOutcome`, `Throttle`).

## What the proofs found

Some expectations hold only under a condition. The condition is then proved sufficient or exact, and a
lemma shows a concrete failure.

- Two different folder names can resolve to the same prefix, but only if one is the other behind a leading
  underscore (`COM` and `_COM` below `{playlist.folder_name}1`). The safety result is therefore about
  names no two of which give one folder-dependent row the same prefix, which names without such pairs
  never do (`FolderMove.UnvariedSeparated`). For any other name the exact condition is proved: a move
  shown, confirmed and finished loses no artifact's file, and leaves every file in place or explained iff
  each displaced artifact has different prefixes under both names or is explained by an intent recorded
  when the folder had the new name (`FolderMoveStrand.FinishStrandsExactly`).
  `FolderMoveLimits.VariantStrands` is a run that strands a file.
- The planner reads earlier runs without an ordering. In whatever order they are read, the same name can
  be confirmed again iff for every displaced artifact the last run read that has an intent for it holds
  its current candidate (`FolderMoveResume.NotBlockedExactly`). Id order always satisfies this; a
  reachable state in which another order does not is `FolderMoveLimits.OrderMatters`.
- A retry keeps "whatever runs has succeeded dependencies" exactly when it does not take back a success
  another task was started on (`TaskSafety.RetryExact`).
- A stale task that was asked to cancel goes back to the queue with the request still set, and is then
  never claimed until an operator acts (`TaskSafety.ReapStrands`). A shutdown does the opposite: it clears
  the request, so a task of a cancelled run can run again (`TaskOutcomes.ReadyAgainExactly`,
  `TaskOutcomes.StepReopensExactly`).
- The owner check of a worker's write names the worker and not the claim: a late result of a reaped
  execution takes effect iff the same worker has claimed the task again (`TaskSafety.LateWriteExactly`).
- A task's charged attempt is not counted on a target that is blocked, unless the task is given up, nor on
  one that is no longer active (`Worker.TargetFollowsTask`).
- Cancelling a download run after its first pipeline, while its process still enqueues, lets a second
  run's live tasks appear beside it (`PlaylistExclusion.CancelledEnqueuerMixes`,
  `PlaylistExclusion.EnqueueExact`).
- The ACTIVE release is the one `current` points at exactly when the last switch, by `use` or by an
  installation, was not left half done between the link and the commit (`VersionStore.StoreAgrees`); the
  next completed switch heals it. Until then pruning can take the release the database says is in use
  (`VersionStore.CrashedSwitchUnprotects`, and the run `VersionStore.CrashedRunPrunes`).
- Rebuilding, removing and pruning delete a directory before they commit. A release of the database lacks
  its directory exactly when such a step died after deleting it and nothing has put it back or removed its
  row since (`VersionStore.StoreAgrees`). So `current` dangles exactly when a rebuild of the version it
  names was left that way (`VersionStore.DanglesExactly`, `VersionStore.StepDangles`, and the run
  `VersionStore.RebuildDangles`), and a rollback can have a target without a directory
  (`VersionStore.RollbackTargetKept`, and the run `VersionStore.RebuildLosesChoice`).
- Undoing a manual link creates a path collision exactly when another artifact has taken the previous path
  (`IntegrityFixpoint.UndoCollidesExactly`); two links and an undo get there
  (`IntegrityFixpoint.UndoCollides`).
- A retention plan with two artifacts of one target never completes (`RetentionAudit.CompletesExactly`),
  and a path with U+0085, U+2028 or U+2029 makes both scanners refuse a log for good, even a complete one
  (`RetentionAudit.ScannersAgree`).
- The configuration document's validation lets rows of different kinds share a reference. Every valid
  document whose assignments use such a reference goes wrong in some database, and no other one does
  (`ConfigImportResults.MixedMislinks`, `ConfigImportResults.UnmixedLinksAsNamed`). What an import that
  succeeds promises about rows, folders and repetition holds with mixed references too.
- Importing with `create` over an existing name makes every later import of the document fail, because the
  name is then ambiguous (`ConfigImportResults.ReimportRefusedExactly`).

## Assumptions

- Unicode NFC is the identity. Template fields carry no format specification, conversion or index.
  Directories are not modelled, only files.
- A storage move either happens completely (with or without an answer) or not at all. No two artifacts of
  the playlist moved have one place in the database; their files, and all others, may look alike. No one
  else touches the tree, the artifact rows or the rows joined to them while a folder move is under way.
  One executor runs per playlist (the lock file).
- A release directory is deleted and put in place as one step each; what an interrupted deletion leaves is
  either damaged or gone.
- `updated_at` never repeats a value. Planner and integrity snapshot read rows and files at one moment.
- Confirmation tokens and fingerprints stand for the values they protect: only a plan that was shown can
  be confirmed.
- Times in the queue, the back-off and the throttler are real numbers.

## Model

| member | source | states |
|---|---|---|
| Naming.SanitizedIsClean | src/sluicery/core/naming.py:28-41 | Sanitizing a component is idempotent and its result holds no separator or control character, so a folder name never adds a path component |
| Naming.CleanExactly | src/sluicery/core/naming.py:28-41 | The names it leaves alone are exactly the non-empty ones without forbidden characters, trailing dots or spaces, and reserved stems |
| SafeNames.CleanLiterally | src/sluicery/core/naming.py:14-41 | Character by character: a name is left alone exactly when it is not empty, has no control character and none of the nine forbidden ones, ends in neither blank nor dot, and its text before the first dot is, whatever the case, none of the 22 reserved names |
| SafeNames.SanitizedLiterally | src/sluicery/core/naming.py:28-41 | Otherwise every forbidden character becomes "_", every other stays, and a "_" goes before a reserved name |
| SafeNames.ControlIgnored | src/sluicery/core/naming.py:28-41 | Control characters do not count, wherever they stand |
| SafeNames.EndIgnored | src/sluicery/core/naming.py:28-41 | Neither do blanks and dots at the end, and nothing else is no name |
| SafeNames.RelativeExactly | src/sluicery/core/naming.py:44-62 | A relative path is taken exactly when it names no drive and every part has a safe form and is neither empty nor one or two dots; it becomes the path of those forms |
| SafeNames.BackslashSeparates | src/sluicery/core/naming.py:54-62 | A backslash separates as a slash does |
| Layout.PrefixDepth | src/sluicery/layout/__init__.py:29-48 | The prefixes of two folder names under one template have the same, non-zero depth |
| Layout.PrefixIndependent | src/sluicery/layout/__init__.py:29-48 | A template without the folder name gives one prefix for every folder |
| Layout.PrefixCollapse | src/sluicery/layout/__init__.py:29-48 | Two sanitized names a folder-dependent template cannot tell apart are equal or differ by exactly one leading underscore |
| Layout.PrefixCollapseWitness | src/sluicery/core/naming.py:38-41 | COM and _COM do collapse under a concrete template |
| Layout.ReplacePrefixOnce | src/sluicery/core/folder_move.py:143-150 | Between distinct prefixes of one depth a path moves once, never onto itself, and back again by the reverse replacement |
| FolderPlan.BuildFolderMovePlan | src/sluicery/core/folder_move.py:229-452 | The planner's loops compute the plan function, error cases included |
| FolderPlan.UnblockedIsFaithful | src/sluicery/core/folder_move.py:338-441 | An unblocked plan lists exactly the rows that move, in id order, each inspected, to pairwise distinct places |
| FolderPlan.ClearRowsUnblocked | src/sluicery/core/folder_move.py:338-441 | Conversely, rows that resolve, pass inspection and share no destination leave the plan unblocked |
| FolderPlan.PlanAccounts | src/sluicery/core/folder_move.py:338-441 | No row is counted twice, and in an unblocked plan every row is a candidate or counted as unaffected |
| FolderDestination.ResolvesJoined | src/sluicery/layout/__init__.py:29-48 | Whatever the template, its prefix is the safe path of what its fields name: playlist name, safe folder name, profile name, profile kind, literal text |
| FolderDestination.SlashedResolves | src/sluicery/layout/__init__.py:29-48 | For fields joined by "/" component k of the prefix is the value the k-th field names, made safe |
| FolderDestination.PlannedDestination | src/sluicery/core/folder_move.py:345-376 | An unblocked plan moves a row below its prefix to the same path with the new name in the folder's place, wherever the template has the folder; without the folder in the template, or elsewhere, the row is left alone |
| FolderRefusals.PlanRefusedExactly | src/sluicery/core/folder_move.py:229-290 | No plan is made exactly for a name without safe form, one that is not its safe form, the current name, or rows below a folder without safe form |
| FolderRefusals.UnblockedExactly | src/sluicery/core/folder_move.py:338-441 | A plan may be confirmed exactly when every row is where its assignment says, resolves under both names, and if it moves has its file at home and room, or an intent's very file at its destination, of the recorded size; and no two rows meet |
| FolderRefusals.ReasonExactly | src/sluicery/core/folder_move.py:386-441 | Which situation of the storage gives which reason, for any tree and intents |
| FolderRefusals.StartsExactly | src/sluicery/core/folder_move.py:618-714 | A confirmed plan starts exactly when nothing else runs and playlist, rows and interrupted runs are as planned; it closes those runs with what they recorded and opens its own |
| FolderRefusals.MoveExactly | src/sluicery/core/folder_move.py:818-851 | The storage calls move the file exactly when it is at home as seen, has room and is not refused, and succeed exactly when that very file is then at its destination only |
| FolderRefusals.FinishExactly | src/sluicery/core/folder_move.py:876-892 | A run that has moved all its candidates renames the folder and reports all of them with no move under way |
| FolderRefusals.IntentExactly | src/sluicery/core/folder_move.py:789-806 | Before a file is moved its candidate and the number moved so far are on record, unless playlist or row changed |
| FolderRefusals.FailureExactly | src/sluicery/core/folder_move.py:896-908 | The exception handler closes the run as failed with what was on the way |
| FolderRefusals.FaultsExactly | src/sluicery/scheduler/__init__.py:383-436 | A crash ends the process and nothing else; orphan recovery closes a RUNNING folder move with what it recorded |
| FolderRefusals.LostAnswers | src/sluicery/core/folder_move.py:789-892 | A commit without an answer has happened all the same |
| FolderMove.UnvariedSeparated | src/sluicery/layout/__init__.py:29-48 | Whatever the templates, clean names without underscore pairs give no folder-dependent row one prefix |
| FolderMove.DestinationFacts | src/sluicery/core/folder_move.py:345-376 | Between names the templates tell apart exactly the artifacts below the current folder have a destination, and it lies outside that folder |
| FolderMoveSafety.StartKeeps | src/sluicery/core/folder_move.py:644-714 | Closing interrupted runs and opening a new one keeps the invariant, whichever shown plan is confirmed |
| FolderMoveSafety.PreviewKeeps | src/sluicery/core/folder_move.py:204-226 | Every plan shown, at any moment, describes the artifacts' own files and exactly the rows still to be moved |
| FolderMoveSafety.PersistIntentKeeps | src/sluicery/core/folder_move.py:789-806 | Persisting an intent keeps the invariant, with or without an acknowledged commit |
| FolderMoveSafety.RelocateKeeps | src/sluicery/core/folder_move.py:818-851 | The storage calls of a candidate keep the invariant for every outcome of the move |
| FolderMoveSafety.RelocateConserves | src/sluicery/storage/local.py:402-438 | They change no place of the storage but the candidate's two, lose, duplicate and overwrite no file, hard links included, and keep the number of files of every storage |
| FolderMoveSafety.StepConserves | src/sluicery/core/folder_move.py:618-920 | No step of any kind touches a file that is no artifact's, location by location, or changes how many files a storage holds |
| FolderMoveSafety.CommitKeeps | src/sluicery/core/folder_move.py:855-869 | Recording the artifact at its destination keeps the invariant, with or without an acknowledged commit |
| FolderMoveSafety.FinishKeeps | src/sluicery/core/folder_move.py:876-892 | Renaming the playlist happens only when nothing is displaced, and outdates every plan |
| FolderMoveSafety.RecordFailureKeeps | src/sluicery/core/folder_move.py:896-908 | The exception handler keeps the intent that explains a displaced file |
| FolderMoveSafety.RecoverOrphanKeeps | src/sluicery/scheduler/__init__.py:383-436 | Orphan recovery closing the run under a live executor keeps the invariant |
| FolderMoveSafety.RunKeeps | src/sluicery/core/folder_move.py:618-920 | Over every run of previews, starts, faults and crashes: the invariant holds, every file that is no artifact's stays at its location, and no storage gains or loses a file, hard links included |
| FolderMoveSafety.AtMostOneAway | src/sluicery/core/folder_move.py:391-413 | In every reachable state at most one artifact's file is away from its database path, and it sits with its planned identity where a persisted intent says |
| FolderMoveSafety.EachInOnePlace | src/sluicery/core/folder_move.py:391-413 | In every reachable state each artifact's own file is at exactly one place, and different artifacts' files are at different ones |
| FolderMoveResume.FoundIntentIsLive | src/sluicery/core/folder_move.py:306-328 | Reading the runs in id order for the name of an intent that explains a displaced file finds a current intent of that artifact |
| FolderMoveResume.LiveIsTaken | src/sluicery/core/folder_move.py:204-226 | A current intent that is found is accepted for its row and carries the identity of the artifact's own file |
| FolderMoveResume.Recognised | src/sluicery/core/folder_move.py:378-413 | In every state reachable under any names a displaced artifact is recognised as already moved, with its own file's identity and unblocked, when its intent's name is previewed in id order |
| FolderMoveResume.CampaignStep | src/sluicery/core/folder_move.py:788-892 | Whatever names are previewed in between, two numbers determine rows and tree at every moment of a campaign for one name, and its front never falls back |
| FolderMoveResume.NotBlocked | src/sluicery/core/folder_move.py:306-452 | At every moment of a campaign, previewing the same name again, runs read in id order, is not blocked |
| FolderMoveResume.NotBlockedExactly | src/sluicery/core/folder_move.py:306-328 | With the runs read in any order it is not blocked iff for every displaced artifact the last run read with an intent for it holds its current candidate |
| FolderMoveComplete.Completes | src/sluicery/core/folder_move.py:788-892 | From any abandoned state an uninterrupted run of the fresh plan arrives at the final rows, tree and folder name |
| FolderMoveComplete.Resumes | src/sluicery/core/folder_move.py:618-892 | After any run that confirms plans for one name and previews any: under the new name rows and tree are the final ones; under the old name the same preview is not blocked and its uninterrupted execution arrives there |
| FolderMoveComplete.MeasureDecreases | src/sluicery/core/folder_move.py:855-869 | Each recorded move removes exactly one artifact from those under the old prefix, and no other step adds one |
| FolderMoveExec.Store.ExecuteFolderMove | src/sluicery/core/folder_move.py:788-920 | The executor's loop, under any luck, is a run of the step system; success means the new folder name |
| FolderMoveStrand.OmittedExactly | src/sluicery/core/folder_move.py:369-376 | An unblocked plan omits an artifact below the current folder exactly when both names give it the same prefix |
| FolderMoveStrand.FinishStrandsExactly | src/sluicery/core/folder_move.py:618-892 | For any clean name and any number of artifacts, look-alike files included: preview, start, moves and finish lose no artifact's file, and afterwards every file is in place or explained iff no displaced artifact has one prefix under both names without an intent recorded under the new one |
| FolderMoveStrand.FinishStrandsByPrefix | src/sluicery/core/folder_move.py:618-892 | When no intent was recorded under the new name, iff no displaced artifact has one prefix under both names |
| FolderMoveLimits.VariantStrands | src/sluicery/core/folder_move.py:369-371 | The run from a state without earlier runs: COM to a third name interrupted after the move, then on to _COM, leaves the file away from its path and unexplained |
| FolderMoveLimits.OrderMatters | src/sluicery/core/folder_move.py:306-328 | A reachable state, there, back and there again interrupted, where id order confirms the same name and the reverse order blocks the row as missing |
| TaskQueue.ClaimTakesFirst | src/sluicery/db/repositories/task.py:71-147 | Nothing is claimed iff nothing is eligible; otherwise exactly the first eligible row by priority, scheduled time (nulls first) and id |
| TaskClaims.ClaimExactly | src/sluicery/db/repositories/task.py:71-147 | Where some task is due, of the worker's class, not asked to cancel, behind a succeeded one and within the download limit, the first of these by priority, schedule and id then runs under the worker's name, started and seen now; no other row changes |
| TaskClaims.NothingToClaim | src/sluicery/db/repositories/task.py:71-147 | Otherwise nothing changes |
| TaskHeartbeat.ReapExactly | src/sluicery/db/repositories/task.py:485-523 | The reaper takes exactly the running rows whose heartbeat, or without one whose start, lies before the limit; each is charged and waits again at once or is given up |
| TaskHeartbeat.SeenIsKept | src/sluicery/db/repositories/task.py:149-169 | Over every run: while no reap asks for a later sign of life than its last heartbeat, a worker keeps its task, whatever else happens to the table |
| TaskHeartbeat.ReapedExactly | src/sluicery/db/repositories/task.py:485-523 | From a claim on, a reap takes the task exactly when it asks for a later sign of life than the claim or the last heartbeat since |
| TaskRepository.TaskRepository.EnqueuePipeline | src/sluicery/tasks/pipeline.py:42-73 | The loop inserts one task per step, each depending on the one before |
| TaskRepository.TaskRepository.ClaimNext | src/sluicery/db/repositories/task.py:71-147 | Claims the first eligible task, refuses a concurrency below one, returns none iff nothing is eligible |
| TaskRepository.TaskRepository.Heartbeat | src/sluicery/db/repositories/task.py:149-169 | Reports the cancel request of an owned row and nothing for another's |
| TaskRepository.TaskRepository.MarkDead | src/sluicery/db/repositories/task.py:209-257 | Closing a task drops exactly what waits behind it |
| TaskRepository.TaskRepository.MarkFailedForRetry | src/sluicery/db/repositories/task.py:259-311 | Retry, exhaustion or cancellation, and the tasks dropped with the last two |
| TaskRepository.TaskRepository.MarkBlocked | src/sluicery/db/repositories/task.py:313-355 | Blocked until a time, or cancelled with what waits behind it |
| TaskRepository.TaskRepository.ReleaseForShutdown | src/sluicery/db/repositories/task.py:357-380 | An owned task goes back at once without using an attempt |
| TaskRepository.TaskRepository.AskCancel | src/sluicery/db/repositories/task.py:382-408 | A running task is asked, a waiting one cancelled with what waits behind it |
| TaskRepository.TaskRepository.RetryTask | src/sluicery/db/repositories/task.py:433-453 | Accepts every row that is not running, succeeded ones included |
| TaskRepository.TaskRepository.CancelDescendantsOf | src/sluicery/db/repositories/task.py:455-483 | The breadth-first loop terminates, drops exactly the tasks waiting under t through waiting tasks, and counts them |
| TaskRepository.TaskRepository.RecoverStaleTasks | src/sluicery/db/repositories/task.py:485-523 | Every stale task is returned or closed, then what waits behind the closed ones is dropped |
| TaskRequests.CancelExactly | src/sluicery/db/repositories/task.py:382-408 | A cancel request asks a running task to stop, closes a waiting one with all its waits, leaves a settled one and every other row |
| TaskRequests.CancelRunExactly | src/sluicery/db/repositories/task.py:410-431 | So for each task of a run, and no other |
| TaskRequests.RetriedExactly | src/sluicery/db/repositories/task.py:433-453 | A retry takes any task that is not running back as if new; behind a succeeded one it may be claimed from now on |
| TaskRequests.RunKeepsUnstarted | src/sluicery/db/repositories/task.py:259-380 | Over every run a row that waits shows nothing of an earlier execution |
| TaskRequests.ReapLeaves | src/sluicery/db/repositories/task.py:485-523 | A round of the reaper gives up exactly the unseen tasks out of attempts, nothing waits behind one of them any more, and nothing else is dropped |
| TaskSafety.RunKeepsRows | src/sluicery/db/repositories/task.py:128-380 | On every reachable row: running iff owned iff heartbeat, terminal iff finished, blocked has a time and pending, queued and running have none, attempts within the limit |
| TaskSafety.RetryExact | src/sluicery/db/repositories/task.py:433-453 | A retry keeps dependency safety iff it does not undercut a started task |
| TaskSafety.OnlySucceededAncestors | src/sluicery/db/repositories/task.py:83-92 | Over every interleaving whatever runs or has succeeded has only succeeded ancestors |
| TaskSafety.PipelineInOrder | src/sluicery/tasks/pipeline.py:33-73 | A pipeline's steps succeed in order and at most one of them runs at a time |
| TaskSafety.PayloadReadable | src/sluicery/tasks/pipeline.py:102-114 | For a running task the dependency payload never fails |
| TaskSafety.MovesKeepCover | src/sluicery/db/repositories/task.py:455-483 | A waiting task behind a dead one stays covered by a cancellation still owed, whatever claims, cancels or recoveries come in between |
| TaskSafety.DeadSubtreesCancelled | src/sluicery/db/repositories/task.py:455-483 | Without manual retry, once no cancellation is owed no waiting task has a dead ancestor |
| TaskSafety.AttemptBound | src/sluicery/db/repositories/task.py:259-311 | Failures and stale recoveries of a task not retried by hand never exceed its limit, and stay below it while it is live |
| TaskSafety.DownloadsLimited | src/sluicery/db/repositories/task.py:100-116 | When every network claim passes K, no more than K downloads ever run, across all workers |
| TaskSafety.Fenced | src/sluicery/db/repositories/task.py:547-574 | A worker's write changes something only while the row runs under its name, and only that row |
| TaskSafety.LateWriteExactly | src/sluicery/db/repositories/task.py:547-574 | Of any reaped execution whose task was claimed again, whatever happened in between, a late result takes effect iff the same worker made the new claim; another worker's changes nothing |
| TaskSafety.ReapedIsReclaimed | src/sluicery/db/repositories/task.py:485-523 | A reaped task that is alone, has attempts left and no cancel request is claimed at once |
| TaskSafety.ReapStrands | src/sluicery/db/repositories/task.py:503-515 | A reaped task with a pending cancel request is never eligible again until an operator addresses it |
| TaskSafety.WaitsUntilDue | src/sluicery/db/repositories/task.py:93-99 | A task sent back with a delay is left alone by every claim before that time |
| TaskOutcomes.ReadyAgainExactly | src/sluicery/db/repositories/task.py:259-380 | A failed, blocked or released task is claimable again exactly from the end of its wait on; a release is immediate and forgets a cancel request |
| TaskOutcomes.CancelHonoured | src/sluicery/db/repositories/task.py:259-355 | A task asked to cancel is cancelled by a failure or a block, without being charged |
| TaskOutcomes.StepReopensExactly | src/sluicery/db/repositories/task.py:357-523 | Once a run is cancelled exactly a shutdown release, a stale recovery, a manual retry or an enqueue puts one of its tasks back |
| TaskOutcomes.CancelledRunStaysDown | src/sluicery/db/repositories/task.py:410-431 | Otherwise none of its tasks ever waits or starts again, over every interleaving |
| Worker.Worker.ApplyResult | src/sluicery/tasks/worker.py:557-613 | The task row, what waits behind it and the target after a result; a late result changes none of them |
| Worker.ResultExactly | src/sluicery/tasks/worker.py:557-613 | The worker's own row after each result: its status, its wait by the configured delays, its charge; and no other row |
| Worker.SweptExactly | src/sluicery/db/repositories/task.py:455-483 | Behind a task that died nothing waits any more; behind any other nothing is touched |
| Worker.TargetFollowsTask | src/sluicery/tasks/worker.py:557-613 | Whatever the result and the target: retries grow with the task's attempts iff it was not charged or the target is active, and not blocked unless the task is given up; and exactly when the target ends unavailable, blocked or failed |
| Worker.StaleTaskReaper.RunOnce | src/sluicery/tasks/worker.py:674-693 | One round of the reaper over tasks and targets |
| Worker.ReaperSettles | src/sluicery/tasks/worker.py:683-693 | After it no target waits for a task it gave up, no retry is counted, and other targets stay |
| Backoff.DelayBounds | src/sluicery/tasks/queue.py:27-40 | The delay lies between the capped exponential and the cap |
| Backoff.DelayGrows | src/sluicery/tasks/queue.py:27-40 | With one random fraction a later failure never waits less |
| Backoff.DelayDoubles | src/sluicery/tasks/queue.py:27-40 | Without jitter the delay is the base after the first failure and doubles each time, up to the limit |
| Backoff.DelayJitters | src/sluicery/tasks/queue.py:27-40 | Jitter adds the random fraction of a tenth of that, or of what is left below the limit |
| Backoff.FailureWaits | src/sluicery/tasks/worker.py:591-605 | After a failure with attempts left no worker runs the task before the capped exponential delay is over |
| PlaylistExclusion.AtMostOneOpen | src/sluicery/core/sync.py:58-102 | In every reachable state no playlist has two RUNNING runs across discover, download, retention and folder move |
| PlaylistStarts.DiscoverStartsExactly | src/sluicery/core/sync.py:58-102 | A discovery starts exactly while no run of the playlist is RUNNING and every task of its runs has settled, with one run and its task |
| PlaylistStarts.DownloadStartsExactly | src/sluicery/core/sync.py:93-102 | So does a download, with one run that has all candidates to enqueue |
| PlaylistStarts.RetentionStartsExactly | src/sluicery/core/sync.py:93-102 | So does a retention |
| PlaylistStarts.FolderMoveStartsExactly | src/sluicery/core/folder_move.py:644-714 | A folder move also while the moves it recovers, which it closes, are RUNNING |
| PlaylistStarts.PipelineEnqueued | src/sluicery/tasks/pipeline.py:42-73 | A target that is yet to be enqueued gets the five tasks in their order, and only once |
| PlaylistStarts.OrphanClosedExactly | src/sluicery/scheduler/__init__.py:383-436 | The scheduler closes a RUNNING run exactly when its tasks have settled: done, cancelled or failed as they ended |
| PlaylistStarts.ReportStandsExactly | src/sluicery/db/repositories/run.py:35-56 | A report about a discovery or download stands unless the run was cancelled before; about a retention or folder move it always stands |
| PlaylistStarts.EnqueuerEnds | src/sluicery/core/sync.py:120-240 | A download that reported or died enqueues nothing more |
| PlaylistStarts.ClosedWhenAskedExactly | src/sluicery/web/app.py:2154-2166 | A cancel request closes the run exactly when some task of it has not settled, and once |
| PlaylistStarts.SkipRecorded | src/sluicery/scheduler/__init__.py:640-672 | A skipped run blocks nothing |
| PlaylistExclusion.LiveTasksOfOneRun | src/sluicery/core/sync.py:120-240 | Without manual retry and without closing an enqueuing run, live tasks of a playlist belong to one run, and to the open one |
| PlaylistExclusion.OneLivePipeline | src/sluicery/tasks/pipeline.py:76-99 | Of two pipelines enqueued for one target, at whatever times, at most one has a live task |
| PlaylistExclusion.CancelledStays | src/sluicery/db/repositories/run.py:35-56 | A cancelled discover or download run stays cancelled, whatever is reported later |
| PlaylistExclusion.EnqueueExact | src/sluicery/core/sync.py:400-411 | Enqueuing mixes runs exactly when another run of the playlist has live tasks |
| PlaylistExclusion.RetryMixesExactly | src/sluicery/db/repositories/task.py:433-453 | So does a manual retry |
| PlaylistExclusion.CancelledEnqueuerMixes | src/sluicery/web/app.py:2154-2166 | Cancelling a download run, whose live task the request touches, while its process has a pipeline yet to enqueue leads to live tasks of two runs |
| VersionStore.StepAgreesExactly | src/sluicery/downloader/version.py:265-276 | After any step the ACTIVE release is the current one iff the step completed a switch, died in a switch to the ACTIVE release, or switched nothing and they agreed before |
| VersionStore.StoreAgrees | src/sluicery/downloader/version.py:265-423 | In every reachable state, deaths included, at most one release is ACTIVE and current names a release with a row; the ACTIVE release is the current one iff the last switch was not left half done; a release with a row lacks its directory iff a rebuild, removal or pruning died after deleting it and nothing put it back or removed the row since |
| VersionStore.StepMissing | src/sluicery/downloader/version.py:279-423 | Step by step: which steps lose a directory, which put it back, and which take the row with it |
| VersionStore.DanglesExactly | src/sluicery/downloader/version.py:279-343 | In every reachable state current dangles iff the directory of the version it names was left lost |
| VersionStore.StepDangles | src/sluicery/downloader/version.py:265-343 | Nothing but a rebuild that died between the deletion and the rename makes current dangle; a completed rebuild or any completed switch ends it |
| VersionStore.RebuildDangles | src/sluicery/downloader/version.py:279-343 | The run from the empty store: a forced rebuild of the version in use dies, and current and the ACTIVE release have no directory |
| VersionStore.PruneProtects | src/sluicery/downloader/version.py:388-423 | Pruning spares the current release and the one deactivated last, rows and directories |
| VersionStore.PruneExactly | src/sluicery/downloader/version.py:398-419 | Exactly the unprotected releases with enough newer installed ones are taken, directory included |
| VersionStore.PruneLeavesEnough | src/sluicery/downloader/version.py:388-423 | The number of releases to keep is left, as far as there are that many, and they are the newest |
| VersionStore.InstallHeals | src/sluicery/downloader/version.py:279-343 | A successful installation leaves its release and `current` working, whatever was damaged, and switches only when `current` was not working |
| VersionStore.RollbackTargetKept | src/sluicery/downloader/version.py:346-423 | After any run, deaths half way included, a switch from a to b makes a the rollback choice until a is removed or another switch happens; it has its directory iff the run did not leave it lost |
| VersionStore.RebuildLosesChoice | src/sluicery/downloader/version.py:279-343 | The same death while rebuilding the rollback choice leaves it without its directory |
| VersionStore.CrashedSwitchUnprotects | src/sluicery/downloader/version.py:265-276 | From any kept state: after a switch that died between link and commit pruning takes the release that was in use iff it was not deactivated last, more releases are there than are kept, and enough of them are newer; before the crash no pruning takes it |
| VersionStore.CrashedRunPrunes | src/sluicery/downloader/version.py:388-423 | The run from the empty store: three installations, two switches, a third that dies, and pruning deletes the directory of the release in use |
| VersionStore.UpdateKeeps | src/sluicery/core/ytdlp_update.py:557-644 | The store keeps agreeing through every update |
| VersionStore.UpdateEnds | src/sluicery/core/ytdlp_update.py:557-644 | An update ends on a version that passed its smoke test or says so; after it the old version is the rollback choice even though pruning ran, with its directory iff it had one before |
| VersionUpdate.UseExactly | src/sluicery/downloader/version.py:346-364 | A switch succeeds exactly for a version with a row that is not removed and a directory that works, and makes it ACTIVE and current |
| VersionUpdate.RemoveExactly | src/sluicery/downloader/version.py:367-385 | A removal is refused exactly for the current version and one without a directory; otherwise directory and row go |
| VersionUpdate.RecordedExactly | src/sluicery/downloader/version.py:245-254 | What was built gets a row installed now, unless it has one that is not removed |
| VersionUpdate.InstallFailsExactly | src/sluicery/downloader/version.py:279-343 | An installation fails exactly when nothing was built and the version asked for cannot be taken as it is |
| VersionUpdate.DiedPruningTook | src/sluicery/downloader/version.py:388-423 | A pruning that died has deleted the directories of the newest of those it would have taken, and no row |
| VersionUpdate.BuiltIsUsable | src/sluicery/core/ytdlp_update.py:557-575 | What an update built is usable at once, so it always becomes current before its smoke test |
| VersionUpdate.UpdateSucceedsExactly | src/sluicery/core/ytdlp_update.py:557-607 | An update succeeds exactly when something was built and passed its smoke test, and changed something exactly when that was not in use |
| VersionUpdate.UpdateRollsBack | src/sluicery/core/ytdlp_update.py:609-644 | A candidate that fails is rolled back to the version that was in use exactly when that one passes its own smoke test and has a present row and a working directory; otherwise the candidate stays current |
| VersionUpdate.UpdateRollsBackToLatest | src/sluicery/core/ytdlp_update.py:609-644 | Without another version in use it goes to the release left last, on the same condition |
| VersionUpdate.UpdateHasNowhereToGo | src/sluicery/core/ytdlp_update.py:609-644 | Without either it fails with the candidate current |
| VersionUpdate.ByHandExactly | src/sluicery/core/ytdlp_update.py:647-680 | A rollback by hand succeeds exactly when the release left last passes its smoke test and is usable |
| VersionStore.RollbackIsReversible | src/sluicery/core/ytdlp_update.py:647-680 | A rollback switches to the latest deactivated release and makes the one left the next choice |
| VersionStore.Manager.InstallVersion | src/sluicery/downloader/version.py:279-343 | Installing reuses, builds, records and activates as the state function says |
| VersionStore.Manager.UseVersion | src/sluicery/downloader/version.py:346-364 | Switching, and its three refusals |
| VersionStore.Manager.RemoveVersion | src/sluicery/downloader/version.py:367-385 | Removing, refusing the current version |
| VersionStore.Manager.PruneOldVersions | src/sluicery/downloader/version.py:388-423 | The removal loop leaves exactly the pruned store |
| Integrity.UpdateMakesNoCollision | src/sluicery/core/integrity.py:300-327 | Whatever the decisions and however the database changed since the snapshot, two artifacts share a path afterwards only if they did before |
| Integrity.ApplySettles | src/sluicery/core/integrity.py:255-354 | Against a steady database every decision is applied, and no relink is refused |
| Integrity.Checker.ApplyDecisions | src/sluicery/core/integrity.py:297-380 | The two loops leave exactly the updated database |
| IntegrityFixpoint.DecidedAgain | src/sluicery/core/integrity.py:174-253 | A second check decides present for present and relinked artifacts and missing for missing ones |
| IntegrityFixpoint.CheckTwice | src/sluicery/core/integrity.py:174-380 | A second check against the unchanged storages, in any order, changes no artifact and no target row |
| IntegrityFixpoint.TargetsFollow | src/sluicery/core/integrity.py:356-380 | After a check no settled target is downloaded with a file missing or missing with none; the policy decides what a loss means; other targets stay |
| IntegrityOutcome.CheckOutcome | src/sluicery/core/integrity.py:174-354 | After a check of steady storages a checked artifact is flagged missing exactly when the path it then has does not exist, since the first check that found it lost; its path changes exactly when it was lost and one untracked listed file alone carries its id, which no other lost artifact may take, and then to that file; without an answer nothing changes |
| IntegrityOutcome.TargetOutcome | src/sluicery/core/integrity.py:356-380 | The status of every target after it, by its files, its status and the policy |
| IntegrityOutcome.CarriesExactly | src/sluicery/core/integrity.py:75-78 | A file carries an id exactly when the last component of its path is some text, the id in brackets, and one or more groups of a dot and text without dots |
| IntegrityOutcome.AskedAgain | src/sluicery/core/integrity.py:255-296 | Asked again, a file that is back is present, a loss stands while it is away, a relink while the file found is there; nothing else is written |
| IntegrityOutcome.ChangedIsLeft | src/sluicery/core/integrity.py:300-315 | Whatever was decided, an artifact that changed since the snapshot, or whose target did, is left as it is |
| IntegrityOutcome.UnchangedIsSettled | src/sluicery/core/integrity.py:316-354 | Of an unchanged one the decision is carried out, save a relink to a path another artifact has by now |
| IntegrityFixpoint.MatchesExactly | src/sluicery/core/integrity.py:75-78 | A file matches a source id exactly when its name is some text, the bracketed id, and then only extensions |
| IntegrityFixpoint.FailedStorageUntouched | src/sluicery/core/integrity.py:178-217 | A storage whose first pass or scan fails leaves its artifacts untouched |
| IntegrityFixpoint.ManualLinkCollidesNothing | src/sluicery/core/integrity.py:442-484 | Linking by hand creates no collision |
| IntegrityFixpoint.ManualLinkSettles | src/sluicery/core/integrity.py:466-484 | A link makes the target downloaded exactly when none of its files is missing any more, and touches nothing else |
| IntegrityOutcome.LinkAcceptedExactly | src/sluicery/core/integrity.py:442-508 | A link by hand is accepted exactly for a missing artifact and an existing file no other artifact of the storage has; an undo exactly after a link |
| IntegrityOutcome.LinkLeaves | src/sluicery/core/integrity.py:466-484 | The whole database after a link |
| IntegrityOutcome.UndoLeaves | src/sluicery/core/integrity.py:487-508 | The whole database after an undo: the old path, missing from now on, and the target missing |
| IntegrityFixpoint.UndoCollidesExactly | src/sluicery/core/integrity.py:487-508 | Undoing a link creates a collision iff another artifact of the storage has taken the previous path |
| IntegrityFixpoint.UndoCollides | src/sluicery/core/integrity.py:442-508 | From any database without collisions, two links by hand of missing artifacts of one storage and one undo create one |
| IntegrityFixpoint.UndoInvertsLink | src/sluicery/core/integrity.py:487-508 | Undo gives the artifact its path back, missing as before, and changes no other artifact |
| Retention.BuildRetentionPlan | src/sluicery/core/retention.py:162-270 | The planner's pass over the rows computes the plan function |
| Retention.GuardsHold | src/sluicery/core/retention.py:263-270 | A plan may run iff it deletes at most the limit, at most half of the artifacts, and only files with a strong identity |
| Retention.KeptCount | src/sluicery/core/retention.py:189-199 | keep_latest keeps exactly min(k, n) items |
| Retention.KeepLatestSelects | src/sluicery/core/retention.py:189-217 | A kept item loses nothing and outranks every item that loses an artifact |
| Retention.KeptExactly | src/sluicery/core/retention.py:189-199 | An item is kept exactly when fewer than k items outrank it |
| Retention.SelectionExactly | src/sluicery/core/retention.py:189-217 | For any policy: exactly the downloaded artifacts of items outranked by k others or uploaded before the age limit are candidates |
| Retention.KeepLatestExactly | src/sluicery/core/retention.py:188-201 | Under keep_latest alone an artifact is a candidate exactly when it is downloaded and at least as many items as are kept have a later date, or the same date and a smaller playlist index, or the same and a greater id; without a date an item counts as 99999999 |
| Retention.LaterIsKept | src/sluicery/core/retention.py:188-201 | So no item loses an artifact while one behind it in this order keeps one |
| Retention.PlannedExactly | src/sluicery/core/retention.py:162-187 | There is no plan without a positive limit, and an empty one while retention is off |
| RetentionAudit.NoUnfinishedIntent | src/sluicery/tasks/worker.py:45-68 | The worker's scanning loop |
| RetentionAudit.OpenIntentIsLast | src/sluicery/core/retention.py:547-581 | A log an execution leaves has at most one open intent, and it is the last record |
| RetentionAudit.ScannersAgree | src/sluicery/core/retention.py:404-447 | On every log an execution can leave, at any crash point, both scanners agree and accept exactly the complete, untorn logs within 1 MiB whose paths do not break lines |
| RetentionAudit.FinishedLogAccepted | src/sluicery/core/retention.py:404-447 | Of the logs of executions that came to their end exactly those above 1 MiB or with a path holding U+0085, U+2028 or U+2029 are refused |
| RetentionAudit.ScannersDifferElsewhere | src/sluicery/core/retention.py:425-440 | On a log with a completion before its intent they differ |
| RetentionAudit.DeleteFile | src/sluicery/storage/local.py:553-603 | A file is unlinked only with its expected identity; otherwise every file is kept and nothing put in its place is overwritten; undisturbed it is unlinked exactly when the quarantine is free and in the same directory, the identity fits and the unlink works |
| RetentionAudit.RemainingExactly | src/sluicery/core/retention.py:532-581 | Without the files of some candidates exactly the files at other storages and paths remain, unchanged |
| RetentionAudit.CompletesExactly | src/sluicery/core/retention.py:378-390 | A plan can be carried through iff no two of its artifacts belong to one target |
| RetentionAudit.TurnExactly | src/sluicery/core/retention.py:378-402 | A deletion is recorded exactly while target, storage and path of the artifact are as planned and the target is downloaded; then the artifact goes and the target no longer counts as downloaded |
| RetentionAudit.Executor.ExecuteRetention | src/sluicery/core/retention.py:532-606 | Wherever it stops: its log is one the scanners agree on, each closed pair is a file unlinked with its identity, the rows are those of the counted deletions, and undisturbed the files left are all but the unlinked ones, save one that a death may leave in its quarantine |
| RetentionAudit.Executor.RetainConfirmed | src/sluicery/core/retention.py:461-501 | A plan that is not deletable, empty or no longer matches its rows is refused with nothing changed; otherwise it is executed, and of a plan the planner built it unlinks at most the limit and at most half of the artifacts |
| Discovery.Discoverer.ApplyDiscovery | src/sluicery/core/sync.py:288-347 | The loops leave exactly the applied listing; empty and dry runs change nothing |
| Discovery.DiscoveryIsExact | src/sluicery/core/sync.py:288-347 | Active ids equal the discovered ones, nothing is removed, and exactly the new items gain one target per assignment |
| Discovery.DiscoveryCarries | src/sluicery/core/sync.py:322-334 | Each item's data, last sighting and delisting time afterwards |
| Discovery.StatsAreTheChange | src/sluicery/core/sync.py:306-321 | The reported numbers are the real change |
| Discovery.DiscoveryTwice | src/sluicery/core/sync.py:288-347 | The same entries again report zero and change only the time of the last sighting |
| Discovery.LastEntryWins | src/sluicery/core/sync.py:299-301 | Of several entries with one id the last decides |
| Discovery.DiscoveredExactly | src/sluicery/core/sync.py:299-301 | The ids discovered are those some entry has, other than the empty one, each with its last entry |
| TargetState.WalkAllowed | src/sluicery/core/target_state.py:80-112 | A walk uses allowed edges only, omits no stage and ends where it was asked to |
| TargetState.WalkRejected | src/sluicery/core/target_state.py:80-112 | Exactly when a walk is rejected |
| TargetState.Row.Transition | src/sluicery/core/target_state.py:45-77 | A move succeeds iff the table allows it |
| TargetState.Row.Advance | src/sluicery/core/target_state.py:80-112 | The loop takes exactly the walk's statuses, and a rejected request changes nothing |
| TargetState.SyncedIsAllowed | src/sluicery/core/target_state.py:148-202 | A settled task moves its target along allowed edges, leaves finished targets alone and counts at most one retry |
| TargetState.SyncedOnce | src/sluicery/core/target_state.py:148-202 | Settling the same outcome again changes nothing |
| TargetState.EdgesExactly | src/sluicery/core/target_state.py:24-42 | The allowed moves: forward to the next stage only, a download may be lost, failed, blocked and lost ones start over, and four holding statuses are open to all |
| TargetState.WalkExactly | src/sluicery/core/target_state.py:80-112 | A walk passes through all stages up to the one asked for, from the first again after a failure or block |
| TargetState.SyncedExactly | src/sluicery/core/target_state.py:148-202 | Which outcome of a task moves which target where, with which message, and when a retry is counted |
| ConfigImport.Importer.ImportEntries | src/sluicery/core/config_transfer.py:583-664 | The loop over one table computes the import function |
| ConfigImportResults.ImportDoesThePlan | src/sluicery/core/config_transfer.py:568-714 | A plan shown for one state and confirmed in another is carried out exactly when planning again gives the same plan, and counts what the plan shown counts |
| ConfigImportResults.SuccessCounts | src/sluicery/core/config_transfer.py:580-714 | Any import that succeeds, mixed references or not, counts what its preview counts |
| ConfigImportResults.ImportCarriesDocument | src/sluicery/core/config_transfer.py:596-707 | After any import that succeeds every row and setting of the document is in the database and rows it does not name are as they were; without mixed references every assignment is where its references say |
| ConfigImportOutcome.ImportOutcome | src/sluicery/core/config_transfer.py:583-707 | After any import that succeeds, by the old rows, the entries and the mode alone: each entry's row, kept, overwritten without its folder, or created; rows no entry names; the number of new rows; and every setting |
| ConfigImportOutcome.LinkOutcome | src/sluicery/core/config_transfer.py:666-696 | Without mixed references each assignment joins its own playlist, profile and storage; only a skip import leaves the one alone that joined the first two before |
| ConfigImportOutcome.ImportCounts | src/sluicery/core/config_transfer.py:580-714 | An import that succeeds reports how many rows its preview creates, overwrites and skips, and these are all rows of the document |
| ConfigImportOutcome.PreviewExactly | src/sluicery/core/config_transfer.py:465-560 | Which action the preview announces for which entry and setting, table after table |
| ConfigImportResults.FoldersKept | src/sluicery/core/config_transfer.py:649-658 | Whatever valid document is imported, an existing playlist keeps its folder name and place in every mode |
| ConfigImportResults.SkipChangesNothing | src/sluicery/core/config_transfer.py:591-595 | Skipping changes no row that was there, mixed references or not |
| ConfigImportResults.SecondSkipIsAllSkips | src/sluicery/core/config_transfer.py:465-472 | After a skip import that succeeds a second one of the same document is accepted and is all skips, mixed references or not |
| ConfigImportResults.ReimportRefusedExactly | src/sluicery/core/config_transfer.py:458-462 | After any import that succeeds the same document is refused exactly when rows were created over existing names |
| ConfigImportResults.UnmixedLinksAsNamed | src/sluicery/core/config_transfer.py:666-696 | Without mixed references every new assignment joins a profile and a storage the document names, in every database and mode |
| ConfigImportResults.MixedMislinks | src/sluicery/core/config_transfer.py:209-241 | Every valid document with a mixed reference has a database into which importing it fails or links what it does not name |
| Throttle.ProgressThrottler.ShouldWrite | src/sluicery/tasks/progress.py:24-41 | The decision and the memory it leaves |
| Throttle.AmortisedBound | src/sluicery/tasks/progress.py:24-41 | Writes that are not final number at most 2 + span/interval + 100/step for every orderly call sequence |
| Throttle.WrittenExactly | src/sluicery/tasks/progress.py:24-41 | A call is written exactly when it is final, an interval after the last one written, or a step above the percentage last written; the first of either kind always is |
| Throttle.CountIsWritten | src/sluicery/tasks/progress.py:24-41 | The writes the bound counts are those |

## Left out

- Web pages, command-line modules, authentication, cookies, templates and event hooks: request plumbing.
- Log journals, signed tokens, fingerprints and hashes: a fingerprint is taken as the value itself.
- The remote-or-mount flag of a candidate and the display texts of blocked reasons.
- Threads, signals, heartbeat timing and the choice of a handler: a handler is any source of outcomes.
- Worker.StaleTaskReaper.RunOnce: the discover run a given-up task closes is left out; closing it is the FinishDiscover step of PlaylistExclusion.
- A process that dies before its cancel_descendants call never makes it: the result about dead subtrees is for states in which every call has finished.
- Task payloads, progress and log excerpts.
- The storage pre-check of queue_download_phase and its ordering of candidates: a download run enqueues any set of targets, each at most once, in any order.
- PlaylistExclusion.LiveTasksOfOneRun: tasks without a run are not counted, because every task the application enqueues carries one.
- VersionStore.Manager.PruneOldVersions: returns the removed versions as a set; the order of the returned list is not modelled.
- Retention.KeepLatestSelects: states keep_latest alone; the age rule needs a calendar, so items carry their upload day as parsed.
- RetentionAudit.Executor.ExecuteRetention: rows are changed by nobody else during the execution, except that a turn may end because its row changed.
- RetentionAudit.DeleteFile: a change of the file between its inspection in quarantine and the unlink is not modelled.
- ConfigImportResults.ImportCarriesDocument: field conversion, paused and credential columns are carried as one value per row.
- Discovery.Discoverer.ApplyDiscovery: a playlist that vanished meanwhile (a rollback) is not modelled.
- Download, verify, postprocess, publish and index handlers, publish and hard links of the storages, backup, and cron arithmetic.
