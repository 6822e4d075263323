/**
 Runs of the folder-move system that the conditions of its results shut out: moving on to a name the
 template cannot tell from the current one, and reading a stale intent after the current one. The playlist
 has one artifact, so every state of these runs is written out.
 */
module FolderMoveLimits {
  import opened Common
  import opened Naming
  import opened Layout
  import opened FolderPlan
  import opened FolderMove
  import opened FolderMoveSafety
  import opened FolderMoveResume
  import opened FolderMoveComplete
  import opened FolderMoveStrand

  // ---- a playlist with one artifact ----

  /** No process, and the artifact's file somewhere in its storage. */
  function Solo(
    playlist: Playlist, row: Artifact, file: File, at: Path, runs: seq<Run>, clock: nat, plans: set<Plan>): System
  {
    System(World(Catalog(playlist, [row]), runs, map[(row.storageId, at) := file], clock), plans, Idle)
  }

  /** The artifact moves to `there` with the new folder name. */
  ghost predicate Travels(playlist: Playlist, row: Artifact, file: File, newName: string, there: Path) {
    && IsClean(newName) && newName != playlist.folderName && there != row.path
    && row.assignmentStorageId == row.storageId && (row.filesize.Some? ==> file.size == row.filesize)
    && RowPrefix(playlist, row, playlist.folderName).Prefix? && RowPrefix(playlist, row, newName).Prefix?
    && Destination(playlist, row, playlist.folderName, newName) == Some(there)
  }

  function SoloCandidate(row: Artifact, file: File, there: Path): Candidate {
    Candidate(0, row.storageId, row.path, there, row.updatedAt, row.links, Some(RemoteFile(row.path, file)), false)
  }

  function SoloPlan(playlist: Playlist, row: Artifact, file: File, newName: string, there: Path): Plan {
    Plan(playlist.folderName, newName, playlist.updatedAt, [SoloCandidate(row, file, there)], 0, [], [])
  }

  lemma {:induction false} NothingToRecover(runs: seq<Run>, n: nat, oldName: string, newName: string)
    requires NoneRunning(runs) && n <= |runs|
    ensures RecoveryRuns(runs, n, oldName, newName) == []
  {
    if n > 0 {
      NothingToRecover(runs, n - 1, oldName, newName);
      assert runs[n - 1] in runs;
    }
  }

  lemma SoloInspected(
    playlist: Playlist, row: Artifact, file: File, runs: seq<Run>, clock: nat, newName: string, there: Path,
    intents: map<nat, (nat, Candidate)>)
    requires Travels(playlist, row, file, newName, there)
    ensures var w := Solo(playlist, row, file, row.path, runs, clock, {}).world;
            PlanRow(w, newName, intents, {}, 0, Draft([], [], 0, {}))
            == Some(Draft([SoloCandidate(row, file, there)], [], 0, {(row.storageId, there)}))
  {
    var w := Solo(playlist, row, file, row.path, runs, clock, {}).world;
    assert w.catalog.artifacts[0] == row && (row.storageId, there) !in w.tree;
    assert Inspect(w.tree, {}, intents, 0, row, there) == Inspection(Some(RemoteFile(row.path, file)), false, None);
    var c := CandidateFor(0, row, there, Inspection(Some(RemoteFile(row.path, file)), false, None));
    var none: seq<(nat, Reason)> := [];
    assert [] + [c] == [c] && none + none == none;
    assert {} + {(row.storageId, there)} == {(row.storageId, there)};
  }

  lemma SoloPlanned(
    playlist: Playlist, row: Artifact, file: File, runs: seq<Run>, clock: nat, newName: string, there: Path,
    order: seq<nat>)
    requires Travels(playlist, row, file, newName, there) && NoneRunning(runs)
    ensures var w := Solo(playlist, row, file, row.path, runs, clock, {}).world;
            BuildPlan(w, newName, order, {}) == Ok(SoloPlan(playlist, row, file, newName, there))
  {
    var w := Solo(playlist, row, file, row.path, runs, clock, {}).world;
    var intents := PendingIntents(runs, order, playlist.folderName, newName);
    var c := SoloCandidate(row, file, there);
    SoloInspected(playlist, row, file, runs, clock, newName, there, intents);
    assert PlanRows(w, newName, intents, {}, 0) == Some(Draft([], [], 0, {}));
    assert PlanRows(w, newName, intents, {}, 1) == Some(Draft([c], [], 0, {(row.storageId, there)}));
    NothingToRecover(runs, |runs|, playlist.folderName, newName);
  }

  // ---- one candidate, and what becomes of it ----

  function Opening(plan: Plan, order: seq<nat>): seq<Step> {
    [Preview(plan.newName, order, {}), Start(plan, false), PersistIntent(true)]
  }

  function SoloRun(status: RunStatus, plan: Plan, moved: nat, intent: Option<Candidate>, reason: Option<string>): Run {
    Run(FolderMove, status, Some(RunStats(plan, moved, intent, reason)))
  }

  /** Previewed, confirmed, intent persisted. */
  function SoloIntended(
    playlist: Playlist, row: Artifact, file: File, runs: seq<Run>, clock: nat, plans: set<Plan>, plan: Plan): System
    requires |plan.candidates| > 0
  {
    var running := SoloRun(Running, plan, 0, Some(plan.candidates[0]), None);
    var s := Solo(playlist, row, file, row.path, runs + [running], clock, plans + {plan});
    s.(process := Active(|runs|, plan, 0, Intended))
  }

  lemma SoloStarts(
    playlist: Playlist, row: Artifact, file: File, runs: seq<Run>, clock: nat, plans: set<Plan>, plan: Plan)
    requires |plan.candidates| == 1
             && plan == SoloPlan(playlist, row, file, plan.newName, plan.candidates[0].destination)
    requires plan.newName != playlist.folderName && row.assignmentStorageId == row.storageId && NoneRunning(runs)
    ensures Apply(Apply(Solo(playlist, row, file, row.path, runs, clock, plans + {plan}), Start(plan, false)),
            PersistIntent(true))
         == SoloIntended(playlist, row, file, runs, clock, plans, plan)
  {
    var s := Solo(playlist, row, file, row.path, runs, clock, plans + {plan});
    var running := SoloRun(Running, plan, 0, None, None);
    var intended := SoloRun(Running, plan, 0, Some(plan.candidates[0]), None);
    assert forall c <- plan.candidates :: CandidateRowsMatch(s.world, c);
    assert StartRun(s.world, plan, false) == Some(s.world.(runs := runs + [running]));
    assert (runs + [running])[|runs| := intended] == runs + [intended];
  }

  /** One run after another. */
  lemma Joined(s: System, first: seq<Step>, middle: System, second: seq<Step>, last: System)
    requires Execute(s, first) == middle && Execute(middle, second) == last
    ensures Execute(s, first + second) == last
  {
    ExecuteConcat(s, first, second);
  }

  lemma SoloOpens(
    playlist: Playlist, row: Artifact, file: File, runs: seq<Run>, clock: nat, plans: set<Plan>, newName: string,
    there: Path, order: seq<nat>)
    requires Travels(playlist, row, file, newName, there) && NoneRunning(runs)
    ensures var plan := SoloPlan(playlist, row, file, newName, there);
            Execute(Solo(playlist, row, file, row.path, runs, clock, plans), Opening(plan, order))
            == SoloIntended(playlist, row, file, runs, clock, plans, plan)
  {
    var plan := SoloPlan(playlist, row, file, newName, there);
    var s := Solo(playlist, row, file, row.path, runs, clock, plans);
    SoloPlanned(playlist, row, file, runs, clock, newName, there, order);
    assert s.world == Solo(playlist, row, file, row.path, runs, clock, {}).world;
    SoloStarts(playlist, row, file, runs, clock, plans, plan);
    ExecuteThree(s, Preview(newName, order, {}), Start(plan, false), PersistIntent(true));
  }

  /** The file moves, its answer is lost, recording it raises, and the failure is recorded. */
  function Interruption(plan: Plan, order: seq<nat>): seq<Step> {
    Opening(plan, order) + [Relocate(LostResponse), Raise(true), RecordFailure]
  }

  lemma SoloInterrupted(
    playlist: Playlist, row: Artifact, file: File, runs: seq<Run>, clock: nat, plans: set<Plan>, newName: string,
    there: Path, order: seq<nat>)
    requires Travels(playlist, row, file, newName, there) && NoneRunning(runs)
    ensures var plan := SoloPlan(playlist, row, file, newName, there);
            var failed := SoloRun(Failed, plan, 0, Some(plan.candidates[0]), Some("folder_move_failed"));
            Execute(Solo(playlist, row, file, row.path, runs, clock, plans), Interruption(plan, order))
            == Solo(playlist, row, file, there, runs + [failed], clock, plans + {plan})
  {
    var plan := SoloPlan(playlist, row, file, newName, there);
    var s := SoloIntended(playlist, row, file, runs, clock, plans, plan);
    SoloOpens(playlist, row, file, runs, clock, plans, newName, there, order);
    ExecuteConcat(Solo(playlist, row, file, row.path, runs, clock, plans), Opening(plan, order),
                  [Relocate(LostResponse), Raise(true), RecordFailure]);
    ExecuteThree(s, Relocate(LostResponse), Raise(true), RecordFailure);
    SoloMoves(playlist, row, file, runs, clock, plans, plan, there, LostResponse);
    SoloFails(playlist, row, file, runs, clock, plans, plan, there);
  }

  /** An exception between the storage calls and the commit, and its handler. */
  lemma SoloFails(
    playlist: Playlist, row: Artifact, file: File, runs: seq<Run>, clock: nat, plans: set<Plan>, plan: Plan,
    there: Path)
    requires |plan.candidates| > 0
    ensures var runs1 := runs + [SoloRun(Running, plan, 0, Some(plan.candidates[0]), None)];
            var moved := Solo(playlist, row, file, there, runs1, clock, plans + {plan})
                         .(process := Active(|runs|, plan, 0, Phase.Relocated));
            var failed := SoloRun(Failed, plan, 0, Some(plan.candidates[0]), Some("folder_move_failed"));
            Apply(Apply(moved, Raise(true)), RecordFailure)
            == Solo(playlist, row, file, there, runs + [failed], clock, plans + {plan})
  {
    var runs1 := runs + [SoloRun(Running, plan, 0, Some(plan.candidates[0]), None)];
    var failed := SoloRun(Failed, plan, 0, Some(plan.candidates[0]), Some("folder_move_failed"));
    assert runs1[|runs| := failed] == runs + [failed];
  }

  lemma SoloMoves(
    playlist: Playlist, row: Artifact, file: File, runs: seq<Run>, clock: nat, plans: set<Plan>, plan: Plan,
    there: Path,
    outcome: MoveOutcome)
    requires plan.candidates == [SoloCandidate(row, file, there)] && there != row.path && outcome != Refused
    ensures var s := SoloIntended(playlist, row, file, runs, clock, plans, plan);
            Apply(s, Relocate(outcome))
            == Solo(playlist, row, file, there, s.world.runs, clock, s.plans)
               .(process := Active(|runs|, plan, 0, Phase.Relocated))
  {
    var source, target := row.Location(), (row.storageId, there);
    assert Rename(map[source := file], source, target) == map[target := file];
  }

  /** The row as a commit leaves it. */
  function RowAt(row: Artifact, there: Path, version: nat): Artifact { row.(path := there, updatedAt := version) }

  /** The file moves, and recording it takes effect although the commit raises; the failure is recorded. */
  function Unanswered(plan: Plan, order: seq<nat>): seq<Step> {
    Opening(plan, order) + [Relocate(Done), Commit(false), RecordFailure]
  }

  lemma SoloUnanswered(
    playlist: Playlist, row: Artifact, file: File, runs: seq<Run>, clock: nat, plans: set<Plan>, newName: string,
    there: Path, order: seq<nat>)
    requires Travels(playlist, row, file, newName, there) && NoneRunning(runs)
    ensures var plan := SoloPlan(playlist, row, file, newName, there);
            var failed := SoloRun(Failed, plan, 0, Some(plan.candidates[0]), Some("folder_move_failed"));
            Execute(Solo(playlist, row, file, row.path, runs, clock, plans), Unanswered(plan, order))
            == Solo(playlist, RowAt(row, there, clock + 1), file, there, runs + [failed], clock + 1, plans + {plan})
  {
    var plan := SoloPlan(playlist, row, file, newName, there);
    var s := SoloIntended(playlist, row, file, runs, clock, plans, plan);
    SoloOpens(playlist, row, file, runs, clock, plans, newName, there, order);
    ExecuteConcat(Solo(playlist, row, file, row.path, runs, clock, plans), Opening(plan, order),
                  [Relocate(Done), Commit(false), RecordFailure]);
    ExecuteThree(s, Relocate(Done), Commit(false), RecordFailure);
    SoloMoves(playlist, row, file, runs, clock, plans, plan, there, Done);
    SoloCommits(playlist, row, file, runs, clock, plans, plan, there, false);
    SoloHandles(playlist, RowAt(row, there, clock + 1), file, runs, clock + 1, plans, plan);
  }

  /** The exception of a commit that took effect, and its handler. */
  lemma SoloHandles(
    playlist: Playlist, row: Artifact, file: File, runs: seq<Run>, clock: nat, plans: set<Plan>, plan: Plan)
    requires |plan.candidates| > 0
    ensures var s :=
              Solo(playlist, row, file, row.path, runs + [SoloRun(Running, plan, 1, None, None)], clock, plans + {plan})
                     .(process := Active(|runs|, plan, 0, Raised(Some(plan.candidates[0]))));
            var failed := SoloRun(Failed, plan, 0, Some(plan.candidates[0]), Some("folder_move_failed"));
            Apply(s, RecordFailure) == Solo(playlist, row, file, row.path, runs + [failed], clock, plans + {plan})
  {
    var running := SoloRun(Running, plan, 1, None, None);
    var failed := SoloRun(Failed, plan, 0, Some(plan.candidates[0]), Some("folder_move_failed"));
    assert (runs + [running])[|runs| := failed] == runs + [failed];
  }

  lemma SoloCommits(
    playlist: Playlist, row: Artifact, file: File, runs: seq<Run>, clock: nat, plans: set<Plan>, plan: Plan,
    there: Path,
    acknowledged: bool)
    requires plan.candidates == [SoloCandidate(row, file, there)] && row.assignmentStorageId == row.storageId
    ensures var s := SoloIntended(playlist, row, file, runs, clock, plans, plan);
            var moved := Solo(playlist, row, file, there, s.world.runs, clock, s.plans)
                         .(process := Active(|runs|, plan, 0, Phase.Relocated));
            Apply(moved, Commit(acknowledged))
            == Solo(playlist, RowAt(row, there, clock + 1), file, there, runs + [SoloRun(Running, plan, 1, None, None)],
                    clock + 1, s.plans)
               .(process := Active(|runs|, plan, if acknowledged then 1 else 0,
                                   if acknowledged then Ready else Raised(Some(plan.candidates[0]))))
  {
    var s := SoloIntended(playlist, row, file, runs, clock, plans, plan);
    var moved := Solo(playlist, row, file, there, s.world.runs, clock, s.plans)
                 .(process := Active(|runs|, plan, 0, Phase.Relocated));
    var after := Apply(moved, Commit(acknowledged));
    assert after.world.runs == runs + [SoloRun(Running, plan, 1, None, None)];
    assert after.world.catalog.artifacts == [RowAt(row, there, clock + 1)];
  }

  /** The playlist under its new name. */
  function RenamedTo(playlist: Playlist, newName: string, version: nat): Playlist {
    playlist.(folderName := newName, updatedAt := version)
  }

  /** The whole move without a fault. */
  function Undisturbed(plan: Plan, order: seq<nat>): seq<Step> {
    Opening(plan, order) + [Relocate(Done), Commit(true), Finish(true)]
  }

  lemma SoloUndisturbed(
    playlist: Playlist, row: Artifact, file: File, runs: seq<Run>, clock: nat, plans: set<Plan>, newName: string,
    there: Path, order: seq<nat>)
    requires Travels(playlist, row, file, newName, there) && NoneRunning(runs)
    ensures var plan := SoloPlan(playlist, row, file, newName, there);
            Execute(Solo(playlist, row, file, row.path, runs, clock, plans), Undisturbed(plan, order))
            == Solo(RenamedTo(playlist, newName, clock + 2), RowAt(row, there, clock + 1), file, there,
                    runs + [SoloRun(Succeeded, plan, 1, None, None)], clock + 2, plans + {plan})
  {
    var plan := SoloPlan(playlist, row, file, newName, there);
    var s := SoloIntended(playlist, row, file, runs, clock, plans, plan);
    SoloOpens(playlist, row, file, runs, clock, plans, newName, there, order);
    ExecuteConcat(Solo(playlist, row, file, row.path, runs, clock, plans), Opening(plan, order),
                  [Relocate(Done), Commit(true), Finish(true)]);
    ExecuteThree(s, Relocate(Done), Commit(true), Finish(true));
    SoloMoves(playlist, row, file, runs, clock, plans, plan, there, Done);
    SoloCommits(playlist, row, file, runs, clock, plans, plan, there, true);
    SoloFinishes(playlist, RowAt(row, there, clock + 1), file, runs, clock + 1, plans, plan);
  }

  lemma SoloFinishes(
    playlist: Playlist, row: Artifact, file: File, runs: seq<Run>, clock: nat, plans: set<Plan>, plan: Plan)
    requires |plan.candidates| == 1 && plan.oldName == playlist.folderName
             && plan.playlistUpdatedAt == playlist.updatedAt
    ensures var s :=
              Solo(playlist, row, file, row.path, runs + [SoloRun(Running, plan, 1, None, None)], clock, plans + {plan})
                     .(process := Active(|runs|, plan, 1, Ready));
            Apply(s, Finish(true))
            == Solo(RenamedTo(playlist, plan.newName, clock + 1), row, file, row.path,
                    runs + [SoloRun(Succeeded, plan, 1, None, None)], clock + 1, plans + {plan})
  {
    var running, ended := SoloRun(Running, plan, 1, None, None), SoloRun(Succeeded, plan, 1, None, None);
    assert (runs + [running])[|runs| := ended] == runs + [ended];
  }

  // ---- a name that moves nothing ----

  /** The artifact has no destination under the new name. */
  ghost predicate Stays(playlist: Playlist, row: Artifact, newName: string) {
    && IsClean(newName) && newName != playlist.folderName && row.assignmentStorageId == row.storageId
    && RowPrefix(playlist, row, playlist.folderName).Prefix? && RowPrefix(playlist, row, newName).Prefix?
    && Destination(playlist, row, playlist.folderName, newName) == None
  }

  function EmptyPlan(playlist: Playlist, newName: string): Plan {
    Plan(playlist.folderName, newName, playlist.updatedAt, [], 1, [], [])
  }

  /** The folder is renamed, wherever the file is. */
  lemma SoloRenamed(
    playlist: Playlist, row: Artifact, file: File, at: Path, runs: seq<Run>, clock: nat, plans: set<Plan>,
    newName: string,
    order: seq<nat>)
    requires Stays(playlist, row, newName) && NoneRunning(runs)
    ensures var plan := EmptyPlan(playlist, newName);
            Execute(Solo(playlist, row, file, at, runs, clock, plans), WholeRun(newName, order, {}, plan))
            == Solo(RenamedTo(playlist, newName, clock + 1), row, file, at,
                    runs + [SoloRun(Succeeded, plan, 0, None, None)], clock + 1, plans + {plan})
  {
    var plan := EmptyPlan(playlist, newName);
    var s := Solo(playlist, row, file, at, runs, clock, plans);
    NothingPlanned(playlist, row, file, at, runs, clock, newName, order);
    assert s.world == Solo(playlist, row, file, at, runs, clock, {}).world;
    EmptyRun(playlist, row, file, at, runs, clock, plans, plan);
    assert WholeRun(newName, order, {}, plan) == [Preview(newName, order, {}), Start(plan, false), Finish(true)];
    ExecuteThree(s, Preview(newName, order, {}), Start(plan, false), Finish(true));
  }

  lemma NothingPlanned(
    playlist: Playlist, row: Artifact, file: File, at: Path, runs: seq<Run>, clock: nat, newName: string,
    order: seq<nat>)
    requires Stays(playlist, row, newName) && NoneRunning(runs)
    ensures BuildPlan(Solo(playlist, row, file, at, runs, clock, {}).world, newName, order, {})
         == Ok(EmptyPlan(playlist, newName))
  {
    var w := Solo(playlist, row, file, at, runs, clock, {}).world;
    var intents := PendingIntents(runs, order, playlist.folderName, newName);
    assert w.catalog.artifacts[0] == row;
    assert PlanRows(w, newName, intents, {}, 0) == Some(Draft([], [], 0, {}));
    assert PlanRows(w, newName, intents, {}, 1) == Some(Draft([], [], 1, {}));
    NothingToRecover(runs, |runs|, playlist.folderName, newName);
  }

  lemma EmptyRun(
    playlist: Playlist, row: Artifact, file: File, at: Path, runs: seq<Run>, clock: nat, plans: set<Plan>, plan: Plan)
    requires plan == EmptyPlan(playlist, plan.newName) && plan.newName != playlist.folderName && NoneRunning(runs)
    ensures var s := Solo(playlist, row, file, at, runs, clock, plans + {plan});
            Apply(Apply(s, Start(plan, false)), Finish(true))
            == Solo(RenamedTo(playlist, plan.newName, clock + 1), row, file, at,
                    runs + [SoloRun(Succeeded, plan, 0, None, None)], clock + 1, plans + {plan})
  {
    var s := Solo(playlist, row, file, at, runs, clock, plans + {plan});
    var running, ended := SoloRun(Running, plan, 0, None, None), SoloRun(Succeeded, plan, 0, None, None);
    assert StartRun(s.world, plan, false) == Some(s.world.(runs := runs + [running]));
    assert (runs + [running])[|runs| := ended] == runs + [ended];
  }

  // ---- a file left behind ----

  /** The folder `COM` and its variant `_COM` under a template that puts a `1` after the folder name. */
  ghost predicate Numbered(playlist: Playlist, row: Artifact, file: File, other: string) {
    && playlist.folderName == "COM" && other == "_" + playlist.folderName
    && row.subpath == [FolderName, Literal("1")] && row.path == [other + "1", "f"]
    && row.assignmentStorageId == row.storageId && (row.filesize.Some? ==> file.size == row.filesize)
  }

  lemma NumberedPrefixes(playlist: Playlist, row: Artifact, port: string, other: string)
    requires port == "COM" && other == "_" + port && row.subpath == [FolderName, Literal("1")]
    ensures IsClean(port) && IsClean(other)
    ensures RowPrefix(playlist, row, port) == RowPrefix(playlist, row, other) == Prefix([other + "1"])
  {
    PrefixCollapseWitness(RowContext(playlist, row, port), other);
  }

  lemma PlainPrefix(playlist: Playlist, row: Artifact, name: string)
    requires name == "NEW" && row.subpath == [FolderName, Literal("1")]
    ensures IsClean(name) && RowPrefix(playlist, row, name) == Prefix([name + "1"])
  {
    PlainPath(name, name + "1");
    ResolveNumbered(RowContext(playlist, row, name));
  }

  lemma PlainPath(name: string, numbered: string)
    requires name == "NEW" && numbered == name + "1"
    ensures IsClean(name) && SanitizeRelativePath(numbered) == Some([numbered])
  {
    PlainName(name);
    PlainName(numbered);
    assert numbered[..3] == name;
    SingleSafePart(numbered, numbered);
  }

  lemma NumberedMoves(playlist: Playlist, row: Artifact, file: File, other: string, name: string)
    requires Numbered(playlist, row, file, other) && name == "NEW"
    ensures Travels(playlist, row, file, name, [name + "1", "f"]) && Stays(playlist, row, other)
  {
    NumberedPrefixes(playlist, row, playlist.folderName, other);
    PlainPrefix(playlist, row, name);
    assert (other + "1")[0] != (name + "1")[0];
    assert [other + "1"] <= row.path && row.path[1..] == ["f"];
    assert [name + "1"] + ["f"] == [name + "1", "f"];
  }

  /**
   The failing run, from a state without any earlier run: the move of `COM` to a third name is interrupted,
   and the folder is then moved on to `_COM`. The file is away from its path and no intent explains it.
   */
  lemma VariantStrands(playlist: Playlist, row: Artifact, file: File, clock: nat, other: string, name: string)
    requires Numbered(playlist, row, file, other) && name == "NEW"
    ensures var first := SoloPlan(playlist, row, file, name, [name + "1", "f"]);
            var steps := Interruption(first, []) + WholeRun(other, [0], {}, EmptyPlan(playlist, other));
            var w := Execute(Solo(playlist, row, file, row.path, [], clock, {}), steps).world;
            && w.catalog.playlist.folderName == other && w.catalog.artifacts == [row]
            && forall l :: !SafeAt(w, [file], 0, l)
  {
    NumberedMoves(playlist, row, file, other, name);
    OnwardRun(playlist, row, file, clock, other, name, [name + "1", "f"]);
  }

  /** An interrupted move to one name, then a move to a name under which the artifact stays. */
  lemma OnwardRun(
    playlist: Playlist, row: Artifact, file: File, clock: nat, other: string, name: string, there: Path)
    requires Travels(playlist, row, file, name, there) && Stays(playlist, row, other)
    ensures var first := SoloPlan(playlist, row, file, name, there);
            var steps := Interruption(first, []) + WholeRun(other, [0], {}, EmptyPlan(playlist, other));
            var w := Execute(Solo(playlist, row, file, row.path, [], clock, {}), steps).world;
            && w.catalog.playlist.folderName == other && w.catalog.artifacts == [row]
            && forall l :: !SafeAt(w, [file], 0, l)
  {
    var first, second := SoloPlan(playlist, row, file, name, there), EmptyPlan(playlist, other);
    var s := Solo(playlist, row, file, row.path, [], clock, {});
    var failed := SoloRun(Failed, first, 0, Some(first.candidates[0]), Some("folder_move_failed"));
    SoloInterrupted(playlist, row, file, [], clock, {}, name, there, []);
    assert [] + [failed] == [failed];
    SoloRenamed(playlist, row, file, there, [failed], clock, {} + {first}, other, [0]);
    ExecuteConcat(s, Interruption(first, []), WholeRun(other, [0], {}, second));
    LeftBehind(playlist, row, file, clock, other, there, failed, SoloRun(Succeeded, second, 0, None, None),
      {first} + {second});
  }

  lemma LeftBehind(
    playlist: Playlist, row: Artifact, file: File, clock: nat, other: string, there: Path, failed: Run, ended: Run,
    plans: set<Plan>)
    requires there != row.path && other != playlist.folderName && ended.Intent() == None
    requires failed.stats.Some? && failed.stats.value.oldName == playlist.folderName
    ensures var w :=
              Solo(RenamedTo(playlist, other, clock + 1), row, file, there, [failed] + [ended], clock + 1, plans).world;
            forall l :: !SafeAt(w, [file], 0, l)
  {
  }

  // ---- a stale intent read last ----

  /** Once recorded at its destination the artifact stays, and the reverse move brings it back. */
  lemma ThereAndBack(
    playlist: Playlist, row: Artifact, file: File, newName: string, there: Path, version: nat, version2: nat)
    requires Travels(playlist, row, file, newName, there) && IsClean(playlist.folderName)
    ensures Stays(playlist, RowAt(row, there, version), newName)
    ensures Travels(RenamedTo(playlist, newName, version2), RowAt(row, there, version), file, playlist.folderName,
            row.path)
  {
    var ctx := RowContext(playlist, row, playlist.folderName);
    PrefixDepth(row.subpath, ctx, newName);
    ReplacePrefixOnce(row.path, RowPrefix(playlist, row, playlist.folderName).path,
      RowPrefix(playlist, row, newName).path);
    var moved, renamed := RowAt(row, there, version), RenamedTo(playlist, newName, version2);
    assert forall f :: RowContext(playlist, moved, f) == RowContext(playlist, row, f) == RowContext(renamed, moved, f);
  }

  /** Only versions differ from the first time. */
  lemma TravelsAgain(
    playlist: Playlist, row: Artifact, file: File, newName: string, there: Path, version: nat, version2: nat)
    requires Travels(playlist, row, file, newName, there)
    ensures Travels(playlist.(updatedAt := version2), RowAt(row, row.path, version), file, newName, there)
  {
    var row2, playlist2 := RowAt(row, row.path, version), playlist.(updatedAt := version2);
    assert forall f :: RowContext(playlist, row, f) == RowContext(playlist2, row2, f);
  }

  /** Over, back, and over again. */
  datatype Legs = Legs(over: Plan, renaming: Plan, back: Plan, again: Plan)

  function LegsOf(playlist: Playlist, row: Artifact, file: File, newName: string, there: Path, clock: nat): Legs {
    var oldName := playlist.folderName;
    Legs(
      SoloPlan(playlist, row, file, newName, there),
      EmptyPlan(playlist, newName),
      SoloPlan(RenamedTo(playlist, newName, clock + 2), RowAt(row, there, clock + 1), file, oldName, row.path),
      SoloPlan(playlist.(updatedAt := clock + 4), RowAt(row, row.path, clock + 3), file, newName, there))
  }

  function FailedOn(plan: Plan): Run
    requires |plan.candidates| > 0
  {
    SoloRun(Failed, plan, 0, Some(plan.candidates[0]), Some("folder_move_failed"))
  }

  function LegRuns(legs: Legs): seq<Run>
    requires |legs.over.candidates| > 0 && |legs.again.candidates| > 0
  {
    [FailedOn(legs.over), SoloRun(Succeeded, legs.renaming, 0, None, None),
     SoloRun(Succeeded, legs.back, 1, None, None), FailedOn(legs.again)]
  }

  /** The first way over, whose commit was not answered, and the run that then renames the folder. */
  lemma FirstLeg(playlist: Playlist, row: Artifact, file: File, newName: string, there: Path, clock: nat)
    requires Travels(playlist, row, file, newName, there) && IsClean(playlist.folderName)
    ensures var legs := LegsOf(playlist, row, file, newName, there, clock);
            Execute(Solo(playlist, row, file, row.path, [], clock, {}),
                    Unanswered(legs.over, []) + WholeRun(newName, [0], {}, legs.renaming))
            == Solo(RenamedTo(playlist, newName, clock + 2), RowAt(row, there, clock + 1), file, there,
                    LegRuns(legs)[..2], clock + 2, {legs.over, legs.renaming})
  {
    var legs := LegsOf(playlist, row, file, newName, there, clock);
    var s, away := Solo(playlist, row, file, row.path, [], clock, {}), RowAt(row, there, clock + 1);
    SoloUnanswered(playlist, row, file, [], clock, {}, newName, there, []);
    ThereAndBack(playlist, row, file, newName, there, clock + 1, clock + 2);
    assert [] + [FailedOn(legs.over)] == LegRuns(legs)[..1]
           && LegRuns(legs)[..1] + [LegRuns(legs)[1]] == LegRuns(legs)[..2];
    assert {} + {legs.over} == {legs.over} && {legs.over} + {legs.renaming} == {legs.over, legs.renaming};
    SoloRenamed(playlist, away, file, there, LegRuns(legs)[..1], clock + 1, {legs.over}, newName, [0]);
    Joined(s, Unanswered(legs.over, []), Solo(playlist, away, file, there, LegRuns(legs)[..1], clock + 1, {legs.over}),
           WholeRun(newName, [0], {}, legs.renaming),
           Solo(RenamedTo(playlist, newName, clock + 2), away, file, there, LegRuns(legs)[..2], clock + 2,
             {legs.over, legs.renaming}));
  }

  /** The way back, and the second way over, interrupted between move and commit. */
  lemma SecondLeg(
    playlist: Playlist, row: Artifact, file: File, newName: string, there: Path, clock: nat, plans: set<Plan>)
    requires Travels(playlist, row, file, newName, there) && IsClean(playlist.folderName)
    ensures var legs := LegsOf(playlist, row, file, newName, there, clock);
            var s := Solo(RenamedTo(playlist, newName, clock + 2), RowAt(row, there, clock + 1), file, there,
                          LegRuns(legs)[..2], clock + 2, plans);
            Execute(s, Undisturbed(legs.back, [0, 1]) + Interruption(legs.again, [0, 1, 2]))
            == Solo(playlist.(updatedAt := clock + 4), RowAt(row, row.path, clock + 3), file, there,
                    LegRuns(legs), clock + 4, plans + {legs.back} + {legs.again})
  {
    var legs := LegsOf(playlist, row, file, newName, there, clock);
    var runs := LegRuns(legs);
    var renamed, away := RenamedTo(playlist, newName, clock + 2), RowAt(row, there, clock + 1);
    var s := Solo(renamed, away, file, there, runs[..2], clock + 2, plans);
    ThereAndBack(playlist, row, file, newName, there, clock + 1, clock + 2);
    SoloUndisturbed(renamed, away, file, runs[..2], clock + 2, plans, playlist.folderName, row.path, [0, 1]);
    TravelsAgain(playlist, row, file, newName, there, clock + 3, clock + 4);
    assert runs[..2] + [runs[2]] == runs[..3] && runs[..3] + [runs[3]] == runs;
    SoloInterrupted(playlist.(updatedAt := clock + 4), RowAt(row, row.path, clock + 3), file, runs[..3], clock + 4,
                    plans + {legs.back}, newName, there, [0, 1, 2]);
    ExecuteConcat(s, Undisturbed(legs.back, [0, 1]), Interruption(legs.again, [0, 1, 2]));
  }

  function ThreeLegs(legs: Legs): seq<Step> {
    Unanswered(legs.over, []) + WholeRun(legs.over.newName, [0], {}, legs.renaming)
    + (Undisturbed(legs.back, [0, 1]) + Interruption(legs.again, [0, 1, 2]))
  }

  lemma LegIntents(legs: Legs, oldName: string, newName: string)
    requires |legs.over.candidates| > 0 && |legs.again.candidates| > 0
    requires legs.over.oldName == legs.again.oldName == oldName && legs.over.newName == legs.again.newName == newName
    requires legs.over.candidates[0].artifactId == legs.again.candidates[0].artifactId == 0
    ensures PendingIntents(LegRuns(legs), [0, 1, 2, 3], oldName, newName) == map[0 := (3, legs.again.candidates[0])]
    ensures PendingIntents(LegRuns(legs), [3, 2, 1, 0], oldName, newName) == map[0 := (0, legs.over.candidates[0])]
  {
    var runs := LegRuns(legs);
    assert [0, 1, 2, 3][..3] == [0, 1, 2] && [0, 1, 2][..2] == [0, 1] && [0, 1][..1] == [0] && [0][..0] == [];
    assert [3, 2, 1, 0][..3] == [3, 2, 1] && [3, 2, 1][..2] == [3, 2] && [3, 2][..1] == [3] && [3][..0] == [];
    assert PendingIntents(runs, [0], oldName, newName) == map[0 := (0, legs.over.candidates[0])];
    assert PendingIntents(runs, [0, 1], oldName, newName) == map[0 := (0, legs.over.candidates[0])];
    assert PendingIntents(runs, [0, 1, 2], oldName, newName) == map[0 := (0, legs.over.candidates[0])];
    assert PendingIntents(runs, [3], oldName, newName) == map[0 := (3, legs.again.candidates[0])];
    assert PendingIntents(runs, [3, 2], oldName, newName) == map[0 := (3, legs.again.candidates[0])];
    assert PendingIntents(runs, [3, 2, 1], oldName, newName) == map[0 := (3, legs.again.candidates[0])];
  }

  lemma AllLegs(playlist: Playlist, row: Artifact, file: File, newName: string, there: Path, clock: nat)
    requires Travels(playlist, row, file, newName, there) && IsClean(playlist.folderName)
    ensures var legs := LegsOf(playlist, row, file, newName, there, clock);
            Execute(Solo(playlist, row, file, row.path, [], clock, {}), ThreeLegs(legs))
            == Solo(playlist.(updatedAt := clock + 4), RowAt(row, row.path, clock + 3), file, there, LegRuns(legs),
                    clock + 4, {legs.over, legs.renaming} + {legs.back} + {legs.again})
  {
    var legs := LegsOf(playlist, row, file, newName, there, clock);
    var s := Solo(playlist, row, file, row.path, [], clock, {});
    FirstLeg(playlist, row, file, newName, there, clock);
    SecondLeg(playlist, row, file, newName, there, clock, {legs.over, legs.renaming});
    ExecuteConcat(s, Unanswered(legs.over, []) + WholeRun(newName, [0], {}, legs.renaming),
                  Undisturbed(legs.back, [0, 1]) + Interruption(legs.again, [0, 1, 2]));
  }

  /**
   A reachable state in which the order decides: moved there, back, and there again with an interruption, two
   runs hold an intent for the artifact. Read in id order the same name can be confirmed again; with the
   first run read last, the row is blocked as missing.
   */
  lemma OrderMatters(playlist: Playlist, row: Artifact, file: File, newName: string, there: Path, clock: nat)
    requires Travels(playlist, row, file, newName, there) && IsClean(playlist.folderName) && row.updatedAt <= clock
    ensures var legs := LegsOf(playlist, row, file, newName, there, clock);
            var w := Execute(Solo(playlist, row, file, row.path, [], clock, {}), ThreeLegs(legs)).world;
            var (inOrder, reversed) :=
              (BuildPlan(w, newName, [0, 1, 2, 3], {}), BuildPlan(w, newName, [3, 2, 1, 0], {}));
            && inOrder.Ok? && inOrder.value.Movable()
            && reversed.Ok? && reversed.value.blocked == [(0, SourceMissing)]
  {
    var legs := LegsOf(playlist, row, file, newName, there, clock);
    AllLegs(playlist, row, file, newName, there, clock);
    LegIntents(legs, playlist.folderName, newName);
    TravelsAgain(playlist, row, file, newName, there, clock + 3, clock + 4);
    AwayPlanned(playlist.(updatedAt := clock + 4), RowAt(row, row.path, clock + 3), file, LegRuns(legs), clock + 4,
                newName, there, [0, 1, 2, 3]);
    AwayPlanned(playlist.(updatedAt := clock + 4), RowAt(row, row.path, clock + 3), file, LegRuns(legs), clock + 4,
                newName, there, [3, 2, 1, 0]);
  }

  /** The plan for an artifact whose file is at its destination already depends on the intent that is found. */
  lemma AwayPlanned(
    playlist: Playlist, row: Artifact, file: File, runs: seq<Run>, clock: nat, newName: string, there: Path,
    order: seq<nat>)
    requires Travels(playlist, row, file, newName, there)
    ensures var shown := BuildPlan(Solo(playlist, row, file, there, runs, clock, {}).world, newName, order, {});
            var taken := PendingIntentForRow(PendingIntents(runs, order, playlist.folderName, newName), 0, row, there);
            && shown.Ok? && shown.value.oldName != shown.value.newName
            && (taken.Some? && taken.value.file == file ==> shown.value.blocked == [])
            && (taken.None? ==> shown.value.blocked == [(0, SourceMissing)])
  {
    var w := Solo(playlist, row, file, there, runs, clock, {}).world;
    var intents := PendingIntents(runs, order, playlist.folderName, newName);
    assert w.catalog.artifacts[0] == row && row.Location() !in w.tree && (row.storageId, there) in w.tree;
    assert PlanRows(w, newName, intents, {}, 0) == Some(Draft([], [], 0, {}));
    var next := PlanRow(w, newName, intents, {}, 0, Draft([], [], 0, {}));
    assert PlanRows(w, newName, intents, {}, 1) == next;
  }
}
