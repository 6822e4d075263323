/**
 Exactly when a folder move is refused: by the planner as a whole, for one row, and when a shown plan is confirmed
 (src/sluicery/core/folder_move.py).
 */
module FolderRefusals {
  import opened Common
  import opened Naming
  import opened Layout
  import opened FolderPlan
  import opened FolderMove

  // ---- no plan at all ----

  /** Some row is stored where its assignment says, so its prefix has to be resolved. */
  ghost predicate NeedsPrefix(rows: seq<Artifact>) { exists row <- rows :: row.assignmentStorageId == row.storageId }

  ghost predicate Unresolved(cat: Catalog) {
    SanitizeComponent(cat.playlist.folderName) == None && NeedsPrefix(cat.artifacts)
  }

  /** The four refusals, in the order in which they are looked for. */
  lemma PlanRefusedExactly(w: World, newName: string, order: seq<nat>, down: set<nat>)
    ensures var plan := BuildPlan(w, newName, order, down);
            var safe, oldName := SanitizeComponent(newName), w.catalog.playlist.folderName;
            && (plan == Err(BadName) <==> safe == None)
            && (plan == Err(NotNormalized) <==> safe.Some? && safe != Some(newName))
            && (plan == Err(SameName) <==> safe == Some(newName) && newName == oldName)
            && (plan == Err(UnresolvableFolder)
                <==> safe == Some(newName) && newName != oldName && Unresolved(w.catalog))
  {
    var oldName := w.catalog.playlist.folderName;
    var intents := PendingIntents(w.runs, order, oldName, newName);
    if SanitizeComponent(newName) == Some(newName) {
      RowsResolved(w, newName, intents, down, |w.catalog.artifacts|);
      assert w.catalog.artifacts[..|w.catalog.artifacts|] == w.catalog.artifacts;
    }
  }

  lemma {:induction false} RowsResolved(
    w: World, newName: string, intents: map<nat, (nat, Candidate)>, down: set<nat>, n: nat)
    requires n <= |w.catalog.artifacts| && SanitizeComponent(newName).Some?
    ensures PlanRows(w, newName, intents, down, n) == None
            <==> SanitizeComponent(w.catalog.playlist.folderName) == None && NeedsPrefix(w.catalog.artifacts[..n])
  {
    if n > 0 {
      RowsResolved(w, newName, intents, down, n - 1);
      assert w.catalog.artifacts[..n] == w.catalog.artifacts[..n - 1] + [w.catalog.artifacts[n - 1]];
      var before := PlanRows(w, newName, intents, down, n - 1);
      if before.Some? {
        RowResolved(w, newName, intents, down, n - 1, before.value);
      }
    }
  }

  lemma RowResolved(w: World, newName: string, intents: map<nat, (nat, Candidate)>, down: set<nat>, id: nat, d: Draft)
    requires id < |w.catalog.artifacts| && SanitizeComponent(newName).Some?
    ensures PlanRow(w, newName, intents, down, id, d) == None
            <==> SanitizeComponent(w.catalog.playlist.folderName) == None
                 && w.catalog.artifacts[id].assignmentStorageId == w.catalog.artifacts[id].storageId
  {
  }

  // ---- one row ----

  ghost predicate SizeFits(row: Artifact, f: File) { row.filesize == None || f.size == row.filesize }

  /**
   What the storage must say for a row to be moved: its file is there with the recorded size and nothing where it
   goes; or it is gone and an intent's file, of the same size, date, hashes and id, is where it goes.
   */
  ghost predicate Transferable(
    tree: Tree, down: set<nat>, expected: Option<RemoteFile>, row: Artifact, destination: Path)
  {
    && row.storageId !in down
    && if (row.storageId, row.path) in tree then
         (row.storageId, destination) !in tree && SizeFits(row, tree[(row.storageId, row.path)])
       else
         && expected.Some? && (row.storageId, destination) in tree
         && tree[(row.storageId, destination)] == expected.value.file && SizeFits(row, expected.value.file)
  }

  /** The recorded move of this very version of the row to this place. */
  ghost predicate Fits(c: Candidate, id: nat, row: Artifact, destination: Path) {
    && c.artifactId == id && c.storageId == row.storageId && c.source == row.path && c.destination == destination
    && c.updatedAt == row.updatedAt && c.links.storageUpdatedAt == row.links.storageUpdatedAt
    && c.links.storageFingerprint == row.links.storageFingerprint
  }

  lemma ReadyExactly(
    tree: Tree, down: set<nat>, intents: map<nat, (nat, Candidate)>, id: nat, row: Artifact, destination: Path,
    expected: Option<RemoteFile>)
    requires expected == if id in intents && Fits(intents[id].1, id, row, destination) then intents[id].1.identity
                         else None
    ensures var i := Inspect(tree, down, intents, id, row, destination);
            && (i.blocked == None <==> Transferable(tree, down, expected, row, destination))
            && (i.blocked == None ==> i.alreadyMoved == ((row.storageId, row.path) !in tree))
            && (i.blocked == None && !i.alreadyMoved ==>
                  i.identity == Some(RemoteFile(row.path, tree[(row.storageId, row.path)])))
            && (i.blocked == None && i.alreadyMoved ==> i.identity == expected)
  {
    assert PendingIntentForRow(intents, id, row, destination) == expected;
  }

  /** The reasons given for the others. */
  lemma ReasonExactly(
    tree: Tree, down: set<nat>, intents: map<nat, (nat, Candidate)>, id: nat, row: Artifact, destination: Path,
    expected: Option<RemoteFile>)
    requires expected == if id in intents && Fits(intents[id].1, id, row, destination) then intents[id].1.identity
                         else None
    ensures Inspect(tree, down, intents, id, row, destination).alreadyMoved
            <==> && row.storageId !in down && (row.storageId, row.path) !in tree
                 && (row.storageId, destination) in tree && expected.Some?
                 && tree[(row.storageId, destination)] == expected.value.file
    ensures var reason := Inspect(tree, down, intents, id, row, destination).blocked;
            var (here, there) := ((row.storageId, row.path), (row.storageId, destination));
            var reached := row.storageId !in down;
            && (reason == Some(StorageUnavailable) <==> !reached)
            && (reason == Some(BothExist) <==> reached && here in tree && there in tree)
            && (reason == Some(SourceMissing)
                <==> reached && here !in tree && (there !in tree || expected == None))
            && (reason == Some(IdentityMismatch)
                <==> reached && here !in tree && there in tree && expected.Some? && tree[there] != expected.value.file)
            && (reason == Some(SizeMismatch)
                <==> || (reached && here in tree && there !in tree && !SizeFits(row, tree[here]))
                     || (reached && here !in tree && there in tree && expected.Some?
                         && tree[there] == expected.value.file && !SizeFits(row, expected.value.file)))
  {
    assert PendingIntentForRow(intents, id, row, destination) == expected;
  }

  // ---- the plan as a whole ----

  /** Row id stands in no plan's way: it is stored where it should be, resolves, and if it moves it is ready. */
  ghost predicate RowClear(w: World, newName: string, intents: map<nat, (nat, Candidate)>, down: set<nat>, id: nat)
    requires id < |w.catalog.artifacts|
  {
    var row, playlist := w.catalog.artifacts[id], w.catalog.playlist;
    && row.assignmentStorageId == row.storageId
    && RowPrefix(playlist, row, playlist.folderName).Prefix? && RowPrefix(playlist, row, newName).Prefix?
    && match RowDestination(w.catalog, newName, id)
       case None => true
       case Some(destination) =>
         Transferable(w.tree, down,
               if id in intents && Fits(intents[id].1, id, row, destination) then intents[id].1.identity else None,
               row, destination)
  }

  /** Two rows that both move would meet. */
  ghost predicate Meet(cat: Catalog, newName: string, i: nat, j: nat)
    requires i < |cat.artifacts| && j < |cat.artifacts|
  {
    && RowDestination(cat, newName, i).Some? && RowDestination(cat, newName, i) == RowDestination(cat, newName, j)
    && cat.artifacts[i].storageId == cat.artifacts[j].storageId
  }

  ghost predicate AllReady(w: World, newName: string, intents: map<nat, (nat, Candidate)>, down: set<nat>, n: nat)
    requires n <= |w.catalog.artifacts|
  {
    && (forall id: nat :: id < n ==> RowClear(w, newName, intents, down, id))
    && forall i: nat, j: nat :: i < j < n ==> !Meet(w.catalog, newName, i, j)
  }

  /** A plan may be confirmed exactly when every row is clear and no two of them meet. */
  lemma UnblockedExactly(w: World, newName: string, order: seq<nat>, down: set<nat>)
    requires BuildPlan(w, newName, order, down).Ok?
    ensures var intents := PendingIntents(w.runs, order, w.catalog.playlist.folderName, newName);
            BuildPlan(w, newName, order, down).value.blocked == []
            <==> AllReady(w, newName, intents, down, |w.catalog.artifacts|)
  {
    var intents, n := PendingIntents(w.runs, order, w.catalog.playlist.folderName, newName), |w.catalog.artifacts|;
    if BuildPlan(w, newName, order, down).value.blocked == [] {
      UnblockedIsFaithful(w, newName, intents, down, n);
      var cs := BuildPlan(w, newName, order, down).value.candidates;
      assert Faithful(w, newName, intents, down, n, cs);
      forall id: nat | id < n
        ensures RowClear(w, newName, intents, down, id)
      {
        ListedIsClear(w, newName, intents, down, cs, id);
      }
      forall i: nat, j: nat | i < j < n
        ensures !Meet(w.catalog, newName, i, j)
      {
        ListedNeverMeet(w, newName, intents, down, cs, i, j);
      }
    }
    if AllReady(w, newName, intents, down, n) {
      AllRowsClear(w, newName, intents, down, n);
      ClearRowsUnblocked(w, newName, intents, down, n);
    }
  }

  lemma ListedIsClear(
    w: World, newName: string, intents: map<nat, (nat, Candidate)>, down: set<nat>, cs: seq<Candidate>, id: nat)
    requires id < |w.catalog.artifacts| && Faithful(w, newName, intents, down, |w.catalog.artifacts|, cs)
    ensures RowClear(w, newName, intents, down, id)
  {
    var row := w.catalog.artifacts[id];
    var dest := RowDestination(w.catalog, newName, id);
    assert Resolvable(w.catalog, newName, id);
    if dest.Some? {
      var k :| 0 <= k < |cs| && cs[k].artifactId == id;
      assert Covered(w.catalog, newName, cs[k]) && Inspected(w, intents, down, cs[k]);
      ReadyExactly(w.tree, down, intents, id, row, dest.value,
        if id in intents && Fits(intents[id].1, id, row, dest.value) then intents[id].1.identity else None);
    }
  }

  lemma ListedNeverMeet(
    w: World, newName: string, intents: map<nat, (nat, Candidate)>, down: set<nat>, cs: seq<Candidate>, i: nat, j: nat)
    requires i < j < |w.catalog.artifacts| && Faithful(w, newName, intents, down, |w.catalog.artifacts|, cs)
    ensures !Meet(w.catalog, newName, i, j)
  {
  }

  lemma ClearIsClear(w: World, newName: string, intents: map<nat, (nat, Candidate)>, down: set<nat>, id: nat)
    requires id < |w.catalog.artifacts| && RowClear(w, newName, intents, down, id)
    requires forall i: nat :: i < id ==> !Meet(w.catalog, newName, i, id)
    ensures ClearRow(w, newName, intents, down, id)
  {
    var row := w.catalog.artifacts[id];
    var dest := RowDestination(w.catalog, newName, id);
    if dest.Some? {
      ReadyExactly(w.tree, down, intents, id, row, dest.value,
        if id in intents && Fits(intents[id].1, id, row, dest.value) then intents[id].1.identity else None);
    }
    forall i: nat | i < id
      ensures DistinctDestinations(w.catalog, newName, i, id)
    {
      assert !Meet(w.catalog, newName, i, id);
    }
  }

  lemma {:induction false} AllRowsClear(
    w: World, newName: string, intents: map<nat, (nat, Candidate)>, down: set<nat>, n: nat)
    requires n <= |w.catalog.artifacts| && AllReady(w, newName, intents, down, n)
    ensures AllClear(w, newName, intents, down, n)
  {
    if n > 0 {
      AllRowsClear(w, newName, intents, down, n - 1);
      ClearIsClear(w, newName, intents, down, n - 1);
    }
  }

  // ---- confirming ----

  /** The rows are as they were when the candidate was planned. */
  ghost predicate AsPlanned(w: World, c: Candidate) {
    && c.artifactId < |w.catalog.artifacts|
    && var row := w.catalog.artifacts[c.artifactId];
       && row.storageId == row.assignmentStorageId == c.storageId && row.path == c.source
       && row.updatedAt == c.updatedAt && row.links == c.links
  }

  /** A run that died while moving between the plan's two names. */
  ghost predicate Recoverable(w: World, plan: Plan, r: nat) {
    && r < |w.runs| && w.runs[r].kind == FolderMove && w.runs[r].status == Running && w.runs[r].stats.Some?
    && w.runs[r].stats.value.oldName == plan.oldName && w.runs[r].stats.value.newName == plan.newName
  }

  function Closed(run: Run): Run
    requires run.stats.Some?
  {
    run.(status := Failed, stats := Some(run.stats.value.(reason := Some("process_interrupted"))))
  }

  /**
   A confirmed plan starts exactly when it is unblocked with every file identified, nothing else of the playlist is
   under way, the runs it recovers are still RUNNING between its two names and are all that are, and playlist and
   rows are as planned. It then closes those runs, keeping what they recorded, and opens its own.
   */
  lemma StartsExactly(w: World, plan: Plan, othersActive: bool)
    requires forall i, j :: 0 <= i < j < |plan.recoveryRuns| ==> plan.recoveryRuns[i] != plan.recoveryRuns[j]
    ensures StartRun(w, plan, othersActive).Some?
            <==> && plan.oldName != plan.newName && plan.blocked == [] && !othersActive
                 && (forall c <- plan.candidates :: c.identity.Some? && AsPlanned(w, c))
                 && (forall r <- plan.recoveryRuns :: Recoverable(w, plan, r))
                 && (forall r: nat :: r < |w.runs| && w.runs[r].status == Running ==> r in plan.recoveryRuns)
                 && w.catalog.playlist.folderName == plan.oldName
                 && w.catalog.playlist.updatedAt == plan.playlistUpdatedAt
    ensures StartRun(w, plan, othersActive).Some? ==>
              var w2 := StartRun(w, plan, othersActive).value;
              && |w2.runs| == |w.runs| + 1 && w2 == w.(runs := w2.runs)
              && w2.runs[|w.runs|] == Run(FolderMove, Running,
                                          Some(Stats(0, |plan.candidates|, plan.unaffected, plan.oldName, plan.newName,
                                                     None, None)))
              && forall r: nat :: r < |w.runs| ==>
                   if r in plan.recoveryRuns then w.runs[r].stats.Some? && w2.runs[r] == Closed(w.runs[r])
                   else w2.runs[r] == w.runs[r]
  {
    RecoversExactly(w.runs, w, plan, plan.recoveryRuns);
    var recovered := RecoverRuns(w.runs, plan.recoveryRuns, plan);
    if recovered.Some? {
      assert NoneRunning(recovered.value)
          <==> forall r: nat :: r < |w.runs| && w.runs[r].status == Running ==> r in plan.recoveryRuns by {
        forall r: nat | r < |w.runs|
          ensures recovered.value[r].status == Running <==> w.runs[r].status == Running && r !in plan.recoveryRuns
        {
        }
      }
    }
    RowsAsPlanned(w, plan);
  }

  lemma RowsAsPlanned(w: World, plan: Plan)
    ensures (exists c <- plan.candidates :: c.identity == None)
            || (exists c <- plan.candidates :: !CandidateRowsMatch(w, c))
            <==> !forall c <- plan.candidates :: c.identity.Some? && AsPlanned(w, c)
  {
    forall c
      ensures CandidateRowsMatch(w, c) <==> AsPlanned(w, c)
    {
    }
  }

  /** runs is the table with some other runs closed already. */
  lemma {:induction false} RecoversExactly(runs: seq<Run>, w: World, plan: Plan, ids: seq<nat>)
    requires |runs| == |w.runs| && forall i, j :: 0 <= i < j < |ids| ==> ids[i] != ids[j]
    requires forall r <- ids :: r < |runs| ==> runs[r] == w.runs[r]
    ensures RecoverRuns(runs, ids, plan).Some? <==> forall r <- ids :: Recoverable(w, plan, r)
    ensures RecoverRuns(runs, ids, plan).Some? ==>
              var after := RecoverRuns(runs, ids, plan).value;
              && |after| == |runs|
              && forall r: nat :: r < |runs| ==>
                   if r in ids then runs[r].stats.Some? && after[r] == Closed(w.runs[r]) else after[r] == runs[r]
    decreases |ids|
  {
    if ids != [] {
      var id := ids[0];
      assert ids == [id] + ids[1..];
      if Recoverable(w, plan, id) {
        var closed := runs[id := Interrupted(runs[id])];
        RecoversExactly(closed, w, plan, ids[1..]);
      }
    }
  }

  // ---- moving and finishing ----

  /**
   The storage calls move the file exactly when it is planned to be moved, is at home as it was seen, has room, and
   the storage does not refuse; and they succeed exactly when the very file is then at its destination and not at
   home any more, moved now or, as the plan said, before.
   */
  lemma MoveExactly(tree: Tree, c: Candidate, outcome: MoveOutcome)
    requires c.identity.Some? && c.source != c.destination
    ensures var (here, there, seen) := ((c.storageId, c.source), (c.storageId, c.destination), c.identity.value.file);
            var (after, done) := MoveFile(tree, c, outcome);
            && after == (if !c.alreadyMoved && here in tree && tree[here] == seen && there !in tree
                            && outcome != Refused
                         then (tree - {here})[there := seen] else tree)
            && (done <==> here !in after && there in after && after[there] == seen && (c.alreadyMoved || after != tree))
  {
    var here, there := (c.storageId, c.source), (c.storageId, c.destination);
    var after := MoveFile(tree, c, outcome).0;
    assert here in tree && here !in after ==> after != tree;
  }

  /** A run that has moved all its candidates renames the folder, and reports all of them with no move under way. */
  lemma FinishExactly(s: System, run: nat, plan: Plan, acknowledged: bool)
    requires s.process == Active(run, plan, |plan.candidates|, Ready) && run < |s.world.runs|
    requires s.world.catalog.playlist.folderName == plan.oldName
             && s.world.catalog.playlist.updatedAt == plan.playlistUpdatedAt
    ensures var (w, w2) := (s.world, Apply(s, Finish(acknowledged)).world);
            && w2.catalog.artifacts == w.catalog.artifacts && w2.tree == w.tree && w2.clock == w.clock + 1
            && w2.catalog.playlist == Playlist(w.catalog.playlist.name, plan.newName, w.clock + 1)
            && w2.runs == w.runs[run := Run(w.runs[run].kind, Succeeded,
                                            Some(Stats(|plan.candidates|, |plan.candidates|, plan.unaffected,
                                                       plan.oldName, plan.newName, None, None)))]
  {
  }

  // ---- intents and faults ----

  /** Before a file is moved its candidate is on record, with how many went before; unless the rows have changed. */
  lemma IntentExactly(s: System, run: nat, plan: Plan, next: nat, acknowledged: bool)
    requires s.process == Active(run, plan, next, Ready) && run < |s.world.runs| && next < |plan.candidates|
    ensures var (w, c, s2) := (s.world, plan.candidates[next], Apply(s, PersistIntent(acknowledged)));
            if AsPlanned(w, c) && w.catalog.playlist.folderName == plan.oldName
               && w.catalog.playlist.updatedAt == plan.playlistUpdatedAt
            then
              && s2.world == w.(runs := w.runs[run := w.runs[run].(stats :=
                   Some(Stats(next, |plan.candidates|, plan.unaffected, plan.oldName, plan.newName, Some(c), None)))])
              && s2.process == Active(run, plan, next, if acknowledged then Intended else Raised(Some(c)))
            else s2.world == w && s2.process == Active(run, plan, next, Raised(None))
  {
    assert CandidateRowsMatch(s.world, plan.candidates[next]) <==> AsPlanned(s.world, plan.candidates[next]);
  }

  /**
   An exception finds the candidate in memory once its intent is being committed, and until its move is recorded;
   it changes neither rows nor files.
   */
  lemma RaiseExactly(s: System, run: nat, plan: Plan, next: nat, phase: Phase, attempted: bool)
    requires s.process == Active(run, plan, next, phase) && run < |s.world.runs| && !phase.Raised?
    requires phase != Ready ==> next < |plan.candidates|
    ensures var held := next < |plan.candidates| && (phase == Intended || phase == Phase.Relocated || attempted);
            Apply(s, Raise(attempted))
            == System(s.world, s.plans,
                      Active(run, plan, next, Raised(if held then Some(plan.candidates[next]) else None)))
  {
  }

  /** The exception handler closes the run as failed with what was on the way, and the process ends. */
  lemma FailureExactly(s: System, run: nat, plan: Plan, next: nat, intent: Option<Candidate>)
    requires s.process == Active(run, plan, next, Raised(intent)) && run < |s.world.runs|
    ensures var (w, s2) := (s.world, Apply(s, RecordFailure));
            && s2.process == Idle && s2.plans == s.plans
            && s2.world == w.(runs := w.runs[run := Run(w.runs[run].kind, Failed,
                 Some(Stats(next, |plan.candidates|, plan.unaffected, plan.oldName, plan.newName, intent,
                            Some("folder_move_failed"))))])
  {
  }

  /**
   A crash ends the process and leaves everything else. The scheduler closes a folder move that is RUNNING, dead or
   alive, with what it recorded, and leaves every other run.
   */
  lemma FaultsExactly(s: System, id: nat)
    ensures Apply(s, Crash) == System(s.world, s.plans, Idle)
    ensures var (w, s2) := (s.world, Apply(s, RecoverOrphan(id)));
            if id < |w.runs| && w.runs[id].kind == FolderMove && w.runs[id].status == Running then
              s2 == s.(world := w.(runs := w.runs[id := Run(FolderMove, Failed, w.runs[id].stats)]))
            else s2 == s
  {
  }

  /** A commit whose answer is lost has happened all the same; only the process does not know it. */
  lemma LostAnswers(s: System)
    ensures Apply(s, PersistIntent(false)).world == Apply(s, PersistIntent(true)).world
    ensures Apply(s, Commit(false)).world == Apply(s, Commit(true)).world
    ensures Apply(s, Finish(false)).world == Apply(s, Finish(true)).world
    ensures forall step: Step ::
              (step == PersistIntent(false) || step == Commit(false) || step == Finish(false))
              && Apply(s, step).world != s.world
              ==> Apply(s, step).process.Active? && Apply(s, step).process.phase.Raised?
  {
  }
}
