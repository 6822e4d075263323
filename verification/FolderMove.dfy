/**
 Executing a folder move as a step system (src/sluicery/core/folder_move.py, executing half):
 one step per database commit or storage call. Between any two steps the process may crash.
 */
module FolderMove {
  import opened Common
  import opened Naming
  import opened Layout
  import opened FolderPlan

  /** Where the executor is; Raised holds the intent it still has in memory while handling an exception. */
  datatype Phase = Ready | Intended | Relocated | Raised(intent: Option<Candidate>)

  datatype Process = Idle | Active(run: nat, plan: Plan, next: nat, phase: Phase)

  /** The database and files, every plan shown to the user so far, and the executing process. */
  datatype System = System(world: World, plans: set<Plan>, process: Process)

  /** A storage move that succeeds, succeeds without an answer, or raises without effect. */
  datatype MoveOutcome = Done | LostResponse | Refused

  datatype Step =
    | Preview(newName: string, order: seq<nat>, down: set<nat>)
    | Start(confirmed: Plan, othersActive: bool)
    | PersistIntent(acknowledged: bool)
    | Relocate(outcome: MoveOutcome)
    | Commit(acknowledged: bool)
    | Finish(acknowledged: bool)
    | Raise(commitAttempted: bool)
    | RecordFailure
    | RecoverOrphan(id: nat)
    | Crash

  // ---- database rows ----

  function RunStats(plan: Plan, moved: nat, intent: Option<Candidate>, reason: Option<string>): Stats {
    Stats(moved, |plan.candidates|, plan.unaffected, plan.oldName, plan.newName, intent, reason)
  }

  predicate CandidateRowsMatch(w: World, c: Candidate) {
    && c.artifactId < |w.catalog.artifacts|
    && var row := w.catalog.artifacts[c.artifactId];
       && row.storageId == c.storageId && row.path == c.source && row.updatedAt == c.updatedAt
       && row.links == c.links && row.assignmentStorageId == c.storageId
  }

  predicate PlaylistMatches(w: World, plan: Plan) {
    w.catalog.playlist.folderName == plan.oldName && w.catalog.playlist.updatedAt == plan.playlistUpdatedAt
  }

  /** Closing a run whose process died. */
  function Interrupted(run: Run): Run
    requires run.stats.Some?
  {
    run.(status := Failed, stats := Some(run.stats.value.(reason := Some("process_interrupted"))))
  }

  /** Every run the plan recovers, closed; None when one of them changed since the plan. */
  function RecoverRuns(runs: seq<Run>, ids: seq<nat>, plan: Plan): Option<seq<Run>>
    decreases |ids|
  {
    if ids == [] then Some(runs)
    else
      var id := ids[0];
      if id < |runs| && runs[id].Serves(plan.oldName, plan.newName) && runs[id].status == Running
      then RecoverRuns(runs[id := Interrupted(runs[id])], ids[1..], plan)
      else None
  }

  predicate NoneRunning(runs: seq<Run>) { forall run <- runs :: run.status != Running }

  /** The transaction that opens the run of a confirmed plan; None where sluicery raises instead. */
  function StartRun(w: World, plan: Plan, othersActive: bool): Option<World> {
    if !plan.Movable() || exists c <- plan.candidates :: c.identity == None then None
    else
      match RecoverRuns(w.runs, plan.recoveryRuns, plan)
      case None => None
      case Some(runs) =>
        if othersActive || !NoneRunning(runs) then None
        else if !PlaylistMatches(w, plan) || exists c <- plan.candidates :: !CandidateRowsMatch(w, c) then None
        else Some(w.(runs := runs + [Run(FolderMove, Running, Some(RunStats(plan, 0, None, None)))]))
  }

  function SetRun(w: World, id: nat, run: Run): World
    requires id < |w.runs|
  {
    w.(runs := w.runs[id := run])
  }

  /** The transaction that records an artifact at its destination and clears the intent. */
  function CommitMove(w: World, id: nat, plan: Plan, next: nat): World
    requires id < |w.runs| && next < |plan.candidates| && plan.candidates[next].artifactId < |w.catalog.artifacts|
  {
    var c := plan.candidates[next];
    var row := w.catalog.artifacts[c.artifactId].(path := c.destination, updatedAt := w.clock + 1);
    SetRun(w, id, w.runs[id].(stats := Some(RunStats(plan, next + 1, None, None))))
    .(catalog := w.catalog.(artifacts := w.catalog.artifacts[c.artifactId := row]), clock := w.clock + 1)
  }

  /** The transaction that renames the playlist folder and closes the run. */
  function FinishRun(w: World, id: nat, plan: Plan, next: nat): World
    requires id < |w.runs|
  {
    SetRun(w, id, w.runs[id].(status := Succeeded, stats := Some(RunStats(plan, next, None, None))))
    .(catalog := w.catalog.(playlist := w.catalog.playlist.(folderName := plan.newName, updatedAt := w.clock + 1)),
      clock := w.clock + 1)
  }

  // ---- storage ----

  /** A no-replace rename. */
  function Rename(tree: Tree, source: Location, target: Location): Tree
    requires source in tree
  {
    (tree - {source})[target := tree[source]]
  }

  function At(tree: Tree, storageId: nat, path: Path): RemoteFile
    requires (storageId, path) in tree
  {
    RemoteFile(path, tree[(storageId, path)])
  }

  /** The storage calls between an intent and its commit: the tree afterwards and whether they raised nothing. */
  function MoveFile(tree: Tree, c: Candidate, outcome: MoveOutcome): (Tree, bool)
    requires c.identity.Some?
  {
    var source, target := (c.storageId, c.source), (c.storageId, c.destination);
    var expected := c.identity.value;
    if c.alreadyMoved then
      (tree, source !in tree && target in tree && IdentityMatches(At(tree, c.storageId, c.destination), expected))
    else if source !in tree || !IdentityMatches(At(tree, c.storageId, c.source), expected)
      || target in tree then (tree, false)
    else if outcome == Refused then (tree, false)
    else
      var moved := Rename(tree, source, target);
      if outcome == LostResponse && (source in moved || target !in moved) then (moved, false)
      else (moved, IdentityMatches(At(moved, c.storageId, c.destination), expected))
  }

  // ---- steps ----

  function Raising(s: System, intent: Option<Candidate>): System
    requires s.process.Active?
  {
    s.(process := s.process.(phase := Raised(intent)))
  }

  /** One step; a step that is not enabled changes nothing. */
  function Apply(s: System, step: Step): System {
    match step
    case Preview(newName, order, down) =>
      (match BuildPlan(s.world, newName, order, down)
       case Err(_) => s
       case Ok(plan) => s.(plans := s.plans + {plan}))
    case Start(plan, othersActive) =>
      if s.process != Idle || plan !in s.plans then s
      else
        (match StartRun(s.world, plan, othersActive)
         case None => s
         case Some(w) => s.(world := w, process := Active(|w.runs| - 1, plan, 0, Ready)))
    case RecoverOrphan(id) =>
      // the scheduler closes a run without tasks, keeping its stats, whether or not its process is alive
      if id < |s.world.runs| && s.world.runs[id].kind == FolderMove && s.world.runs[id].status == Running then
        s.(world := SetRun(s.world, id, s.world.runs[id].(status := Failed)))
      else s
    case Crash => s.(process := Idle)
    case _ => if s.process.Active? && s.process.run < |s.world.runs| then ApplyActive(s, step) else s
  }

  function ApplyActive(s: System, step: Step): System
    requires s.process.Active? && s.process.run < |s.world.runs|
  {
    var w := s.world;
    var Active(run, plan, next, phase) := s.process;
    match step
    case PersistIntent(acknowledged) =>
      if phase != Ready || next >= |plan.candidates| then s
      else
        var c := plan.candidates[next];
        if !PlaylistMatches(w, plan) || !CandidateRowsMatch(w, c) then Raising(s, None)
        else
          var after := SetRun(w, run, w.runs[run].(stats := Some(RunStats(plan, next, Some(c), None))));
          System(after, s.plans, Active(run, plan, next, if acknowledged then Intended else Raised(Some(c))))
    case Relocate(outcome) =>
      if phase != Intended || next >= |plan.candidates| || plan.candidates[next].identity == None then s
      else
        var c := plan.candidates[next];
        var (tree, ok) := MoveFile(w.tree, c, outcome);
        System(w.(tree := tree), s.plans, Active(run, plan, next, if ok then Relocated else Raised(Some(c))))
    case Commit(acknowledged) =>
      if phase != Relocated || next >= |plan.candidates| then s
      else
        var c := plan.candidates[next];
        if !CandidateRowsMatch(w, c) then Raising(s, Some(c))
        else
          System(CommitMove(w, run, plan, next), s.plans,
                 if acknowledged then Active(run, plan, next + 1, Ready) else Active(run, plan, next, Raised(Some(c))))
    case Finish(acknowledged) =>
      if phase != Ready || next != |plan.candidates| then s
      else if !PlaylistMatches(w, plan) then Raising(s, None)
      else
        System(FinishRun(w, run, plan, next), s.plans, if acknowledged then Idle
          else Active(run, plan, next, Raised(None)))
    case Raise(commitAttempted) =>
      if phase.Raised? then s
      else if phase == Ready then
        Raising(s, if commitAttempted && next < |plan.candidates| then Some(plan.candidates[next]) else None)
      else if next < |plan.candidates| then Raising(s, Some(plan.candidates[next]))
      else s
    case RecordFailure =>
      if !phase.Raised? then s
      else
        var failed := w.runs[run].(status := Failed,
                                   stats := Some(RunStats(plan, next, phase.intent, Some("folder_move_failed"))));
        System(SetRun(w, run, failed), s.plans, Idle)
    case _ => s
  }

  /** A run of the system. */
  function Execute(s: System, steps: seq<Step>): System {
    if steps == [] then s else Apply(Execute(s, steps[..|steps| - 1]), steps[|steps| - 1])
  }

  lemma {:induction false} ExecuteConcat(s: System, a: seq<Step>, b: seq<Step>)
    ensures Execute(s, a + b) == Execute(Execute(s, a), b)
  {
    if b == [] {
      assert a + b == a;
    } else {
      assert (a + b)[..|a + b| - 1] == a + b[..|b| - 1];
      ExecuteConcat(s, a, b[..|b| - 1]);
    }
  }

  lemma ExecuteOne(s: System, step: Step)
    ensures Execute(s, [step]) == Apply(s, step)
  {
    assert [step][..0] == [];
  }

  // ---- names ----

  /** Confirmed folder names, no two of which give a row that depends on the folder name the same prefix. */
  ghost predicate Separated(cat: Catalog, names: set<string>) {
    && (forall f <- names :: IsClean(f))
    && forall a, f, g :: 0 <= a < |cat.artifacts| && f in names && g in names && f != g ==> TellsApart(cat, a, f, g)
  }

  ghost predicate TellsApart(cat: Catalog, a: nat, f: string, g: string)
    requires a < |cat.artifacts|
  {
    var row := cat.artifacts[a];
    FolderName in row.subpath && RowPrefix(cat.playlist, row, f).Prefix?
    ==> RowPrefix(cat.playlist, row, f) != RowPrefix(cat.playlist, row, g)
  }

  /** What prefixes are computed from is the same in both catalogs. */
  ghost predicate SameTemplates(cat: Catalog, cat2: Catalog) {
    && cat2.playlist.name == cat.playlist.name && |cat2.artifacts| == |cat.artifacts|
    && forall a :: 0 <= a < |cat.artifacts| ==>
         && cat2.artifacts[a].subpath == cat.artifacts[a].subpath
         && cat2.artifacts[a].profileName == cat.artifacts[a].profileName
         && cat2.artifacts[a].profileKind == cat.artifacts[a].profileKind
  }

  lemma SeparatedStays(cat: Catalog, cat2: Catalog, names: set<string>)
    requires Separated(cat, names) && SameTemplates(cat, cat2)
    ensures Separated(cat2, names)
  {
    forall a, f, g | 0 <= a < |cat2.artifacts| && f in names && g in names && f != g
      ensures TellsApart(cat2, a, f, g)
    {
      assert TellsApart(cat, a, f, g);
      assert RowPrefix(cat2.playlist, cat2.artifacts[a], f) == RowPrefix(cat.playlist, cat.artifacts[a], f);
      assert RowPrefix(cat2.playlist, cat2.artifacts[a], g) == RowPrefix(cat.playlist, cat.artifacts[a], g);
    }
  }

  /** Whatever the templates, clean names none of which is another one behind a leading underscore are separated. */
  lemma UnvariedSeparated(cat: Catalog, names: set<string>)
    requires forall f <- names :: IsClean(f)
    requires forall f <- names, g <- names :: !UnderscoreVariant(f, g)
    ensures Separated(cat, names)
  {
    forall a, f, g | 0 <= a < |cat.artifacts| && f in names && g in names && f != g
      ensures TellsApart(cat, a, f, g)
    {
      var row := cat.artifacts[a];
      if FolderName in row.subpath && RowPrefix(cat.playlist, row, f).Prefix?
         && RowPrefix(cat.playlist, row, f) == RowPrefix(cat.playlist, row, g) {
        PrefixCollapse(row.subpath, RowContext(cat.playlist, row, f), g);
      }
    }
  }

  /** Every preview asks for one of these names. */
  ghost predicate Uses(steps: seq<Step>, names: set<string>) {
    forall step <- steps :: step.Preview? ==> step.newName in names
  }

  /** An artifact that changes its place with the folder name, and still lies below the current one. */
  ghost predicate Affected(cat: Catalog, a: nat)
    requires a < |cat.artifacts|
  {
    var row := cat.artifacts[a];
    var prefix := RowPrefix(cat.playlist, row, cat.playlist.folderName);
    FolderName in row.subpath && prefix.Prefix? && prefix.path <= row.path
  }

  /** Between two separated names, exactly the affected artifacts have a destination, and it leaves the old folder. */
  lemma DestinationFacts(cat: Catalog, a: nat, newName: string, names: set<string>)
    requires a < |cat.artifacts| && Separated(cat, names)
    requires cat.playlist.folderName in names && newName in names && newName != cat.playlist.folderName
    requires RowPrefix(cat.playlist, cat.artifacts[a], newName).Prefix?
    ensures Affected(cat, a) <==> RowDestination(cat, newName, a).Some?
    ensures Affected(cat, a) ==>
              var dest := RowDestination(cat, newName, a).value;
              dest != cat.artifacts[a].path
              && !(RowPrefix(cat.playlist, cat.artifacts[a], cat.playlist.folderName).path <= dest)
  {
    var row, folder := cat.artifacts[a], cat.playlist.folderName;
    var ctx := RowContext(cat.playlist, row, folder);
    if RowPrefix(cat.playlist, row, folder).Prefix? {
      if FolderName in row.subpath {
        assert TellsApart(cat, a, folder, newName);
        PrefixDepth(row.subpath, ctx, newName);
        if Affected(cat, a) {
          ReplacePrefixOnce(row.path, RowPrefix(cat.playlist, row, folder).path,
            RowPrefix(cat.playlist, row, newName).path);
        }
      } else {
        PrefixIndependent(row.subpath, ctx, newName);
      }
    }
  }
}
