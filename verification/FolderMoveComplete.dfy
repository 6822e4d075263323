/**
 The uninterrupted run: from any state a folder move was left in, one more preview and
 confirmation without faults finishes it, in the one final state every campaign shares.
 */
module FolderMoveComplete {
  import opened Common
  import opened Naming
  import opened Layout
  import opened FolderPlan
  import opened FolderMove
  import opened FolderMoveSafety
  import opened FolderMoveResume

  // ---- opening the run ----

  /** Distinct runs, each still RUNNING for the plan's names. */
  ghost predicate Recoverable(runs: seq<Run>, ids: seq<nat>, plan: Plan) {
    && (forall k :: 0 <= k < |ids| ==>
          ids[k] < |runs| && runs[ids[k]].Serves(plan.oldName, plan.newName) && runs[ids[k]].status == Running)
    && (forall j, k :: 0 <= j < k < |ids| ==> ids[j] != ids[k])
  }

  lemma {:induction false} RecoverSucceeds(runs: seq<Run>, ids: seq<nat>, plan: Plan)
    requires Recoverable(runs, ids, plan)
    ensures RecoverRuns(runs, ids, plan).Some?
    ensures var after := RecoverRuns(runs, ids, plan).value;
            |after| == |runs| && forall r :: 0 <= r < |runs| && after[r].status == Running
                                   ==> runs[r].status == Running && r !in ids
    decreases |ids|
  {
    if ids != [] {
      var runs2 := runs[ids[0] := Interrupted(runs[ids[0]])];
      forall k | 0 <= k < |ids[1..]|
        ensures runs2[ids[1..][k]] == runs[ids[k + 1]]
      {
        assert ids[0] != ids[k + 1];
      }
      RecoverSucceeds(runs2, ids[1..], plan);
    }
  }

  lemma {:induction false} RecoveryRunsExact(runs: seq<Run>, n: nat, oldName: string, newName: string)
    requires n <= |runs|
    ensures var ids := RecoveryRuns(runs, n, oldName, newName);
            && (forall k :: 0 <= k < |ids|
                  ==> ids[k] < n && runs[ids[k]].Serves(oldName, newName) && runs[ids[k]].status == Running)
            && (forall j, k :: 0 <= j < k < |ids| ==> ids[j] != ids[k])
            && (forall r :: 0 <= r < n && runs[r].Serves(oldName, newName) && runs[r].status == Running ==> r in ids)
  {
    if n > 0 {
      RecoveryRunsExact(runs, n - 1, oldName, newName);
    }
  }

  /** The steps from a confirmed plan to the end, when nothing fails. */
  function Moves(k: nat): seq<Step> {
    if k == 0 then [Finish(true)] else [PersistIntent(true), Relocate(Done), Commit(true)] + Moves(k - 1)
  }

  function Uninterrupted(w: World, newName: string, plan: Plan): seq<Step> {
    [Preview(newName, IdOrder(|w.runs|), {}), Start(plan, false)] + Moves(|plan.candidates|)
  }

  lemma ExecuteThree(s: System, a: Step, b: Step, c: Step)
    ensures Execute(s, [a, b, c]) == Apply(Apply(Apply(s, a), b), c)
  {
    ExecuteConcat(s, [a, b], [c]);
    ExecuteConcat(s, [a], [b]);
    assert [a, b] + [c] == [a, b, c] && [a] + [b] == [a, b];
    ExecuteOne(s, a);
    ExecuteOne(Apply(s, a), b);
    ExecuteOne(Apply(Apply(s, a), b), c);
  }

  // ---- one candidate at a time ----

  /** A process about to treat its next candidate, each remaining one marked as moved exactly when it is. */
  ghost predicate Proceeding(
    s: System, cat0: Catalog, tree0: Tree, own: seq<File>, names: set<string>, newName: string, route: Route, r: nat,
    m: nat)
  {
    && Campaign(s, cat0, tree0, own, names, newName, route, r, m)
    && s.process.Active? && s.process.phase.Ready? && s.process.next <= |s.process.plan.candidates|
    && Marked(s.process.plan, s.process.next, m)
  }

  ghost predicate Marked(plan: Plan, next: nat, m: nat) {
    forall k :: next <= k < |plan.candidates| ==> plan.candidates[k].alreadyMoved == (plan.candidates[k].artifactId < m)
  }

  lemma NextRowMatches(
    s: System, cat0: Catalog, tree0: Tree, own: seq<File>, names: set<string>, newName: string, route: Route, r: nat,
    m: nat)
    requires Proceeding(s, cat0, tree0, own, names, newName, route, r, m)
             && s.process.next < |s.process.plan.candidates|
    ensures PlaylistMatches(s.world, s.process.plan)
    ensures CandidateRowsMatch(s.world, s.process.plan.candidates[s.process.next])
    ensures s.world.catalog.playlist.folderName == cat0.playlist.folderName
  {
    var plan, c := s.process.plan, s.process.plan.candidates[s.process.next];
    PlanFacts(s, own, names, cat0.playlist.folderName, newName, plan);
    assert Movable(s.world.catalog, plan, c) && Sound(s.world.catalog, own, c);
    RowsAhead(cat0, s.world.catalog, tree0, own, names, newName, route, r, c.artifactId);
  }

  /** A process between the intent and the record of its next candidate. */
  ghost predicate Treating(
    s: System, cat0: Catalog, tree0: Tree, own: seq<File>, names: set<string>, newName: string, route: Route, r: nat,
    m: nat)
  {
    && Campaign(s, cat0, tree0, own, names, newName, route, r, m)
    && s.process.Active? && s.process.next < |s.process.plan.candidates|
    && CandidateRowsMatch(s.world, s.process.plan.candidates[s.process.next])
  }

  lemma PersistProceeds(
    s: System, cat0: Catalog, tree0: Tree, own: seq<File>, names: set<string>, newName: string, route: Route, r: nat,
    m: nat)
    requires Proceeding(s, cat0, tree0, own, names, newName, route, r, m)
             && s.process.next < |s.process.plan.candidates|
    ensures var s1 := Apply(s, PersistIntent(true));
            Treating(s1, cat0, tree0, own, names, newName, route, r, m) && s1.process == s.process.(phase := Intended)
  {
    NextRowMatches(s, cat0, tree0, own, names, newName, route, r, m);
    StepRecords(s, own, names, cat0.playlist.folderName, newName, PersistIntent(true));
    Bystander(s, PersistIntent(true));
  }

  lemma MarkedNext(plan: Plan, next: nat, m: nat)
    requires next < |plan.candidates| && InIdOrder(plan.candidates) && Marked(plan, next, m)
    requires m <= plan.candidates[next].artifactId + 1
    ensures Marked(plan, next + 1, plan.candidates[next].artifactId + 1)
  {
  }

  /** The storage calls of a candidate whose file is where the plan says. */
  lemma MoveDone(tree: Tree, c: Candidate)
    requires c.identity.Some?
    requires var (lacks, holds) :=
               if c.alreadyMoved then ((c.storageId, c.source), Place(c)) else (Place(c), (c.storageId, c.source));
             lacks !in tree && holds in tree && tree[holds] == c.identity.value.file && lacks != holds
    ensures MoveFile(tree, c, Done)
         == (if c.alreadyMoved then tree else Rename(tree, (c.storageId, c.source), Place(c)), true)
  {
  }

  /** Whether its file has moved before or moves now, treating the first journey ahead leaves the same tree. */
  lemma TreatedTree(
    rows: seq<Artifact>, route: Route, tree0: Tree, own: seq<File>, r: nat, m: nat, a: nat, c: Candidate, tree: Tree)
    requires ClearFiles(rows, route, tree0, own) && Front(route, r, m) && r <= a < |route|
    requires tree == AfterMoves(rows, route, tree0, m)
    requires NoRoute(route, r, a) && route[a].Some? && (r < m ==> m == a + 1) && c.alreadyMoved == (a < m)
    requires (c.storageId, c.source) == Home(rows, a) && Place(c) == Away(rows, route, a)
    requires c.identity.Some? && c.identity.value.file == own[a]
    ensures m <= a + 1 && Front(route, r, a + 1)
    ensures MoveFile(tree, c, Done) == (AfterMoves(rows, route, tree0, a + 1), true)
  {
    AfterMovesShape(rows, route, tree0, own, m);
    assert Shaped(rows, route, own, m, tree, a);
    MoveDone(tree, c);
    if a >= m {
      OneMoreMove(rows, route, tree0, own, r, m, a);
    }
  }

  lemma ApplyRelocate(s: System, tree2: Tree)
    requires s.process.Active? && s.process.run < |s.world.runs| && s.process.phase.Intended?
    requires s.process.next < |s.process.plan.candidates| && s.process.plan.candidates[s.process.next].identity.Some?
    requires MoveFile(s.world.tree, s.process.plan.candidates[s.process.next], Done) == (tree2, true)
    ensures Apply(s, Relocate(Done)) == System(s.world.(tree := tree2), s.plans, s.process.(phase := Phase.Relocated))
  {
  }

  lemma CampaignRelocated(
    s: System, s2: System, cat0: Catalog, tree0: Tree, own: seq<File>, names: set<string>, newName: string,
    route: Route, r: nat, m: nat,
    m2: nat)
    requires Treating(s, cat0, tree0, own, names, newName, route, r, m)
    requires Recording(s2, own, names, cat0.playlist.folderName, newName) && Front(route, r, m2)
    requires s2 == System(s.world.(tree := AfterMoves(cat0.artifacts, route, tree0, m2)), s.plans,
             s.process.(phase := Phase.Relocated))
    ensures Treating(s2, cat0, tree0, own, names, newName, route, r, m2)
  {
  }

  lemma RelocateProceeds(
    s: System, cat0: Catalog, tree0: Tree, own: seq<File>, names: set<string>, newName: string, route: Route, r: nat,
    m: nat)
    returns (m2: nat)
    requires Treating(s, cat0, tree0, own, names, newName, route, r, m)
    requires s.process.phase.Intended? && Marked(s.process.plan, s.process.next, m)
    ensures Marked(s.process.plan, s.process.next + 1, m2)
    ensures var s2 := Apply(s, Relocate(Done));
            Treating(s2, cat0, tree0, own, names, newName, route, r, m2)
              && s2.process == s.process.(phase := Phase.Relocated)
  {
    var a := NextAhead(s, cat0, tree0, own, names, newName, route, r, m);
    m2 := a + 1;
    CampaignFiles(s, cat0, tree0, own, names, newName, route, r, m);
    TreatedTree(cat0.artifacts, route, tree0, own, r, m, a, s.process.plan.candidates[s.process.next], s.world.tree);
    TreatingPlan(s, cat0, tree0, own, names, newName, route, r, m);
    MarkedNext(s.process.plan, s.process.next, m);
    ApplyRelocate(s, AfterMoves(cat0.artifacts, route, tree0, m2));
    RelocatedRecords(s, cat0, tree0, own, names, newName, route, r, m);
    CampaignRelocated(s, Apply(s, Relocate(Done)), cat0, tree0, own, names, newName, route, r, m, m2);
  }

  lemma TreatingPlan(
    s: System, cat0: Catalog, tree0: Tree, own: seq<File>, names: set<string>, newName: string, route: Route, r: nat,
    m: nat)
    requires Treating(s, cat0, tree0, own, names, newName, route, r, m) && s.process.phase.Intended?
    ensures InIdOrder(s.process.plan.candidates) && s.process.run < |s.world.runs|
  {
    PlanFacts(s, own, names, cat0.playlist.folderName, newName, s.process.plan);
  }

  lemma RelocatedRecords(
    s: System, cat0: Catalog, tree0: Tree, own: seq<File>, names: set<string>, newName: string, route: Route, r: nat,
    m: nat)
    requires Treating(s, cat0, tree0, own, names, newName, route, r, m)
    ensures Recording(Apply(s, Relocate(Done)), own, names, cat0.playlist.folderName, newName)
  {
    StepRecords(s, own, names, cat0.playlist.folderName, newName, Relocate(Done));
  }

  lemma CommitProceeds(
    s: System, cat0: Catalog, tree0: Tree, own: seq<File>, names: set<string>, newName: string, route: Route, r: nat,
    m: nat)
    returns (r2: nat)
    requires Treating(s, cat0, tree0, own, names, newName, route, r, m)
    requires s.process.phase.Relocated? && Marked(s.process.plan, s.process.next + 1, m)
    ensures var s3 := Apply(s, Commit(true));
            Proceeding(s3, cat0, tree0, own, names, newName, route, r2, m)
            && s3.process == s.process.(phase := Ready, next := s.process.next + 1)
  {
    r2 := CommitAdvances(s, cat0, tree0, own, names, newName, route, r, m, true);
    ApplyCommit(s);
  }

  lemma ApplyCommit(s: System)
    requires s.process.Active? && s.process.run < |s.world.runs| && s.process.phase.Relocated?
    requires s.process.next < |s.process.plan.candidates|
             && CandidateRowsMatch(s.world, s.process.plan.candidates[s.process.next])
    ensures Apply(s, Commit(true)).process == s.process.(phase := Ready, next := s.process.next + 1)
  {
  }

  function TreatOne(s: System): System { Apply(Apply(Apply(s, PersistIntent(true)), Relocate(Done)), Commit(true)) }

  lemma OneCandidate(
    s: System, cat0: Catalog, tree0: Tree, own: seq<File>, names: set<string>, newName: string, route: Route, r: nat,
    m: nat)
    returns (r2: nat, m2: nat)
    requires Proceeding(s, cat0, tree0, own, names, newName, route, r, m)
             && s.process.next < |s.process.plan.candidates|
    ensures var s3 := TreatOne(s);
            Proceeding(s3, cat0, tree0, own, names, newName, route, r2, m2)
            && s3.process == s.process.(next := s.process.next + 1)
  {
    PersistProceeds(s, cat0, tree0, own, names, newName, route, r, m);
    m2 := RelocateProceeds(Apply(s, PersistIntent(true)), cat0, tree0, own, names, newName, route, r, m);
    r2 := CommitProceeds(Apply(Apply(s, PersistIntent(true)), Relocate(Done)), cat0, tree0, own, names, newName, route,
      r, m2);
  }

  /** The folder has its new name, and rows and tree are as if every file had moved in one go. */
  ghost predicate Arriving(w: World, cat0: Catalog, tree0: Tree, newName: string, route: Route) {
    && |route| == |cat0.artifacts|
    && w.catalog.playlist.folderName == newName
    && Rows(cat0, w.catalog, route, |route|)
    && w.tree == AfterMoves(cat0.artifacts, route, tree0, |route|)
  }

  /** The final rows, tree and folder name, fixed by where the campaign started. */
  ghost predicate Arrived(w0: World, w: World, newName: string) {
    Arriving(w, w0.catalog, w0.tree, newName, Routes(w0.catalog, newName))
  }

  /** Under the new name a campaign has arrived. */
  lemma RenamedHasArrived(
    s: System, cat0: Catalog, tree0: Tree, own: seq<File>, names: set<string>, newName: string, route: Route, r: nat,
    m: nat)
    requires Campaign(s, cat0, tree0, own, names, newName, route, r, m)
    requires s.world.catalog.playlist.folderName != cat0.playlist.folderName
    ensures Arriving(s.world, cat0, tree0, newName, route)
  {
  }

  lemma LastStep(
    s: System, cat0: Catalog, tree0: Tree, own: seq<File>, names: set<string>, newName: string, route: Route, r: nat,
    m: nat)
    requires Proceeding(s, cat0, tree0, own, names, newName, route, r, m)
             && s.process.next == |s.process.plan.candidates|
    ensures Arriving(Apply(s, Finish(true)).world, cat0, tree0, newName, route)
  {
    PlanFacts(s, own, names, cat0.playlist.folderName, newName, s.process.plan);
    var r2, m2 := FinishAdvances(s, cat0, tree0, own, names, newName, route, r, m, true);
    assert PlaylistMatches(s.world, s.process.plan);
    RenamedHasArrived(Apply(s, Finish(true)), cat0, tree0, own, names, newName, route, r2, m2);
  }

  // Repeating a step keeps what one repetition keeps; stated for any step and any property.

  function Repeated(s: System, k: nat, step: System -> System): System
    decreases k
  {
    if k == 0 then s else Repeated(step(s), k - 1, step)
  }

  lemma {:induction false} RepeatedKeeps(s: System, k: nat, step: System -> System, holds: (System, nat) -> bool)
    requires holds(s, k) && forall t: System, j: nat :: j > 0 && holds(t, j) ==> holds(step(t), j - 1)
    ensures holds(Repeated(s, k, step), 0)
    decreases k
  {
    if k > 0 {
      RepeatedKeeps(step(s), k - 1, step, holds);
    }
  }

  lemma {:induction false} MovesRepeat(s: System, k: nat)
    ensures Execute(s, Moves(k)) == Apply(Repeated(s, k, TreatOne), Finish(true))
    decreases k
  {
    if k == 0 {
      ExecuteOne(s, Finish(true));
    } else {
      MovesUnroll(s, k - 1);
      MovesRepeat(TreatOne(s), k - 1);
    }
  }

  lemma MovesUnroll(s: System, k: nat)
    ensures Execute(s, Moves(k + 1)) == Execute(TreatOne(s), Moves(k))
  {
    ExecuteThree(s, PersistIntent(true), Relocate(Done), Commit(true));
    ExecuteConcat(s, [PersistIntent(true), Relocate(Done), Commit(true)], Moves(k));
  }

  /** A process that proceeds with k candidates left. */
  ghost predicate Left(
    s: System, cat0: Catalog, tree0: Tree, own: seq<File>, names: set<string>, newName: string, route: Route, k: nat)
  {
    exists r, m :: Proceeding(s, cat0, tree0, own, names, newName, route, r, m)
      && s.process.next + k == |s.process.plan.candidates|
  }

  lemma OneLess(
    s: System, cat0: Catalog, tree0: Tree, own: seq<File>, names: set<string>, newName: string, route: Route, k: nat)
    requires k > 0 && Left(s, cat0, tree0, own, names, newName, route, k)
    ensures Left(TreatOne(s), cat0, tree0, own, names, newName, route, k - 1)
  {
    var r, m :| Proceeding(s, cat0, tree0, own, names, newName, route, r, m)
      && s.process.next + k == |s.process.plan.candidates|;
    var r2, m2 := OneCandidate(s, cat0, tree0, own, names, newName, route, r, m);
  }

  lemma NoneLeft(
    s: System, cat0: Catalog, tree0: Tree, own: seq<File>, names: set<string>, newName: string, route: Route)
    requires Left(s, cat0, tree0, own, names, newName, route, 0)
    ensures Arriving(Apply(s, Finish(true)).world, cat0, tree0, newName, route)
  {
    var r, m :| Proceeding(s, cat0, tree0, own, names, newName, route, r, m)
      && s.process.next + 0 == |s.process.plan.candidates|;
    LastStep(s, cat0, tree0, own, names, newName, route, r, m);
  }

  /** Treating all remaining candidates and finishing arrives. */
  lemma MovesFinish(
    s: System, cat0: Catalog, tree0: Tree, own: seq<File>, names: set<string>, newName: string, route: Route, k: nat)
    requires Left(s, cat0, tree0, own, names, newName, route, k)
    ensures Arriving(Execute(s, Moves(k)).world, cat0, tree0, newName, route)
  {
    AllOff(s, cat0, tree0, own, names, newName, route, k);
    MovesRepeat(s, k);
    NoneLeft(Repeated(s, k, TreatOne), cat0, tree0, own, names, newName, route);
  }

  lemma AllOff(
    s: System, cat0: Catalog, tree0: Tree, own: seq<File>, names: set<string>, newName: string, route: Route, k: nat)
    requires Left(s, cat0, tree0, own, names, newName, route, k)
    ensures Left(Repeated(s, k, TreatOne), cat0, tree0, own, names, newName, route, 0)
  {
    var holds: (System, nat) -> bool := (t: System, j: nat) => Left(t, cat0, tree0, own, names, newName, route, j);
    forall t: System, j: nat | j > 0 && holds(t, j)
      ensures holds(TreatOne(t), j - 1)
    {
      OneLess(t, cat0, tree0, own, names, newName, route, j);
    }
    RepeatedKeeps(s, k, TreatOne, holds);
  }

  /** A fresh plan recovers every run that is still open. */
  lemma RecoversAll(w: World, newName: string, plan: Plan)
    requires Again(w, newName) == Ok(plan) && RunningServe(w.runs, w.catalog.playlist.folderName, newName)
    ensures RecoverRuns(w.runs, plan.recoveryRuns, plan).Some?
    ensures NoneRunning(RecoverRuns(w.runs, plan.recoveryRuns, plan).value)
    ensures plan.oldName == w.catalog.playlist.folderName && plan.playlistUpdatedAt == w.catalog.playlist.updatedAt
  {
    RecoveryRunsExact(w.runs, |w.runs|, plan.oldName, newName);
    RecoverSucceeds(w.runs, plan.recoveryRuns, plan);
    assert forall i :: 0 <= i < |w.runs| && w.runs[i].status == Running ==> i in plan.recoveryRuns;
  }

  /** A confirmed fresh plan starts, closing every interrupted run. */
  lemma Opens(
    s: System, cat0: Catalog, tree0: Tree, own: seq<File>, names: set<string>, newName: string, route: Route, r: nat,
    m: nat, plan: Plan)
    requires Campaign(s, cat0, tree0, own, names, newName, route, r, m) && s.process == Idle
    requires s.world.catalog.playlist.folderName == cat0.playlist.folderName
    requires Again(s.world, newName) == Ok(plan) && plan in s.plans
    ensures var s2 := Apply(s, Start(plan, false));
            Proceeding(s2, cat0, tree0, own, names, newName, route, r, m) && s2.process.plan == plan
              && s2.process.next == 0
  {
    var w := s.world;
    NotBlocked(s, cat0, tree0, own, names, newName, route, r, m);
    RecoversAll(w, newName, plan);
    forall k | 0 <= k < |plan.candidates|
      ensures CandidateRowsMatch(w, plan.candidates[k]) && plan.candidates[k].identity.Some?
      ensures plan.candidates[k].alreadyMoved == (plan.candidates[k].artifactId < m)
    {
      PlannedRow(s, cat0, tree0, own, names, newName, route, r, m, plan, k);
    }
    StartOpens(s, plan);
    StartedCampaign(s, cat0, tree0, own, names, newName, route, r, m, plan);
  }

  lemma StartOpens(s: System, plan: Plan)
    requires s.process == Idle && plan in s.plans && plan.Movable() && PlaylistMatches(s.world, plan)
    requires RecoverRuns(s.world.runs, plan.recoveryRuns, plan).Some?
    requires NoneRunning(RecoverRuns(s.world.runs, plan.recoveryRuns, plan).value)
    requires forall k :: 0 <= k < |plan.candidates| ==>
               CandidateRowsMatch(s.world, plan.candidates[k]) && plan.candidates[k].identity.Some?
    ensures var s2 := Apply(s, Start(plan, false));
            s2.process.Active? && s2.process.phase.Ready? && s2.process.plan == plan && s2.process.next == 0
  {
  }

  lemma StartedCampaign(
    s: System, cat0: Catalog, tree0: Tree, own: seq<File>, names: set<string>, newName: string, route: Route, r: nat,
    m: nat, plan: Plan)
    requires Campaign(s, cat0, tree0, own, names, newName, route, r, m) && plan.newName == newName
    ensures Campaign(Apply(s, Start(plan, false)), cat0, tree0, own, names, newName, route, r, m)
  {
    StepRecords(s, own, names, cat0.playlist.folderName, newName, Start(plan, false));
    Bystander(s, Start(plan, false));
  }

  lemma PlannedRow(
    s: System, cat0: Catalog, tree0: Tree, own: seq<File>, names: set<string>, newName: string, route: Route, r: nat,
    m: nat, plan: Plan,
    k: nat)
    requires Campaign(s, cat0, tree0, own, names, newName, route, r, m)
    requires s.world.catalog.playlist.folderName == cat0.playlist.folderName
    requires Again(s.world, newName) == Ok(plan) && k < |plan.candidates|
    ensures CandidateRowsMatch(s.world, plan.candidates[k]) && plan.candidates[k].identity.Some?
    ensures plan.candidates[k].alreadyMoved == (plan.candidates[k].artifactId < m)
  {
    var w, c := s.world, plan.candidates[k];
    NotBlocked(s, cat0, tree0, own, names, newName, route, r, m);
    assert Covered(w.catalog, newName, c);
    RowsAhead(cat0, w.catalog, tree0, own, names, newName, route, r, c.artifactId);
    if Displaced(s.world, own, c.artifactId) {
      FoundInCampaign(s.world, own, newName, c.artifactId);
    }
    RowInspects(s, cat0, tree0, own, names, newName, route, r, m, IdOrder(|s.world.runs|), c.artifactId);
    InspectedIdentity(w, own, newName, IdOrder(|w.runs|), {}, c);
  }

  lemma TwoThenRest(s: System, a: Step, b: Step, rest: seq<Step>)
    ensures Execute(s, [a, b] + rest) == Execute(Apply(Apply(s, a), b), rest)
  {
    ExecuteConcat(s, [a], [b]);
    assert [a] + [b] == [a, b];
    ExecuteOne(s, a);
    ExecuteOne(Apply(s, a), b);
    ExecuteConcat(s, [a, b], rest);
  }

  lemma PreviewShows(
    s: System, cat0: Catalog, tree0: Tree, own: seq<File>, names: set<string>, newName: string, route: Route, r: nat,
    m: nat, plan: Plan)
    requires Campaign(s, cat0, tree0, own, names, newName, route, r, m) && Again(s.world, newName) == Ok(plan)
    ensures var s1 := Apply(s, Preview(newName, IdOrder(|s.world.runs|), {}));
            Campaign(s1, cat0, tree0, own, names, newName, route, r, m)
            && s1.world == s.world && s1.process == s.process && plan in s1.plans
  {
    StepRecords(s, own, names, cat0.playlist.folderName, newName, Preview(newName, IdOrder(|s.world.runs|), {}));
  }

  /** From any abandoned state of a campaign, an uninterrupted run arrives. */
  lemma Completes(
    s: System, cat0: Catalog, tree0: Tree, own: seq<File>, names: set<string>, newName: string, route: Route, r: nat,
    m: nat, plan: Plan)
    requires Campaign(s, cat0, tree0, own, names, newName, route, r, m) && s.process == Idle
    requires s.world.catalog.playlist.folderName == cat0.playlist.folderName
    requires Again(s.world, newName) == Ok(plan)
    ensures Arriving(Execute(s, Uninterrupted(s.world, newName, plan)).world, cat0, tree0, newName, route)
  {
    var preview := Preview(newName, IdOrder(|s.world.runs|), {});
    PreviewShows(s, cat0, tree0, own, names, newName, route, r, m, plan);
    var s1 := Apply(s, preview);
    Opens(s1, cat0, tree0, own, names, newName, route, r, m, plan);
    var s2 := Apply(s1, Start(plan, false));
    assert Left(s2, cat0, tree0, own, names, newName, route, |plan.candidates|) by {
      assert s2.process.next + |plan.candidates| == |s2.process.plan.candidates|;
    }
    MovesFinish(s2, cat0, tree0, own, names, newName, route, |plan.candidates|);
    TwoThenRest(s, preview, Start(plan, false), Moves(|plan.candidates|));
  }

  // ---- the main results ----

  lemma SettledCampaign(
    s0: System, own: seq<File>, names: set<string>, newName: string, order: seq<nat>, down: set<nat>)
    requires Settled(s0, own, names, newName)
    requires BuildPlan(s0.world, newName, order, down).Ok?
             && BuildPlan(s0.world, newName, order, down).value.blocked == []
    ensures Campaign(s0, s0.world.catalog, s0.world.tree, own, names, newName, Routes(s0.world.catalog, newName), 0, 0)
  {
    FirstPlanClear(s0, own, names, newName, order, down);
  }

  lemma {:induction false} CampaignRun(
    s0: System, own: seq<File>, names: set<string>, newName: string, order: seq<nat>, down: set<nat>, steps: seq<Step>)
    returns (r: nat, m: nat)
    requires Settled(s0, own, names, newName)
    requires BuildPlan(s0.world, newName, order, down).Ok?
             && BuildPlan(s0.world, newName, order, down).value.blocked == []
    requires Pursues(steps, names, newName)
    ensures Campaign(Execute(s0, steps), s0.world.catalog, s0.world.tree, own, names, newName,
            Routes(s0.world.catalog, newName), r, m)
  {
    if steps == [] {
      SettledCampaign(s0, own, names, newName, order, down);
      r, m := 0, 0;
    } else {
      var init := steps[..|steps| - 1];
      r, m := CampaignRun(s0, own, names, newName, order, down, init);
      var mid, last := Execute(s0, init), steps[|steps| - 1];
      assert last in steps && Execute(s0, steps) == Apply(mid, last);
      r, m := CampaignStep(mid, s0.world.catalog, s0.world.tree, own, names, newName, Routes(s0.world.catalog, newName),
        r, m,
        last);
    }
  }

  /**
   After any run of a campaign for one new name: the folder has the old or the new name; with the
   new one, rows and tree are the final ones; with the old one and no process left, previewing the
   same name again is not blocked, and executing that plan without faults arrives there.
   */
  lemma Resumes(
    s0: System, own: seq<File>, names: set<string>, newName: string, order: seq<nat>, down: set<nat>, steps: seq<Step>)
    requires Settled(s0, own, names, newName)
    requires BuildPlan(s0.world, newName, order, down).Ok?
             && BuildPlan(s0.world, newName, order, down).value.blocked == []
    requires Pursues(steps, names, newName)
    ensures Resumable(s0.world, Execute(s0, steps), newName)
  {
    var r, m := CampaignRun(s0, own, names, newName, order, down, steps);
    CampaignResumable(Execute(s0, steps), s0.world, own, names, newName, r, m);
  }

  ghost predicate Resumable(w0: World, s: System, newName: string) {
    if s.world.catalog.playlist.folderName != w0.catalog.playlist.folderName then Arrived(w0, s.world, newName)
    else
      && Again(s.world, newName).Ok? && Again(s.world, newName).value.Movable()
      && (s.process == Idle ==>
            Arrived(w0, Execute(s, Uninterrupted(s.world, newName, Again(s.world, newName).value)).world, newName))
  }

  lemma CampaignResumable(
    s: System, w0: World, own: seq<File>, names: set<string>, newName: string, r: nat, m: nat)
    requires Campaign(s, w0.catalog, w0.tree, own, names, newName, Routes(w0.catalog, newName), r, m)
    ensures Resumable(w0, s, newName)
  {
    var route := Routes(w0.catalog, newName);
    if s.world.catalog.playlist.folderName != w0.catalog.playlist.folderName {
      RenamedHasArrived(s, w0.catalog, w0.tree, own, names, newName, route, r, m);
    } else {
      NotBlocked(s, w0.catalog, w0.tree, own, names, newName, route, r, m);
      if s.process == Idle {
        Completes(s, w0.catalog, w0.tree, own, names, newName, route, r, m, Again(s.world, newName).value);
      }
    }
  }

  /** The artifacts still under the old prefix. */
  ghost function StillAffected(cat: Catalog): set<nat> { set a: nat | a < |cat.artifacts| && Affected(cat, a) }

  /**
   The measure: while the folder keeps its name, each recorded move removes exactly one artifact, and no step
   adds one.
   */
  lemma MeasureDecreases(s: System, own: seq<File>, names: set<string>, step: Step)
    requires Kept(s, own, names) && !step.Finish?
    ensures var (before, after) := (s.world.catalog, Apply(s, step).world.catalog);
            after == before
              || (exists a :: a in StillAffected(before) && StillAffected(after) == StillAffected(before) - {a})
  {
    if step.Commit? && Apply(s, step).world.catalog != s.world.catalog {
      var w, w2 := s.world, Apply(s, step).world;
      var a := RecordedOne(s, own, names, step.acknowledged);
      var destination, version := w2.catalog.artifacts[a].path, w2.catalog.artifacts[a].updatedAt;
      OthersAffected(w.catalog, w2.catalog, a, destination, version);
    }
  }

  /** The one a commit records was still under the old prefix, and has left it. */
  lemma RecordedOne(s: System, own: seq<File>, names: set<string>, acknowledged: bool) returns (a: nat)
    requires Kept(s, own, names) && Apply(s, Commit(acknowledged)).world.catalog != s.world.catalog
    ensures var (cat, cat2) := (s.world.catalog, Apply(s, Commit(acknowledged)).world.catalog);
            && a < |cat.artifacts| == |cat2.artifacts|
            && Recorded(cat, cat2, a, cat2.artifacts[a].path, cat2.artifacts[a].updatedAt) && Affected(cat, a)
               && !Affected(cat2, a)
  {
    CommitEffect(s, own, names, acknowledged);
    CommitLeaves(s, own, names, acknowledged);
    NextIsFirst(s.world, names, s.process.plan, s.process.next);
    a := s.process.plan.candidates[s.process.next].artifactId;
  }

  lemma OthersAffected(cat: Catalog, cat2: Catalog, a: nat, destination: Path, version: nat)
    requires Recorded(cat, cat2, a, destination, version) && Affected(cat, a) && !Affected(cat2, a)
    ensures a in StillAffected(cat) && StillAffected(cat2) == StillAffected(cat) - {a}
  {
    forall b | 0 <= b < |cat.artifacts| && b != a
      ensures Affected(cat, b) == Affected(cat2, b)
    {
    }
  }
}
