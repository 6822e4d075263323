/**
 A folder move resumes after any crash: preview the same name again, confirm, and run on. One
 campaign from an old to a new name is followed through any number of previews, executions,
 faults and crashes; two numbers determine its rows and its tree at every moment.
 */
module FolderMoveResume {
  import opened Common
  import opened Naming
  import opened Layout
  import opened FolderPlan
  import opened FolderMove
  import opened FolderMoveSafety

  // ---- the uninterrupted journey ----

  /** Where each artifact goes, if anywhere. */
  type Route = seq<Option<Path>>

  function Routes(cat: Catalog, newName: string): (route: Route)
    ensures |route| == |cat.artifacts|
    ensures forall a :: 0 <= a < |route| ==> route[a] == RowDestination(cat, newName, a)
  {
    seq(|cat.artifacts|, a requires 0 <= a < |cat.artifacts| => RowDestination(cat, newName, a))
  }

  /** The places artifact a leaves and reaches. */
  function Home(rows: seq<Artifact>, a: nat): Location
    requires a < |rows|
  {
    rows[a].Location()
  }

  function Away(rows: seq<Artifact>, route: Route, a: nat): Location
    requires a < |rows| == |route| && route[a].Some?
  {
    (rows[a].storageId, route[a].value)
  }

  /** The tree after the files of all artifacts below k that move have moved, in id order. */
  function AfterMoves(rows: seq<Artifact>, route: Route, tree0: Tree, k: nat): Tree
    requires k <= |rows| == |route|
  {
    if k == 0 then tree0
    else
      var t := AfterMoves(rows, route, tree0, k - 1);
      if route[k - 1].Some? && Home(rows, k - 1) in t then Rename(t, Home(rows, k - 1), Away(rows, route, k - 1)) else t
  }

  /** The path of artifact a once those below r are recorded. */
  function RecordedPath(rows: seq<Artifact>, route: Route, a: nat, r: nat): Path
    requires a < |rows| == |route|
  {
    if a < r && route[a].Some? then route[a].value else rows[a].path
  }

  // ---- where a campaign starts ----

  /** Every file in place, nothing running, and no intent that could still be taken for a current one. */
  ghost predicate Settled(s: System, own: seq<File>, names: set<string>, newName: string) {
    && newName in names && newName != s.world.catalog.playlist.folderName && Kept(s, own, names)
    && s.process == Idle && NoneRunning(s.world.runs)
    && (forall r :: 0 <= r < |s.world.runs| ==> !Standing(s.world.catalog, s.world.runs[r]))
    && (forall a :: 0 <= a < |own| ==> InPlace(s.world.catalog, s.world.tree, own, a))
  }

  /** Any names may be previewed; what is confirmed is a plan for the new name. */
  ghost predicate Pursues(steps: seq<Step>, names: set<string>, newName: string) {
    forall step <- steps :: Pursuing(step, names, newName)
  }

  predicate Pursuing(step: Step, names: set<string>, newName: string) {
    (step.Preview? ==> step.newName in names) && (step.Start? ==> step.confirmed.newName == newName)
  }

  /** The files of an unblocked first plan: each at home, with nothing where it goes. */
  ghost predicate ClearFiles(rows: seq<Artifact>, route: Route, tree0: Tree, own: seq<File>) {
    && |own| == |rows| == |route|
    && (forall a :: 0 <= a < |own| ==> Home(rows, a) in tree0 && tree0[Home(rows, a)] == own[a])
    && (forall a :: 0 <= a < |own| && route[a].Some? ==>
          Away(rows, route, a) !in tree0 && (rows[a].filesize.Some? ==> own[a].size == rows[a].filesize))
    && (forall a, b :: 0 <= a < |own| && 0 <= b < |own| && a != b ==> Home(rows, a) != Home(rows, b))
    && (forall a, b :: 0 <= a < |own| && 0 <= b < |own| && a != b && route[a].Some? && route[b].Some?
                       ==> Away(rows, route, a) != Away(rows, route, b))
  }

  /** What an unblocked first plan says about rows and files. */
  ghost predicate Clear(cat0: Catalog, tree0: Tree, own: seq<File>, names: set<string>, newName: string, route: Route) {
    && newName != cat0.playlist.folderName && newName in names && cat0.playlist.folderName in names
       && Separated(cat0, names)
    && route == Routes(cat0, newName) && ClearFiles(cat0.artifacts, route, tree0, own)
    && (forall a :: 0 <= a < |own| ==> Resolvable(cat0, newName, a))
  }

  lemma TravellerClear(w: World, own: seq<File>, newName: string, order: seq<nat>, down: set<nat>, c: Candidate)
    requires FilesAccounted(w, own) && Covered(w.catalog, newName, c) && InPlace(w.catalog, w.tree, own, c.artifactId)
    requires Inspected(w, PendingIntents(w.runs, order, w.catalog.playlist.folderName, newName), down, c)
    ensures Place(c) !in w.tree && Place(c) == (w.catalog.artifacts[c.artifactId].storageId, c.destination)
    ensures var row := w.catalog.artifacts[c.artifactId]; row.filesize.Some? ==> own[c.artifactId].size == row.filesize
  {
  }

  lemma FirstPlanClear(
    s: System, own: seq<File>, names: set<string>, newName: string, order: seq<nat>, down: set<nat>)
    requires Settled(s, own, names, newName)
    requires BuildPlan(s.world, newName, order, down).Ok?
             && BuildPlan(s.world, newName, order, down).value.blocked == []
    ensures Clear(s.world.catalog, s.world.tree, own, names, newName, Routes(s.world.catalog, newName))
  {
    var w := s.world;
    var cs, n := BuildPlan(w, newName, order, down).value.candidates, |own|;
    var intents := PendingIntents(w.runs, order, w.catalog.playlist.folderName, newName);
    UnblockedIsFaithful(w, newName, intents, down, n);
    assert Faithful(w, newName, intents, down, n, cs);
    FaithfulClear(w, own, newName, order, down, cs, Routes(w.catalog, newName));
    assert forall a :: 0 <= a < n ==> Resolvable(w.catalog, newName, a);
  }

  lemma TravellerListed(
    w: World, own: seq<File>, newName: string, order: seq<nat>, down: set<nat>, cs: seq<Candidate>, a: nat, there: Path)
    returns (k: nat)
    requires FilesAccounted(w, own) && a < |own| && InPlace(w.catalog, w.tree, own, a)
    requires Faithful(w, newName, PendingIntents(w.runs, order, w.catalog.playlist.folderName, newName), down, |own|,
             cs)
    requires RowDestination(w.catalog, newName, a) == Some(there)
    ensures k < |cs| && cs[k].artifactId == a && Place(cs[k]) == (w.catalog.artifacts[a].storageId, there)
    ensures Place(cs[k]) !in w.tree
    ensures var row := w.catalog.artifacts[a]; row.filesize.Some? ==> own[a].size == row.filesize
  {
    assert Lists(cs, a);
    k :| 0 <= k < |cs| && cs[k].artifactId == a;
    assert Covered(w.catalog, newName, cs[k]);
    TravellerClear(w, own, newName, order, down, cs[k]);
  }

  lemma FaithfulClear(
    w: World, own: seq<File>, newName: string, order: seq<nat>, down: set<nat>, cs: seq<Candidate>, route: Route)
    requires FilesAccounted(w, own) && route == Routes(w.catalog, newName)
    requires forall a :: 0 <= a < |own| ==> InPlace(w.catalog, w.tree, own, a)
    requires Faithful(w, newName, PendingIntents(w.runs, order, w.catalog.playlist.folderName, newName), down, |own|,
             cs)
    ensures ClearFiles(w.catalog.artifacts, route, w.tree, own)
  {
    var rows := w.catalog.artifacts;
    forall a | 0 <= a < |own| && route[a].Some?
      ensures Away(rows, route, a) !in w.tree && (rows[a].filesize.Some? ==> own[a].size == rows[a].filesize)
    {
      var k := TravellerListed(w, own, newName, order, down, cs, a, route[a].value);
    }
    forall a, b | 0 <= a < |own| && 0 <= b < |own| && a != b && route[a].Some? && route[b].Some?
      ensures Away(rows, route, a) != Away(rows, route, b)
    {
      var i := TravellerListed(w, own, newName, order, down, cs, a, route[a].value);
      var j := TravellerListed(w, own, newName, order, down, cs, b, route[b].value);
      assert DistinctPlaces(cs) && i != j;
    }
    HomesDistinct(w, own);
  }

  lemma HomesDistinct(w: World, own: seq<File>)
    requires FilesAccounted(w, own) && forall a :: 0 <= a < |own| ==> InPlace(w.catalog, w.tree, own, a)
    ensures forall a, b :: 0 <= a < |own| && 0 <= b < |own| && a != b
                           ==> Home(w.catalog.artifacts, a) != Home(w.catalog.artifacts, b)
    ensures forall a :: 0 <= a < |own| ==>
                          Home(w.catalog.artifacts, a) in w.tree && w.tree[Home(w.catalog.artifacts, a)] == own[a]
  {
    forall a, b | 0 <= a < |own| && 0 <= b < |own| && a != b
      ensures Home(w.catalog.artifacts, a) != Home(w.catalog.artifacts, b)
    {
      assert InPlace(w.catalog, w.tree, own, a) && InPlace(w.catalog, w.tree, own, b);
    }
    forall a | 0 <= a < |own|
      ensures Home(w.catalog.artifacts, a) in w.tree && w.tree[Home(w.catalog.artifacts, a)] == own[a]
    {
      assert InPlace(w.catalog, w.tree, own, a);
    }
  }

  /** Artifact a is away if it is below k, and at home otherwise. */
  ghost predicate Shaped(rows: seq<Artifact>, route: Route, own: seq<File>, k: nat, t: Tree, a: nat)
    requires a < |own| == |rows| == |route|
  {
    route[a].Some? ==>
      if a < k then Home(rows, a) !in t && Away(rows, route, a) in t && t[Away(rows, route, a)] == own[a]
      else Away(rows, route, a) !in t && Home(rows, a) in t && t[Home(rows, a)] == own[a]
  }

  lemma {:induction false} AfterMovesShape(rows: seq<Artifact>, route: Route, tree0: Tree, own: seq<File>, k: nat)
    requires ClearFiles(rows, route, tree0, own) && k <= |own|
    ensures forall a :: 0 <= a < |own| ==> Shaped(rows, route, own, k, AfterMoves(rows, route, tree0, k), a)
  {
    if k > 0 {
      AfterMovesShape(rows, route, tree0, own, k - 1);
      var t := AfterMoves(rows, route, tree0, k - 1);
      forall a | 0 <= a < |own|
        ensures Shaped(rows, route, own, k, AfterMoves(rows, route, tree0, k), a)
      {
        assert Shaped(rows, route, own, k - 1, t, a);
        assert Shaped(rows, route, own, k - 1, t, k - 1);
        assert Home(rows, a) in tree0 && Home(rows, k - 1) in tree0;
      }
    }
  }

  ghost predicate NoRoute(route: Route, i: nat, j: nat) {
    forall a :: i <= a < j && a < |route| ==> route[a] == None
  }

  lemma {:induction false} AfterMovesSkip(rows: seq<Artifact>, route: Route, tree0: Tree, i: nat, j: nat)
    requires i <= j <= |rows| == |route| && NoRoute(route, i, j)
    ensures AfterMoves(rows, route, tree0, i) == AfterMoves(rows, route, tree0, j)
  {
    if i < j {
      AfterMovesSkip(rows, route, tree0, i, j - 1);
      assert route[j - 1] == None;
    }
  }

  // ---- the campaign invariant ----

  /** Standing intents are for this new name. */
  ghost predicate StandingFor(cat: Catalog, runs: seq<Run>, newName: string) {
    forall r :: 0 <= r < |runs| && Standing(cat, runs[r]) ==> runs[r].stats.value.newName == newName
  }

  ghost predicate RunningServe(runs: seq<Run>, oldName: string, newName: string) {
    forall r :: 0 <= r < |runs| && runs[r].status == Running ==> runs[r].Serves(oldName, newName)
  }

  ghost predicate Recording(s: System, own: seq<File>, names: set<string>, oldName: string, newName: string) {
    && oldName != newName && newName in names && Kept(s, own, names)
    && (s.process.Active? ==> s.process.plan.newName == newName)
    && StandingFor(s.world.catalog, s.world.runs, newName) && RunningServe(s.world.runs, oldName, newName)
    && (s.world.catalog.playlist.folderName == oldName || s.world.catalog.playlist.folderName == newName)
  }

  /** Rows below r are recorded at their destinations; apart from versions nothing else changed. */
  ghost predicate Rows(cat0: Catalog, cat: Catalog, route: Route, r: nat) {
    && cat.playlist.name == cat0.playlist.name
    && |cat.artifacts| == |cat0.artifacts| == |route|
    && forall a :: 0 <= a < |cat.artifacts| ==>
         cat.artifacts[a]
         == cat0.artifacts[a].(path := RecordedPath(cat0.artifacts, route, a, r),
            updatedAt := cat.artifacts[a].updatedAt)
  }

  /** Files below m have moved; at most the last of them is not yet recorded. */
  ghost predicate Front(route: Route, r: nat, m: nat) {
    r <= m <= |route| && (r < m ==> route[m - 1].Some? && NoRoute(route, r, m - 1))
  }

  ghost predicate Campaign(
    s: System, cat0: Catalog, tree0: Tree, own: seq<File>, names: set<string>, newName: string, route: Route, r: nat,
    m: nat)
  {
    && Clear(cat0, tree0, own, names, newName, route)
    && Recording(s, own, names, cat0.playlist.folderName, newName)
    && Front(route, r, m)
    && s.world.tree == AfterMoves(cat0.artifacts, route, tree0, m)
    && Rows(cat0, s.world.catalog, route, r)
    && (s.world.catalog.playlist.folderName == cat0.playlist.folderName
        || (s.world.catalog.playlist.folderName == newName && r == |route|))
  }

  // ---- rows of a campaign under way ----

  /** While the old name stands, exactly the rows from r on still have their journey before them. */
  lemma RowsAhead(
    cat0: Catalog, cat: Catalog, tree0: Tree, own: seq<File>, names: set<string>, newName: string, route: Route, r: nat,
    a: nat)
    requires Clear(cat0, tree0, own, names, newName, route) && Rows(cat0, cat, route, r) && a < |own|
    requires cat.playlist.folderName == cat0.playlist.folderName
    ensures Resolvable(cat, newName, a)
    ensures RowDestination(cat, newName, a) == if a < r then None else route[a]
    ensures Affected(cat, a) <==> a >= r && route[a].Some?
  {
    var row0, row := cat0.artifacts[a], cat.artifacts[a];
    assert Resolvable(cat0, newName, a);
    assert RowPrefix(cat.playlist, row, newName) == RowPrefix(cat0.playlist, row0, newName);
    assert RowPrefix(cat.playlist, row, cat.playlist.folderName)
           == RowPrefix(cat0.playlist, row0, cat0.playlist.folderName);
    SeparatedStays(cat0, cat, names);
    DestinationFacts(cat0, a, newName, names);
    DestinationFacts(cat, a, newName, names);
  }

  // ---- records ----

  lemma StandingSame(cat: Catalog, before: seq<Run>, after: seq<Run>, newName: string)
    requires StandingFor(cat, before, newName) && SameRuns(before, after)
    ensures StandingFor(cat, after, newName)
  {
    forall r | 0 <= r < |after| && Standing(cat, after[r])
      ensures after[r].stats.value.newName == newName
    {
      assert SameRecord(before[r], after[r]) && Standing(cat, before[r]);
    }
  }

  lemma RunningSame(before: seq<Run>, after: seq<Run>, oldName: string, newName: string)
    requires RunningServe(before, oldName, newName) && SameRuns(before, after)
    requires forall r :: |before| <= r < |after| ==> after[r].Serves(oldName, newName)
    ensures RunningServe(after, oldName, newName)
  {
    forall r | 0 <= r < |after| && after[r].status == Running
      ensures after[r].Serves(oldName, newName)
    {
      if r < |before| {
        assert SameRecord(before[r], after[r]);
        assert before[r].status == Running;
      }
    }
  }

  /** What the invariant says about a plan for the new name and the playlist as it is. */
  lemma PlanFacts(s: System, own: seq<File>, names: set<string>, oldName: string, newName: string, p: Plan)
    requires Recording(s, own, names, oldName, newName) && p in s.plans && p.newName == newName
    ensures PlanKept(s.world.catalog, own, p, names)
    ensures p.blocked == [] && p.playlistUpdatedAt == s.world.catalog.playlist.updatedAt ==>
              CurrentPlan(s.world.catalog, p, names)
                && s.world.catalog.playlist.folderName == oldName == p.oldName
  {
    assert PlanKept(s.world.catalog, own, p, names);
  }

  lemma StartRecords(
    s: System, own: seq<File>, names: set<string>, oldName: string, newName: string, plan: Plan, othersActive: bool)
    requires Recording(s, own, names, oldName, newName) && plan.newName == newName
    ensures Recording(Apply(s, Start(plan, othersActive)), own, names, oldName, newName)
  {
    StartKeeps(s, own, names, plan, othersActive);
    var s2 := Apply(s, Start(plan, othersActive));
    if s2 != s {
      PlanFacts(s, own, names, oldName, newName, plan);
      RecoverKeepsRecords(s.world.runs, plan.recoveryRuns, plan);
      assert SameRuns(s.world.runs, s2.world.runs);
      StandingSame(s.world.catalog, s.world.runs, s2.world.runs, newName);
      RunningSame(s.world.runs, s2.world.runs, oldName, newName);
    }
  }

  lemma RecoverOrphanRecords(
    s: System, own: seq<File>, names: set<string>, oldName: string, newName: string, id: nat)
    requires Recording(s, own, names, oldName, newName)
    ensures Recording(Apply(s, RecoverOrphan(id)), own, names, oldName, newName)
  {
    RecoverOrphanKeeps(s, own, names, id);
    var s2 := Apply(s, RecoverOrphan(id));
    if s2 != s {
      StandingSame(s.world.catalog, s.world.runs, s2.world.runs, newName);
      RunningSame(s.world.runs, s2.world.runs, oldName, newName);
    }
  }

  /** Replacing the last run. */
  lemma LastRunRecords(cat: Catalog, before: seq<Run>, after: Run, oldName: string, newName: string)
    requires |before| > 0 && StandingFor(cat, before, newName) && RunningServe(before, oldName, newName)
    requires Standing(cat, after) ==> after.stats.value.newName == newName
    requires after.status == Running ==> after.Serves(oldName, newName)
    ensures StandingFor(cat, before[|before| - 1 := after], newName)
    ensures RunningServe(before[|before| - 1 := after], oldName, newName)
  {
  }

  lemma PersistIntentRecords(
    s: System, own: seq<File>, names: set<string>, oldName: string, newName: string, acknowledged: bool)
    requires Recording(s, own, names, oldName, newName)
    ensures Recording(Apply(s, PersistIntent(acknowledged)), own, names, oldName, newName)
  {
    PersistIntentKeeps(s, own, names, acknowledged);
    var s2 := Apply(s, PersistIntent(acknowledged));
    if s2.world != s.world {
      PersistEffect(s, own, names, acknowledged);
      PlanFacts(s, own, names, oldName, newName, s.process.plan);
      LastRunRecords(s.world.catalog, s.world.runs, Intending(s.world, s.process.plan, s.process.next), oldName,
        newName);
    }
  }

  lemma RecordFailureRecords(s: System, own: seq<File>, names: set<string>, oldName: string, newName: string)
    requires Recording(s, own, names, oldName, newName)
    ensures Recording(Apply(s, RecordFailure), own, names, oldName, newName)
  {
    RecordFailureKeeps(s, own, names);
    var s2 := Apply(s, RecordFailure);
    if s2.world != s.world {
      LastRunRecords(s.world.catalog, s.world.runs, s2.world.runs[s.process.run], oldName, newName);
    }
  }

  lemma CommitRuns(
    s: System, own: seq<File>, names: set<string>, oldName: string, newName: string, acknowledged: bool)
    requires Kept(s, own, names) && RunningServe(s.world.runs, oldName, newName)
    requires Apply(s, Commit(acknowledged)).world != s.world
    ensures var s2 := Apply(s, Commit(acknowledged));
            && s2.process.Active? && s.process.Active? && s2.process.plan == s.process.plan
            && s2.world.catalog.playlist == s.world.catalog.playlist
            && StandingFor(s2.world.catalog, s2.world.runs, newName) && RunningServe(s2.world.runs, oldName, newName)
  {
    CommittedNoneStands(s, own, names, acknowledged);
    var a, destination := CommitShape(s, acknowledged);
  }

  lemma CommitRecords(
    s: System, own: seq<File>, names: set<string>, oldName: string, newName: string, acknowledged: bool)
    requires Recording(s, own, names, oldName, newName)
    ensures Recording(Apply(s, Commit(acknowledged)), own, names, oldName, newName)
  {
    CommitKeeps(s, own, names, acknowledged);
    if Apply(s, Commit(acknowledged)).world != s.world {
      CommitRuns(s, own, names, oldName, newName, acknowledged);
    }
  }

  lemma CommittedNoneStands(s: System, own: seq<File>, names: set<string>, acknowledged: bool)
    requires Kept(s, own, names) && Apply(s, Commit(acknowledged)).world != s.world
    ensures var w2 := Apply(s, Commit(acknowledged)).world;
            forall r :: 0 <= r < |w2.runs| ==> !Standing(w2.catalog, w2.runs[r])
  {
    CommitEffect(s, own, names, acknowledged);
    CommitLeaves(s, own, names, acknowledged);
    NextIsFirst(s.world, names, s.process.plan, s.process.next);
    var c := s.process.plan.candidates[s.process.next];
    CommitNoneStands(s.world, Apply(s, Commit(acknowledged)).world, own, c.artifactId, c.destination);
  }

  lemma FinishRecords(
    s: System, own: seq<File>, names: set<string>, oldName: string, newName: string, acknowledged: bool)
    requires Recording(s, own, names, oldName, newName)
    ensures Recording(Apply(s, Finish(acknowledged)), own, names, oldName, newName)
  {
    FinishKeeps(s, own, names, acknowledged);
    var s2 := Apply(s, Finish(acknowledged));
    if s2.world != s.world {
      FinishNoneStands(s, own, names, acknowledged);
    }
  }

  /** Previews, moves, exceptions and crashes change no row and no run. */
  lemma QuietRecords(s: System, own: seq<File>, names: set<string>, oldName: string, newName: string, step: Step)
    requires Recording(s, own, names, oldName, newName) && Kept(Apply(s, step), own, names)
    requires step.Preview? || step.Relocate? || step.Raise? || step.Crash?
    ensures Recording(Apply(s, step), own, names, oldName, newName)
  {
    var s2 := Apply(s, step);
    assert s2.world.catalog == s.world.catalog && s2.world.runs == s.world.runs;
  }

  lemma CrashKeeps(s: System, own: seq<File>, names: set<string>)
    requires Kept(s, own, names)
    ensures Kept(Apply(s, Crash), own, names)
  {
  }

  lemma StepRecords(s: System, own: seq<File>, names: set<string>, oldName: string, newName: string, step: Step)
    requires Recording(s, own, names, oldName, newName) && Pursuing(step, names, newName)
    ensures Recording(Apply(s, step), own, names, oldName, newName)
  {
    match step {
      case Preview(name, order, down) =>
        PreviewKeeps(s, own, names, name, order, down);
        QuietRecords(s, own, names, oldName, newName, step);
      case Start(plan, othersActive) => StartRecords(s, own, names, oldName, newName, plan, othersActive);
      case PersistIntent(acknowledged) => PersistIntentRecords(s, own, names, oldName, newName, acknowledged);
      case Relocate(outcome) =>
        RelocateKeeps(s, own, names, outcome);
        QuietRecords(s, own, names, oldName, newName, step);
      case Commit(acknowledged) => CommitRecords(s, own, names, oldName, newName, acknowledged);
      case Finish(acknowledged) => FinishRecords(s, own, names, oldName, newName, acknowledged);
      case Raise(commitAttempted) =>
        RaiseKeeps(s, own, names, commitAttempted);
        QuietRecords(s, own, names, oldName, newName, step);
      case RecordFailure => RecordFailureRecords(s, own, names, oldName, newName);
      case RecoverOrphan(id) => RecoverOrphanRecords(s, own, names, oldName, newName, id);
      case Crash =>
        CrashKeeps(s, own, names);
        QuietRecords(s, own, names, oldName, newName, step);
    }
  }

  // ---- the campaign step by step ----

  /** A process not handling an exception works for the old name; its next candidate is the first journey ahead. */
  lemma NextAhead(
    s: System, cat0: Catalog, tree0: Tree, own: seq<File>, names: set<string>, newName: string, route: Route, r: nat,
    m: nat) returns (a: nat)
    requires Campaign(s, cat0, tree0, own, names, newName, route, r, m)
    requires s.process.Active? && (s.process.phase.Intended? || s.process.phase.Relocated?)
    ensures s.world.catalog.playlist.folderName == cat0.playlist.folderName
    ensures var c := s.process.plan.candidates[s.process.next];
            && a == c.artifactId && r <= a < |route| && NoRoute(route, r, a) && route[a] == Some(c.destination)
            && (c.storageId, c.source) == Home(cat0.artifacts, a) && Place(c) == Away(cat0.artifacts, route, a)
            && c.identity.Some? && c.identity.value.file == own[a]
            && s.world.catalog.artifacts[a].Location() == Home(cat0.artifacts, a)
    ensures r < m ==> m == a + 1
  {
    var w := s.world;
    var plan, next := s.process.plan, s.process.next;
    var c := plan.candidates[next];
    PlanFacts(s, own, names, cat0.playlist.folderName, newName, plan);
    assert Movable(w.catalog, plan, c) && Sound(w.catalog, own, c);
    NextIsFirst(w, names, plan, next);
    a := c.artifactId;
    RowsAhead(cat0, w.catalog, tree0, own, names, newName, route, r, a);
    forall b | r <= b < a
      ensures route[b] == None
    {
      RowsAhead(cat0, w.catalog, tree0, own, names, newName, route, r, b);
    }
    if r < m {
      RowsAhead(cat0, w.catalog, tree0, own, names, newName, route, r, m - 1);
    }
  }

  /** Moving the first file still at home advances the tree by exactly its journey. */
  lemma OneMoreMove(rows: seq<Artifact>, route: Route, tree0: Tree, own: seq<File>, r: nat, m: nat, a: nat)
    requires ClearFiles(rows, route, tree0, own) && Front(route, r, m) && r <= a < |route|
    requires NoRoute(route, r, a) && route[a].Some? && (r < m ==> m == a + 1)
    requires Home(rows, a) in AfterMoves(rows, route, tree0, m)
    ensures AfterMoves(rows, route, tree0, a + 1)
         == Rename(AfterMoves(rows, route, tree0, m), Home(rows, a), Away(rows, route, a))
    ensures Front(route, r, a + 1)
  {
    AfterMovesShape(rows, route, tree0, own, m);
    assert Shaped(rows, route, own, m, AfterMoves(rows, route, tree0, m), a);
    AfterMovesSkip(rows, route, tree0, r, a);
  }

  /** A campaign goes on when only the tree changes, to that of a later front. */
  lemma CampaignAfterMove(
    s: System, s2: System, cat0: Catalog, tree0: Tree, own: seq<File>, names: set<string>, newName: string,
    route: Route, r: nat, m: nat,
    m2: nat)
    requires Campaign(s, cat0, tree0, own, names, newName, route, r, m)
    requires Recording(s2, own, names, cat0.playlist.folderName, newName) && Front(route, r, m2)
    requires s2.world.tree == AfterMoves(cat0.artifacts, route, tree0, m2) && s2.world.catalog == s.world.catalog
    ensures Campaign(s2, cat0, tree0, own, names, newName, route, r, m2)
  {
  }

  lemma RelocateAdvances(
    s: System, cat0: Catalog, tree0: Tree, own: seq<File>, names: set<string>, newName: string, route: Route, r: nat,
    m: nat,
    outcome: MoveOutcome)
    returns (m2: nat)
    requires Campaign(s, cat0, tree0, own, names, newName, route, r, m)
    ensures Campaign(Apply(s, Relocate(outcome)), cat0, tree0, own, names, newName, route, r, m2)
  {
    var s2 := Apply(s, Relocate(outcome));
    RelocateKeepsCatalog(s, outcome);
    RelocateKeeps(s, own, names, outcome);
    if s2.world.tree == s.world.tree {
      m2 := m;
    } else {
      RelocateRenames(s, outcome);
      m2 := MovedFront(s, cat0, tree0, own, names, newName, route, r, m, s.process.plan.candidates[s.process.next]);
    }
    CampaignAfterMove(s, s2, cat0, tree0, own, names, newName, route, r, m, m2);
  }

  lemma MovedFront(
    s: System, cat0: Catalog, tree0: Tree, own: seq<File>, names: set<string>, newName: string, route: Route, r: nat,
    m: nat, c: Candidate)
    returns (m2: nat)
    requires Campaign(s, cat0, tree0, own, names, newName, route, r, m)
    requires s.process.Active? && s.process.phase.Intended? && s.process.next < |s.process.plan.candidates|
    requires c == s.process.plan.candidates[s.process.next] && (c.storageId, c.source) in s.world.tree
    ensures Front(route, r, m2)
    ensures Rename(s.world.tree, (c.storageId, c.source), Place(c)) == AfterMoves(cat0.artifacts, route, tree0, m2)
  {
    var a := NextAhead(s, cat0, tree0, own, names, newName, route, r, m);
    m2 := a + 1;
    var rows, tree := cat0.artifacts, s.world.tree;
    CampaignFiles(s, cat0, tree0, own, names, newName, route, r, m);
    MovedTree(rows, route, tree0, own, r, m, a, c, tree);
  }

  lemma CampaignFiles(
    s: System, cat0: Catalog, tree0: Tree, own: seq<File>, names: set<string>, newName: string, route: Route, r: nat,
    m: nat)
    requires Campaign(s, cat0, tree0, own, names, newName, route, r, m)
    ensures ClearFiles(cat0.artifacts, route, tree0, own) && Front(route, r, m)
    ensures s.world.tree == AfterMoves(cat0.artifacts, route, tree0, m)
  {
  }

  lemma MovedTree(
    rows: seq<Artifact>, route: Route, tree0: Tree, own: seq<File>, r: nat, m: nat, a: nat, c: Candidate, tree: Tree)
    requires ClearFiles(rows, route, tree0, own) && Front(route, r, m) && r <= a < |route|
    requires NoRoute(route, r, a) && route[a].Some? && (r < m ==> m == a + 1)
    requires (c.storageId, c.source) == Home(rows, a) && Place(c) == Away(rows, route, a)
    requires tree == AfterMoves(rows, route, tree0, m) && (c.storageId, c.source) in tree
    ensures Front(route, r, a + 1)
    ensures Rename(tree, (c.storageId, c.source), Place(c)) == AfterMoves(rows, route, tree0, a + 1)
  {
    OneMoreMove(rows, route, tree0, own, r, m, a);
  }

  lemma RelocateKeepsCatalog(s: System, outcome: MoveOutcome)
    ensures Apply(s, Relocate(outcome)).world.catalog == s.world.catalog
  {
  }

  lemma CommitAdvances(
    s: System, cat0: Catalog, tree0: Tree, own: seq<File>, names: set<string>, newName: string, route: Route, r: nat,
    m: nat,
    acknowledged: bool)
    returns (r2: nat)
    requires Campaign(s, cat0, tree0, own, names, newName, route, r, m)
    ensures r <= r2 && (Apply(s, Commit(acknowledged)).world != s.world ==> r < r2 == m && route[m - 1].Some?)
    ensures Campaign(Apply(s, Commit(acknowledged)), cat0, tree0, own, names, newName, route, r2, m)
  {
    var s2 := Apply(s, Commit(acknowledged));
    r2 := r;
    CommitRecords(s, own, names, cat0.playlist.folderName, newName, acknowledged);
    if s2.world != s.world {
      var a := CommitFront(s, cat0, tree0, own, names, newName, route, r, m, acknowledged);
      r2 := m;
      CampaignRecorded(s, s2, cat0, tree0, own, names, newName, route, r, m, a);
    }
  }

  /** The row a commit records is the next journey's, whose file has moved. */
  lemma CommitFront(
    s: System, cat0: Catalog, tree0: Tree, own: seq<File>, names: set<string>, newName: string, route: Route, r: nat,
    m: nat,
    acknowledged: bool)
    returns (a: nat)
    requires Campaign(s, cat0, tree0, own, names, newName, route, r, m)
             && Apply(s, Commit(acknowledged)).world != s.world
    ensures r <= a < |route| && m == a + 1 && NoRoute(route, r, a) && route[a].Some?
    ensures var w2 := Apply(s, Commit(acknowledged)).world;
            w2.tree == s.world.tree && Recorded(s.world.catalog, w2.catalog, a, route[a].value, w2.clock)
    ensures s.world.catalog.playlist.folderName == cat0.playlist.folderName
  {
    CommitEffect(s, own, names, acknowledged);
    a := MovedAhead(s, cat0, tree0, own, names, newName, route, r, m);
  }

  /** A process that has moved its file stands at the front. */
  lemma MovedAhead(
    s: System, cat0: Catalog, tree0: Tree, own: seq<File>, names: set<string>, newName: string, route: Route, r: nat,
    m: nat) returns (a: nat)
    requires Campaign(s, cat0, tree0, own, names, newName, route, r, m)
    requires s.process.Active? && s.process.phase.Relocated? && s.process.next < |s.process.plan.candidates|
    ensures r <= a < |route| && m == a + 1 && NoRoute(route, r, a)
    ensures var c := s.process.plan.candidates[s.process.next]; c.artifactId == a && route[a] == Some(c.destination)
    ensures s.world.catalog.playlist.folderName == cat0.playlist.folderName
  {
    a := NextAhead(s, cat0, tree0, own, names, newName, route, r, m);
    CampaignFiles(s, cat0, tree0, own, names, newName, route, r, m);
    AfterMovesShape(cat0.artifacts, route, tree0, own, m);
    assert Shaped(cat0.artifacts, route, own, m, s.world.tree, a);
  }

  /** A campaign goes on when its next row is recorded. */
  lemma CampaignRecorded(
    s: System, s2: System, cat0: Catalog, tree0: Tree, own: seq<File>, names: set<string>, newName: string,
    route: Route, r: nat, m: nat,
    a: nat)
    requires Campaign(s, cat0, tree0, own, names, newName, route, r, m)
    requires Recording(s2, own, names, cat0.playlist.folderName, newName) && s2.world.tree == s.world.tree
    requires r <= a < |route| && m == a + 1 && NoRoute(route, r, a) && route[a].Some?
    requires Recorded(s.world.catalog, s2.world.catalog, a, route[a].value, s2.world.clock)
    requires s.world.catalog.playlist.folderName == cat0.playlist.folderName
    ensures Campaign(s2, cat0, tree0, own, names, newName, route, m, m)
  {
    assert Rows(cat0, s2.world.catalog, route, m);
  }

  /** A process whose candidates are through has no journey ahead. */
  lemma NoneAhead(
    s: System, cat0: Catalog, tree0: Tree, own: seq<File>, names: set<string>, newName: string, route: Route, r: nat,
    m: nat)
    requires Campaign(s, cat0, tree0, own, names, newName, route, r, m)
    requires s.process.Active? && s.process.phase.Ready? && s.process.next == |s.process.plan.candidates|
    ensures forall a :: r <= a < |route| ==> route[a] == None
    ensures s.process.plan.newName == newName && s.world.catalog.playlist.folderName == cat0.playlist.folderName
  {
    var w, plan := s.world, s.process.plan;
    PlanFacts(s, own, names, cat0.playlist.folderName, newName, plan);
    forall a | r <= a < |route|
      ensures route[a] == None
    {
      NothingLeft(w, own, plan, s.process.next, a);
      RowsAhead(cat0, w.catalog, tree0, own, names, newName, route, r, a);
    }
  }

  lemma FinishAdvances(
    s: System, cat0: Catalog, tree0: Tree, own: seq<File>, names: set<string>, newName: string, route: Route, r: nat,
    m: nat,
    acknowledged: bool)
    returns (r2: nat, m2: nat)
    requires Campaign(s, cat0, tree0, own, names, newName, route, r, m)
    ensures r <= r2
    ensures Campaign(Apply(s, Finish(acknowledged)), cat0, tree0, own, names, newName, route, r2, m2)
  {
    var s2 := Apply(s, Finish(acknowledged));
    r2, m2 := r, m;
    FinishRecords(s, own, names, cat0.playlist.folderName, newName, acknowledged);
    if s2.world != s.world {
      r2, m2 := |route|, |route|;
      NoneAhead(s, cat0, tree0, own, names, newName, route, r, m);
      FinishShape(s, acknowledged);
      CampaignRenamed(s, s2, cat0, tree0, own, names, newName, route, r, m);
    }
  }

  lemma FinishShape(s: System, acknowledged: bool)
    requires s.process.Active? && Apply(s, Finish(acknowledged)).world != s.world
    ensures var (w, w2) := (s.world, Apply(s, Finish(acknowledged)).world);
            && w2.tree == w.tree && w2.catalog.artifacts == w.catalog.artifacts
            && w2.catalog.playlist.name == w.catalog.playlist.name
            && w2.catalog.playlist.folderName == s.process.plan.newName
  {
  }

  /** A campaign goes on when its folder is renamed with no journey left. */
  lemma CampaignRenamed(
    s: System, s2: System, cat0: Catalog, tree0: Tree, own: seq<File>, names: set<string>, newName: string,
    route: Route, r: nat, m: nat)
    requires Campaign(s, cat0, tree0, own, names, newName, route, r, m)
    requires Recording(s2, own, names, cat0.playlist.folderName, newName) && NoRoute(route, r, |route|)
    requires s2.world.tree == s.world.tree && s2.world.catalog.artifacts == s.world.catalog.artifacts
    requires s2.world.catalog.playlist.name == s.world.catalog.playlist.name
    requires s2.world.catalog.playlist.folderName == newName
    ensures Campaign(s2, cat0, tree0, own, names, newName, route, |route|, |route|)
  {
    assert m == r;
    AfterMovesSkip(cat0.artifacts, route, tree0, r, |route|);
    assert Rows(cat0, s2.world.catalog, route, |route|);
  }

  lemma Bystander(s: System, step: Step)
    requires !step.Relocate? && !step.Commit? && !step.Finish?
    ensures Apply(s, step).world.tree == s.world.tree && Apply(s, step).world.catalog == s.world.catalog
  {
  }

  /** Every step of a campaign stays in it, and its front never falls back. */
  lemma CampaignStep(
    s: System, cat0: Catalog, tree0: Tree, own: seq<File>, names: set<string>, newName: string, route: Route, r: nat,
    m: nat, step: Step)
    returns (r2: nat, m2: nat)
    requires Campaign(s, cat0, tree0, own, names, newName, route, r, m) && Pursuing(step, names, newName)
    ensures Campaign(Apply(s, step), cat0, tree0, own, names, newName, route, r2, m2) && r <= r2
  {
    r2, m2 := r, m;
    match step {
      case Relocate(outcome) => m2 := RelocateAdvances(s, cat0, tree0, own, names, newName, route, r, m, outcome);
      case Commit(acknowledged) => r2 := CommitAdvances(s, cat0, tree0, own, names, newName, route, r, m, acknowledged);
      case Finish(acknowledged) => r2, m2 :=
        FinishAdvances(s, cat0, tree0, own, names, newName, route, r, m, acknowledged);
      case _ =>
        StepRecords(s, own, names, cat0.playlist.folderName, newName, step);
        Bystander(s, step);
    }
  }

  // ---- previewing again ----

  function IdOrder(n: nat): seq<nat> { if n == 0 then [] else IdOrder(n - 1) + [n - 1] }

  /** Read in id order, the intent kept for an artifact is that of the last run that has one. */
  lemma {:induction false} LatestIntent(
    runs: seq<Run>, n: nat, oldName: string, newName: string, i: nat) returns (j: nat)
    requires i < n <= |runs| && runs[i].Serves(oldName, newName) && runs[i].Intent().Some?
    ensures var a := runs[i].Intent().value.artifactId;
            && a in PendingIntents(runs, IdOrder(n), oldName, newName)
            && i <= j < n && runs[j].Intent() == Some(PendingIntents(runs, IdOrder(n), oldName, newName)[a].1)
            && runs[j].Intent().value.artifactId == a
  {
    PendingSnoc(runs, n - 1, oldName, newName);
    if i == n - 1 {
      j := i;
    } else {
      j := LatestIntent(runs, n - 1, oldName, newName, i);
      if Replaces(runs[n - 1], oldName, newName)
        && runs[n - 1].Intent().value.artifactId == runs[i].Intent().value.artifactId {
        j := n - 1;
      }
    }
  }

  predicate Replaces(run: Run, oldName: string, newName: string) { run.Serves(oldName, newName) && run.Intent().Some? }

  lemma PendingSnoc(runs: seq<Run>, n: nat, oldName: string, newName: string)
    requires n < |runs|
    ensures var before := PendingIntents(runs, IdOrder(n), oldName, newName);
            PendingIntents(runs, IdOrder(n + 1), oldName, newName)
            == if Replaces(runs[n], oldName, newName)
               then before[runs[n].Intent().value.artifactId := (n, runs[n].Intent().value)] else before
  {
    assert IdOrder(n + 1)[..|IdOrder(n + 1)| - 1] == IdOrder(n);
  }

  /** Reading the runs in this order finds the current intent of an artifact. */
  ghost predicate FindsLive(w: World, newName: string, order: seq<nat>, a: nat) {
    var intents := PendingIntents(w.runs, order, w.catalog.playlist.folderName, newName);
    a in intents && Live(w.catalog, intents[a].1)
  }

  /** A current intent that is found is taken for its row, with the identity of the artifact's own file. */
  lemma LiveIsTaken(w: World, own: seq<File>, newName: string, order: seq<nat>, a: nat)
    requires WorldKept(w, own) && Guarded(w) && a < |own|
    requires FindsLive(w, newName, order, a)
    ensures var folder := w.catalog.playlist.folderName;
            var intents := PendingIntents(w.runs, order, folder, newName);
            && a in intents && intents[a].1.artifactId == a && intents[a].1.identity.Some?
            && RowDestination(w.catalog, newName, a) == Some(intents[a].1.destination)
            && PendingIntentForRow(intents, a, w.catalog.artifacts[a], intents[a].1.destination)
               == intents[a].1.identity
            && intents[a].1.identity.value.file == own[a]
  {
    var (r, c) := PendingIntents(w.runs, order, w.catalog.playlist.folderName, newName)[a];
    PendingIsRecorded(w.runs, order, w.catalog.playlist.folderName, newName, a);
    assert Guards(w.catalog, w.tree, w.runs[r]) && Sound(w.catalog, own, c);
  }

  /**
   Reading the runs in id order for the name of an intent that explains where a file is finds a current intent
   of its artifact: stale ones are never taken for it.
   */
  lemma FoundIntentIsLive(w: World, own: seq<File>, a: nat, r: nat)
    requires WorldKept(w, own) && Guarded(w) && a < |own| && r < |w.runs|
    requires Explains(w.catalog, w.tree, own, a, w.runs[r])
    ensures FindsLive(w, w.runs[r].stats.value.newName, IdOrder(|w.runs|), a)
  {
    var j := LatestIntent(w.runs, |w.runs|, w.catalog.playlist.folderName, w.runs[r].stats.value.newName, r);
    assert r < j ==> NotNewer(w.runs[r], w.runs[j]);
    assert Sound(w.catalog, own, w.runs[j].Intent().value);
  }

  /** In a campaign, that name is the new one. */
  lemma FoundInCampaign(w: World, own: seq<File>, newName: string, a: nat)
    requires WorldKept(w, own) && Guarded(w) && StandingFor(w.catalog, w.runs, newName) && a < |own|
             && Displaced(w, own, a)
    ensures FindsLive(w, newName, IdOrder(|w.runs|), a)
  {
    var r :| 0 <= r < |w.runs| && Explains(w.catalog, w.tree, own, a, w.runs[r]);
    assert Standing(w.catalog, w.runs[r]);
    FoundIntentIsLive(w, own, a, r);
  }

  /**
   In every reachable state, under whatever names: a displaced artifact is recognised, with its own file's
   identity, when the name its intent was recorded for is previewed in id order.
   */
  lemma Recognised(s: System, own: seq<File>, names: set<string>, steps: seq<Step>, a: nat, r: nat, down: set<nat>)
    requires Initial(s, own, names) && Uses(steps, names) && a < |own|
    requires var w := Execute(s, steps).world;
             && |w.catalog.artifacts| == |own| && r < |w.runs| && w.catalog.artifacts[a].Location() !in w.tree
             && Explains(w.catalog, w.tree, own, a, w.runs[r]) && w.catalog.artifacts[a].storageId !in down
    ensures var w := Execute(s, steps).world;
            var newName := w.runs[r].stats.value.newName;
            var intents := PendingIntents(w.runs, IdOrder(|w.runs|), w.catalog.playlist.folderName, newName);
            var there := RowDestination(w.catalog, newName, a);
            && there.Some?
            && var i := Inspect(w.tree, down, intents, a, w.catalog.artifacts[a], there.value);
               i.alreadyMoved && i.blocked == None && i.identity.Some? && i.identity.value.file == own[a]
  {
    RunKeeps(s, own, names, steps, 0);
    var w := Execute(s, steps).world;
    var newName := w.runs[r].stats.value.newName;
    FoundIntentIsLive(w, own, a, r);
    LiveIsTaken(w, own, newName, IdOrder(|w.runs|), a);
    var (q, c) := PendingIntents(w.runs, IdOrder(|w.runs|), w.catalog.playlist.folderName, newName)[a];
    PendingIsRecorded(w.runs, IdOrder(|w.runs|), w.catalog.playlist.folderName, newName, a);
    assert Sound(w.catalog, own, c);
  }

  /** Every row still ahead passes inspection, and is recognised as already moved exactly when it has moved. */
  lemma RowInspects(
    s: System, cat0: Catalog, tree0: Tree, own: seq<File>, names: set<string>, newName: string, route: Route, r: nat,
    m: nat,
    order: seq<nat>, a: nat)
    requires Campaign(s, cat0, tree0, own, names, newName, route, r, m)
    requires s.world.catalog.playlist.folderName == cat0.playlist.folderName && r <= a < |route| && route[a].Some?
    requires Displaced(s.world, own, a) ==> FindsLive(s.world, newName, order, a)
    ensures var w := s.world;
            var intents := PendingIntents(w.runs, order, w.catalog.playlist.folderName, newName);
            var i := Inspect(w.tree, {}, intents, a, w.catalog.artifacts[a], route[a].value);
            i.blocked == None && i.alreadyMoved == (a < m)
  {
    var w := s.world;
    AfterMovesShape(cat0.artifacts, route, tree0, own, m);
    assert Shaped(cat0.artifacts, route, own, m, w.tree, a);
    RowsAhead(cat0, w.catalog, tree0, own, names, newName, route, r, a);
    if a < m {
      assert InPlace(w.catalog, w.tree, own, a) || Displaced(w, own, a);
      LiveIsTaken(w, own, newName, order, a);
    }
  }

  lemma RowClear(
    s: System, cat0: Catalog, tree0: Tree, own: seq<File>, names: set<string>, newName: string, route: Route, r: nat,
    m: nat,
    order: seq<nat>, a: nat)
    requires Campaign(s, cat0, tree0, own, names, newName, route, r, m)
    requires s.world.catalog.playlist.folderName == cat0.playlist.folderName && a < |route|
    requires Displaced(s.world, own, a) ==> FindsLive(s.world, newName, order, a)
    ensures var w := s.world;
            ClearRow(w, newName, PendingIntents(w.runs, order, w.catalog.playlist.folderName, newName), {}, a)
  {
    var cat := s.world.catalog;
    RowsAhead(cat0, cat, tree0, own, names, newName, route, r, a);
    forall i | 0 <= i < a
      ensures DistinctDestinations(cat, newName, i, a)
    {
      RowsAhead(cat0, cat, tree0, own, names, newName, route, r, i);
      if i >= r && route[i].Some? && route[a].Some? {
        assert Away(cat0.artifacts, route, i) != Away(cat0.artifacts, route, a);
      }
    }
    if r <= a && route[a].Some? {
      RowInspects(s, cat0, tree0, own, names, newName, route, r, m, order, a);
    }
  }

  lemma {:induction false} RowsClear(w: World, newName: string, intents: map<nat, (nat, Candidate)>, n: nat)
    requires n <= |w.catalog.artifacts|
    requires forall a :: 0 <= a < n ==> ClearRow(w, newName, intents, {}, a)
    ensures AllClear(w, newName, intents, {}, n)
  {
    if n > 0 {
      RowsClear(w, newName, intents, n - 1);
      assert ClearRow(w, newName, intents, {}, n - 1);
    }
  }

  /** Reading the runs in an order that finds the current intents, the same name can be confirmed again. */
  lemma ClearInOrder(
    s: System, cat0: Catalog, tree0: Tree, own: seq<File>, names: set<string>, newName: string, route: Route, r: nat,
    m: nat,
    order: seq<nat>)
    requires Campaign(s, cat0, tree0, own, names, newName, route, r, m)
    requires s.world.catalog.playlist.folderName == cat0.playlist.folderName
    requires forall a :: 0 <= a < |own| && Displaced(s.world, own, a) ==> FindsLive(s.world, newName, order, a)
    ensures var shown := BuildPlan(s.world, newName, order, {}); shown.Ok? && shown.value.Movable()
  {
    var w := s.world;
    var intents := PendingIntents(w.runs, order, w.catalog.playlist.folderName, newName);
    forall a | 0 <= a < |route|
      ensures ClearRow(w, newName, intents, {}, a)
    {
      RowClear(s, cat0, tree0, own, names, newName, route, r, m, order, a);
    }
    RowsClear(w, newName, intents, |route|);
    ClearRowsUnblocked(w, newName, intents, {}, |route|);
    assert IsClean(newName);
  }

  /** The plan a fresh preview shows, reading runs in id order and with every storage answering. */
  function Again(w: World, newName: string): Result<Plan, PlanError> {
    BuildPlan(w, newName, IdOrder(|w.runs|), {})
  }

  /** Whatever happened so far, the same name can be confirmed again. */
  lemma NotBlocked(
    s: System, cat0: Catalog, tree0: Tree, own: seq<File>, names: set<string>, newName: string, route: Route, r: nat,
    m: nat)
    requires Campaign(s, cat0, tree0, own, names, newName, route, r, m)
    requires s.world.catalog.playlist.folderName == cat0.playlist.folderName
    ensures Again(s.world, newName).Ok? && Again(s.world, newName).value.Movable()
    ensures var w := s.world;
            var intents := PendingIntents(w.runs, IdOrder(|w.runs|), w.catalog.playlist.folderName, newName);
            Faithful(w, newName, intents, {}, |w.catalog.artifacts|, Again(w, newName).value.candidates)
  {
    var w := s.world;
    forall a | 0 <= a < |own| && Displaced(w, own, a)
      ensures FindsLive(w, newName, IdOrder(|w.runs|), a)
    {
      FoundInCampaign(w, own, newName, a);
    }
    ClearInOrder(s, cat0, tree0, own, names, newName, route, r, m, IdOrder(|w.runs|));
    UnblockedIsFaithful(
      w, newName, PendingIntents(w.runs, IdOrder(|w.runs|), w.catalog.playlist.folderName, newName), {}, |route|);
  }

  // ---- previewing again, whatever the order ----

  /** The run at position k of an order is read for this pair of names and holds an intent for artifact a. */
  ghost predicate ReadFor(runs: seq<Run>, order: seq<nat>, k: nat, oldName: string, newName: string, a: nat) {
    && k < |order| && order[k] < |runs| && Replaces(runs[order[k]], oldName, newName)
    && runs[order[k]].Intent().value.artifactId == a
  }

  /** The last run of an order that is read for the pair and holds an intent for a holds its current candidate. */
  ghost predicate LastReadIsLive(w: World, newName: string, order: seq<nat>, a: nat) {
    var folder := w.catalog.playlist.folderName;
    exists k ::
      && 0 <= k < |order| && ReadFor(w.runs, order, k, folder, newName, a)
      && Live(w.catalog, w.runs[order[k]].Intent().value)
      && forall j :: k < j < |order| ==> !ReadFor(w.runs, order, j, folder, newName, a)
  }

  /** What is kept for an artifact is the intent of the last run of the order that has one. */
  lemma {:induction false} LastReadKept(
    runs: seq<Run>, order: seq<nat>, k: nat, oldName: string, newName: string, a: nat)
    requires ReadFor(runs, order, k, oldName, newName, a)
    requires forall j :: k < j < |order| ==> !ReadFor(runs, order, j, oldName, newName, a)
    ensures var intents := PendingIntents(runs, order, oldName, newName);
            a in intents && intents[a] == (order[k], runs[order[k]].Intent().value)
  {
    var last := |order| - 1;
    if k < last {
      assert !ReadFor(runs, order, last, oldName, newName, a);
      forall j | k < j < last
        ensures !ReadFor(runs, order[..last], j, oldName, newName, a)
      {
        assert !ReadFor(runs, order, j, oldName, newName, a);
      }
      LastReadKept(runs, order[..last], k, oldName, newName, a);
    }
  }

  lemma {:induction false} KeptIsLastRead(runs: seq<Run>, order: seq<nat>, oldName: string, newName: string, a: nat)
    returns (k: nat)
    requires a in PendingIntents(runs, order, oldName, newName)
    ensures ReadFor(runs, order, k, oldName, newName, a)
    ensures forall j :: k < j < |order| ==> !ReadFor(runs, order, j, oldName, newName, a)
  {
    var last := |order| - 1;
    if ReadFor(runs, order, last, oldName, newName, a) {
      k := last;
    } else {
      k := KeptIsLastRead(runs, order[..last], oldName, newName, a);
      forall j | k < j < |order|
        ensures !ReadFor(runs, order, j, oldName, newName, a)
      {
        assert j < last ==> !ReadFor(runs, order[..last], j, oldName, newName, a);
      }
    }
  }

  lemma FindsLastRead(w: World, newName: string, order: seq<nat>, a: nat)
    ensures FindsLive(w, newName, order, a) <==> LastReadIsLive(w, newName, order, a)
  {
    var folder := w.catalog.playlist.folderName;
    if a in PendingIntents(w.runs, order, folder, newName) {
      var k := KeptIsLastRead(w.runs, order, folder, newName, a);
      LastReadKept(w.runs, order, k, folder, newName, a);
    }
    if LastReadIsLive(w, newName, order, a) {
      var k :| 0 <= k < |order| && ReadFor(w.runs, order, k, folder, newName, a)
               && Live(w.catalog, w.runs[order[k]].Intent().value)
               && forall j :: k < j < |order| ==> !ReadFor(w.runs, order, j, folder, newName, a);
      LastReadKept(w.runs, order, k, folder, newName, a);
    }
  }

  /** An unblocked plan found the current intent of every artifact that is away from its path and has a destination. */
  lemma UnblockedFindsLive(w: World, own: seq<File>, newName: string, order: seq<nat>, a: nat)
    requires BuildPlan(w, newName, order, {}).Ok? && BuildPlan(w, newName, order, {}).value.blocked == []
    requires a < |own| == |w.catalog.artifacts| && RowDestination(w.catalog, newName, a).Some? && Displaced(w, own, a)
    ensures FindsLive(w, newName, order, a)
  {
    var cs := BuildPlan(w, newName, order, {}).value.candidates;
    var intents := PendingIntents(w.runs, order, w.catalog.playlist.folderName, newName);
    UnblockedIsFaithful(w, newName, intents, {}, |own|);
    assert Faithful(w, newName, intents, {}, |own|, cs) && Lists(cs, a);
    var k :| 0 <= k < |cs| && cs[k].artifactId == a;
    assert Covered(w.catalog, newName, cs[k]) && Inspected(w, intents, {}, cs[k]);
  }

  /**
   In whatever order the runs are read: previewing the same name again is not blocked exactly when, for
   every displaced artifact, the last run read that has an intent for it holds its current candidate.
   */
  lemma NotBlockedExactly(
    s: System, cat0: Catalog, tree0: Tree, own: seq<File>, names: set<string>, newName: string, route: Route, r: nat,
    m: nat,
    order: seq<nat>)
    requires Campaign(s, cat0, tree0, own, names, newName, route, r, m)
    requires s.world.catalog.playlist.folderName == cat0.playlist.folderName
    ensures var shown := BuildPlan(s.world, newName, order, {});
            shown.Ok? && shown.value.Movable()
            <==> forall a :: 0 <= a < |own| && Displaced(s.world, own, a) ==> LastReadIsLive(s.world, newName, order, a)
  {
    var w := s.world;
    forall a | 0 <= a < |own|
      ensures FindsLive(w, newName, order, a) <==> LastReadIsLive(w, newName, order, a)
    {
      FindsLastRead(w, newName, order, a);
    }
    var shown := BuildPlan(w, newName, order, {});
    if shown.Ok? && shown.value.Movable() {
      forall a | 0 <= a < |own| && Displaced(w, own, a)
        ensures FindsLive(w, newName, order, a)
      {
        assert Affected(w.catalog, a);
        RowsAhead(cat0, w.catalog, tree0, own, names, newName, route, r, a);
        UnblockedFindsLive(w, own, newName, order, a);
      }
    } else if forall a :: 0 <= a < |own| && Displaced(w, own, a) ==> LastReadIsLive(w, newName, order, a) {
      ClearInOrder(s, cat0, tree0, own, names, newName, route, r, m, order);
    }
  }
}
