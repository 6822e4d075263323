/**
 What every run of the folder-move system keeps, with a crash possible between any two steps and
 any plan confirmed at any time: no file is lost or overwritten, and at most one artifact's file
 is away from its database path, at the destination a persisted intent names.
 */
module FolderMoveSafety {
  import opened Common
  import opened Naming
  import opened Layout
  import opened FolderPlan
  import opened FolderMove

  // ---- where the files are ----

  /** A recorded candidate that still describes the current version of its artifact. */
  ghost predicate Live(cat: Catalog, c: Candidate) {
    c.artifactId < |cat.artifacts| && c.updatedAt == cat.artifacts[c.artifactId].updatedAt
  }

  /** A recorded candidate never runs ahead of its row and, while live, describes the artifact's own file. */
  ghost predicate Sound(cat: Catalog, own: seq<File>, c: Candidate) {
    c.artifactId < |cat.artifacts| && c.artifactId < |own| ==>
      var row := cat.artifacts[c.artifactId];
      && c.updatedAt <= row.updatedAt
      && (c.updatedAt == row.updatedAt ==>
            && c.storageId == row.storageId && c.source == row.path && c.links == row.links
            && (c.identity.Some? ==>
                  && c.identity.value.file == own[c.artifactId]
                  && (row.filesize.Some? ==> own[c.artifactId].size == row.filesize)))
  }

  ghost predicate InPlace(cat: Catalog, tree: Tree, own: seq<File>, a: nat)
    requires a < |cat.artifacts| == |own|
  {
    cat.artifacts[a].Location() in tree && tree[cat.artifacts[a].Location()] == own[a]
  }

  /** Artifact a's file sits, with its planned identity, at the destination the intent of this run names. */
  ghost predicate Explains(cat: Catalog, tree: Tree, own: seq<File>, a: nat, run: Run)
    requires a < |cat.artifacts| == |own|
  {
    && run.Intent().Some?
    && var c := run.Intent().value;
       && c.artifactId == a && Live(cat, c)
       && c.identity.Some? && c.identity.value.file == own[a]
       && run.Serves(cat.playlist.folderName, run.stats.value.newName)
       && RowDestination(cat, run.stats.value.newName, a) == Some(c.destination)
       && (c.storageId, c.destination) in tree && tree[(c.storageId, c.destination)] == own[a]
  }

  ghost predicate Explained(cat: Catalog, tree: Tree, own: seq<File>, a: nat, runs: seq<Run>)
    requires a < |cat.artifacts| == |own|
  {
    exists r :: 0 <= r < |runs| && Explains(cat, tree, own, a, runs[r])
  }

  ghost predicate Displaced(w: World, own: seq<File>, a: nat)
    requires a < |w.catalog.artifacts| == |own|
  {
    w.catalog.artifacts[a].Location() !in w.tree && Explained(w.catalog, w.tree, own, a, w.runs)
  }

  /** No two artifacts have one place in the database. Their files may look alike. */
  ghost predicate DistinctRows(cat: Catalog) {
    forall a, b :: 0 <= a < b < |cat.artifacts| ==> cat.artifacts[a].Location() != cat.artifacts[b].Location()
  }

  ghost predicate FilesAccounted(w: World, own: seq<File>) {
    && |w.catalog.artifacts| == |own| && DistinctRows(w.catalog)
    && (forall a :: 0 <= a < |own| ==> InPlace(w.catalog, w.tree, own, a) || Displaced(w, own, a))
  }

  /** A displaced artifact is the first of those still to be moved; so there is at most one. */
  ghost predicate DisplacedFirst(w: World, own: seq<File>)
    requires |w.catalog.artifacts| == |own|
  {
    forall a :: 0 <= a < |own| && Displaced(w, own, a) ==> First(w.catalog, a)
  }

  /** The first of the artifacts still to be moved. */
  ghost predicate First(cat: Catalog, a: nat) {
    && a < |cat.artifacts| && Affected(cat, a)
    && forall b :: 0 <= b < |cat.artifacts| && Affected(cat, b) ==> a <= b
  }

  // ---- what is recorded ----

  ghost predicate Clocked(w: World) {
    w.catalog.playlist.updatedAt <= w.clock && forall a :: 0 <= a < |w.catalog.artifacts|
                                                 ==> w.catalog.artifacts[a].updatedAt <= w.clock
  }

  ghost predicate SoundIntents(w: World, own: seq<File>) {
    forall r :: 0 <= r < |w.runs| && w.runs[r].Intent().Some? ==> Sound(w.catalog, own, w.runs[r].Intent().value)
  }

  /** The run holds an intent for the current version of its artifact. */
  ghost predicate Standing(cat: Catalog, run: Run) { run.Intent().Some? && Live(cat, run.Intent().value) }

  /**
   A standing intent is one for the folder as it is and the first artifact still to be moved. Its destination
   is nobody's, or what has left the artifact's place is there.
   */
  ghost predicate Guards(cat: Catalog, tree: Tree, run: Run)
    requires run.Intent().Some?
  {
    var c := run.Intent().value;
    && First(cat, c.artifactId) && c.identity.Some?
    && run.Serves(cat.playlist.folderName, run.stats.value.newName)
    && RowDestination(cat, run.stats.value.newName, c.artifactId) == Some(c.destination)
    && (Place(c) in tree ==>
          cat.artifacts[c.artifactId].Location() !in tree
          && forall b :: 0 <= b < |cat.artifacts| ==> cat.artifacts[b].Location() != Place(c))
  }

  ghost predicate Guarded(w: World) {
    && (forall r :: 0 <= r < |w.runs| && Standing(w.catalog, w.runs[r]) ==> Guards(w.catalog, w.tree, w.runs[r]))
    && forall q, r :: 0 <= q < |w.runs| && 0 <= r < |w.runs| && AtPlace(w, w.runs[q]) && AtPlace(w, w.runs[r]) ==>
         Place(w.runs[q].Intent().value) == Place(w.runs[r].Intent().value)
  }

  /** Something is at the destination of this standing intent. */
  ghost predicate AtPlace(w: World, run: Run) { Standing(w.catalog, run) && Place(run.Intent().value) in w.tree }

  /** A standing intent names this place, and something is there. */
  ghost predicate Spot(w: World, l: Location) {
    exists r :: 0 <= r < |w.runs| && AtPlace(w, w.runs[r]) && Place(w.runs[r].Intent().value) == l
  }

  /** Nobody else's file is there. */
  ghost predicate Free(w: World, l: Location) { l in w.tree ==> Spot(w, l) }

  /** The places a plan that can still be started moves files to. */
  ghost predicate PlanFree(w: World, plan: Plan) {
    && plan.blocked == [] && plan.playlistUpdatedAt == w.catalog.playlist.updatedAt
    && (forall k :: 0 <= k < |plan.candidates| ==> Live(w.catalog, plan.candidates[k]))
    ==> forall k :: 0 <= k < |plan.candidates| ==> Free(w, Place(plan.candidates[k]))
  }

  /** Only records of runs differ, and the places that standing intents name are the same. */
  ghost predicate SameSpots(w: World, w2: World) {
    w2.tree == w.tree && w2.catalog == w.catalog && forall l :: Spot(w2, l) <==> Spot(w, l)
  }

  ghost predicate PlansFree(w: World, plans: set<Plan>) { forall plan <- plans :: PlanFree(w, plan) }

  ghost predicate RestFree(w: World, plan: Plan, next: nat) {
    forall k :: next <= k < |plan.candidates| ==> Free(w, Place(plan.candidates[k]))
  }

  /** Later runs hold later versions of the same artifact. */
  ghost predicate VersionsOrdered(runs: seq<Run>) {
    forall i, j :: 0 <= i < j < |runs| ==> NotNewer(runs[i], runs[j])
  }

  ghost predicate NotNewer(a: Run, b: Run) {
    a.Intent().Some? && b.Intent().Some? && a.Intent().value.artifactId == b.Intent().value.artifactId
    ==> a.Intent().value.updatedAt <= b.Intent().value.updatedAt
  }

  /** A candidate of a plan for the current folder, whose row is unchanged since. */
  ghost predicate Movable(cat: Catalog, plan: Plan, c: Candidate) {
    Live(cat, c) && RowDestination(cat, plan.newName, c.artifactId) == Some(c.destination)
  }

  ghost predicate ListsLive(cat: Catalog, plan: Plan, from: nat, a: nat) {
    exists k :: from <= k < |plan.candidates| && plan.candidates[k].artifactId == a
      && Movable(cat, plan, plan.candidates[k])
  }

  /** An unblocked plan made for the playlist row as it is now. */
  ghost predicate CurrentPlan(cat: Catalog, plan: Plan, names: set<string>) {
    && plan.oldName == cat.playlist.folderName && plan.newName in names && plan.newName != plan.oldName
    && InIdOrder(plan.candidates)
    && (forall k :: 0 <= k < |plan.candidates| && Live(cat, plan.candidates[k])
          ==> Movable(cat, plan, plan.candidates[k]))
    && (forall a :: 0 <= a < |cat.artifacts| && Affected(cat, a) ==> ListsLive(cat, plan, 0, a))
  }

  ghost predicate PlanKept(cat: Catalog, own: seq<File>, plan: Plan, names: set<string>) {
    plan.blocked == [] ==>
      && DistinctPlaces(plan.candidates)
      && (forall k :: 0 <= k < |plan.candidates| ==>
            && plan.candidates[k].artifactId < |cat.artifacts|
            && plan.candidates[k].identity.Some? && Sound(cat, own, plan.candidates[k]))
      && plan.playlistUpdatedAt <= cat.playlist.updatedAt
      && (plan.playlistUpdatedAt == cat.playlist.updatedAt ==> CurrentPlan(cat, plan, names))
  }

  // ---- the executing process ----

  /** The remaining candidates are exactly the artifacts still to be moved. */
  ghost predicate Underway(cat: Catalog, plan: Plan, next: nat) {
    && plan.playlistUpdatedAt == cat.playlist.updatedAt
    && next <= |plan.candidates|
    && (forall k :: next <= k < |plan.candidates| ==> Movable(cat, plan, plan.candidates[k]))
    && (forall a :: 0 <= a < |cat.artifacts| && Affected(cat, a) ==> ListsLive(cat, plan, next, a))
  }

  ghost predicate OwnRun(w: World, plan: Plan, r: nat) {
    && r == |w.runs| - 1
    && w.runs[r].Serves(plan.oldName, plan.newName)
  }

  ghost predicate ProcessKept(s: System, own: seq<File>)
    requires |s.world.catalog.artifacts| == |own|
  {
    match s.process
    case Idle => true
    case Active(r, plan, next, phase) =>
      var w := s.world;
      && plan in s.plans && plan.blocked == [] && r == |w.runs| - 1 && w.runs[r].kind == FolderMove
      && match phase
         case Ready =>
           && OwnRun(w, plan, r) && Underway(w.catalog, plan, next) && RestFree(w, plan, next)
              && w.runs[r].Intent() == None
         case Intended =>
           && OwnRun(w, plan, r) && Underway(w.catalog, plan, next) && RestFree(w, plan, next)
           && next < |plan.candidates| && w.runs[r].Intent() == Some(plan.candidates[next])
         case Relocated =>
           && OwnRun(w, plan, r) && Underway(w.catalog, plan, next) && RestFree(w, plan, next)
           && next < |plan.candidates| && w.runs[r].Intent() == Some(plan.candidates[next])
           && Explains(w.catalog, w.tree, own, plan.candidates[next].artifactId, w.runs[r])
           && w.catalog.artifacts[plan.candidates[next].artifactId].Location() !in w.tree
         case Raised(intent) =>
           && (w.runs[r].Intent().Some? ==> intent == w.runs[r].Intent() && OwnRun(w, plan, r))
           && (intent.Some? ==> intent.value in plan.candidates && LatestVersion(w.runs, r, intent.value))
           && (intent.Some? && Live(w.catalog, intent.value) ==> Recordable(w, plan, intent.value))
  }

  /** A candidate whose intent can be recorded: what it is when its turn comes. */
  ghost predicate Recordable(w: World, plan: Plan, c: Candidate) {
    && First(w.catalog, c.artifactId) && c.identity.Some? && Free(w, Place(c))
    && plan.oldName == w.catalog.playlist.folderName
    && RowDestination(w.catalog, plan.newName, c.artifactId) == Some(c.destination)
  }

  /** No earlier run holds a newer version of this candidate's artifact. */
  ghost predicate LatestVersion(runs: seq<Run>, r: nat, c: Candidate) {
    forall i :: 0 <= i < |runs| && i < r && runs[i].Intent().Some? && runs[i].Intent().value.artifactId == c.artifactId
                ==> runs[i].Intent().value.updatedAt <= c.updatedAt
  }

  /** The invariant. */
  ghost predicate Kept(s: System, own: seq<File>, names: set<string>) {
    && Separated(s.world.catalog, names) && s.world.catalog.playlist.folderName in names
    && FilesAccounted(s.world, own) && DisplacedFirst(s.world, own) && Guarded(s.world)
    && Clocked(s.world) && SoundIntents(s.world, own) && VersionsOrdered(s.world.runs)
    && (forall plan <- s.plans :: PlanKept(s.world.catalog, own, plan, names)) && PlansFree(s.world, s.plans)
    && ProcessKept(s, own)
  }

  // ---- conservation ----

  /** Artifact a's file is at this location: its database path, or else where an intent explains it. */
  ghost predicate LiesAt(w: World, own: seq<File>, a: nat, l: Location)
    requires a < |w.catalog.artifacts| == |own|
  {
    if w.catalog.artifacts[a].Location() in w.tree then l == w.catalog.artifacts[a].Location()
    else exists r :: 0 <= r < |w.runs| && ExplainsAt(w, own, a, w.runs[r], l)
  }

  ghost predicate ExplainsAt(w: World, own: seq<File>, a: nat, run: Run, l: Location)
    requires a < |w.catalog.artifacts| == |own|
  {
    Explains(w.catalog, w.tree, own, a, run) && Place(run.Intent().value) == l
  }

  /** Every location where the file of an artifact of the playlist is. */
  ghost predicate Owned(w: World, own: seq<File>, l: Location)
    requires |w.catalog.artifacts| == |own|
  {
    exists a :: 0 <= a < |own| && LiesAt(w, own, a, l)
  }

  /** All other files, location by location. */
  ghost function Strangers(w: World, own: seq<File>): Tree
    requires |w.catalog.artifacts| == |own|
  {
    map l | l in w.tree && !Owned(w, own, l) :: w.tree[l]
  }

  /** The locations of one storage that hold a file. */
  function Held(tree: Tree, storageId: nat): set<Location> { set l | l in tree && l.0 == storageId }

  lemma RenameKeepsCount(tree: Tree, source: Location, target: Location, storageId: nat)
    requires source in tree && target !in tree && source.0 == target.0
    ensures |Held(Rename(tree, source, target), storageId)| == |Held(tree, storageId)|
  {
    var after := Rename(tree, source, target);
    if source.0 == storageId {
      assert Held(after, storageId) == Held(tree, storageId) - {source} + {target};
    } else {
      assert Held(after, storageId) == Held(tree, storageId);
    }
  }

  // ---- steps that change runs only ----

  ghost predicate WorldKept(w: World, own: seq<File>) {
    && FilesAccounted(w, own) && DisplacedFirst(w, own)
    && Clocked(w) && SoundIntents(w, own) && VersionsOrdered(w.runs)
  }

  /** A run keeps what it explains, and what it recorded is sound and no older than before. */
  ghost predicate RunReplaceable(cat: Catalog, tree: Tree, own: seq<File>, before: Run, after: Run)
    requires |cat.artifacts| == |own|
  {
    && (after.Intent().Some? ==> Sound(cat, own, after.Intent().value))
    && forall a :: 0 <= a < |own| && Explains(cat, tree, own, a, before) ==> Explains(cat, tree, own, a, after)
  }

  lemma RunsChange(w: World, own: seq<File>, runs: seq<Run>)
    requires FilesAccounted(w, own) && DisplacedFirst(w, own)
    requires forall a :: 0 <= a < |own| && Explained(w.catalog, w.tree, own, a, w.runs)
                         ==> Explained(w.catalog, w.tree, own, a, runs)
    ensures FilesAccounted(w.(runs := runs), own) && DisplacedFirst(w.(runs := runs), own)
  {
    var w2 := w.(runs := runs);
    forall a | 0 <= a < |own|
      ensures InPlace(w2.catalog, w2.tree, own, a) || Displaced(w2, own, a)
      ensures Displaced(w2, own, a) ==> Displaced(w, own, a)
    {
      assert InPlace(w.catalog, w.tree, own, a) || Displaced(w, own, a);
    }
  }

  lemma LastRunReplaced(w: World, own: seq<File>, after: Run)
    requires WorldKept(w, own) && |w.runs| > 0
    requires RunReplaceable(w.catalog, w.tree, own, w.runs[|w.runs| - 1], after)
    requires after.Intent().Some? ==> LatestVersion(w.runs, |w.runs| - 1, after.Intent().value)
    ensures WorldKept(SetRun(w, |w.runs| - 1, after), own)
  {
    var runs := w.runs[|w.runs| - 1 := after];
    forall a | 0 <= a < |own| && Explained(w.catalog, w.tree, own, a, w.runs)
      ensures Explained(w.catalog, w.tree, own, a, runs)
    {
      StillExplained(w.catalog, w.tree, own, a, w.runs, after);
    }
    RunsChange(w, own, runs);
    LastVersionOrdered(w.runs, after);
  }

  lemma ExplainedBy(cat: Catalog, tree: Tree, own: seq<File>, a: nat, runs: seq<Run>, r: nat)
    requires a < |cat.artifacts| == |own| && r < |runs| && Explains(cat, tree, own, a, runs[r])
    ensures Explained(cat, tree, own, a, runs)
  {
  }

  lemma StillExplains(cat: Catalog, tree: Tree, own: seq<File>, a: nat, runs: seq<Run>, r: nat, after: Run)
    requires a < |cat.artifacts| == |own| && r < |runs| && Explains(cat, tree, own, a, runs[r])
    requires RunReplaceable(cat, tree, own, runs[|runs| - 1], after)
    ensures Explains(cat, tree, own, a, runs[|runs| - 1 := after][r])
  {
    if r < |runs| - 1 {
      assert runs[|runs| - 1 := after][r] == runs[r];
    } else {
      assert runs[|runs| - 1 := after][r] == after;
    }
  }

  lemma StillExplained(cat: Catalog, tree: Tree, own: seq<File>, a: nat, runs: seq<Run>, after: Run)
    requires a < |cat.artifacts| == |own| && |runs| > 0 && Explained(cat, tree, own, a, runs)
    requires RunReplaceable(cat, tree, own, runs[|runs| - 1], after)
    ensures Explained(cat, tree, own, a, runs[|runs| - 1 := after])
  {
    var i :| 0 <= i < |runs| && Explains(cat, tree, own, a, runs[i]);
    StillExplains(cat, tree, own, a, runs, i, after);
    ExplainedBy(cat, tree, own, a, runs[|runs| - 1 := after], i);
  }

  lemma LastVersionOrdered(runs: seq<Run>, after: Run)
    requires VersionsOrdered(runs) && |runs| > 0
    requires after.Intent().Some? ==> LatestVersion(runs, |runs| - 1, after.Intent().value)
    ensures VersionsOrdered(runs[|runs| - 1 := after])
  {
    forall i, j | 0 <= i < j < |runs|
      ensures NotNewer(runs[i], if j == |runs| - 1 then after else runs[j])
    {
      assert NotNewer(runs[i], runs[j]);
    }
  }

  /** What recovering a run leaves alone. */
  ghost predicate SameRecord(before: Run, after: Run) {
    && before.kind == after.kind && before.Intent() == after.Intent()
    && (before.stats.Some? ==> after.stats.Some? && after.stats.value.oldName == before.stats.value.oldName
                               && after.stats.value.newName == before.stats.value.newName)
    && (before.status == after.status || (before.status == Running && after.status == Failed))
  }

  lemma {:induction false} RecoverKeepsRecords(runs: seq<Run>, ids: seq<nat>, plan: Plan)
    requires RecoverRuns(runs, ids, plan).Some?
    ensures var after := RecoverRuns(runs, ids, plan).value;
            |after| == |runs| && forall r :: 0 <= r < |runs| ==> SameRecord(runs[r], after[r])
    decreases |ids|
  {
    if ids != [] {
      RecoverKeepsRecords(runs[ids[0] := Interrupted(runs[ids[0]])], ids[1..], plan);
    }
  }

  /** Runs whose records are unchanged explain and record the same. */
  lemma RecordsUnchanged(w: World, own: seq<File>, runs: seq<Run>)
    requires WorldKept(w, own) && |runs| == |w.runs|
    requires forall r :: 0 <= r < |w.runs| ==> SameRecord(w.runs[r], runs[r])
    ensures WorldKept(w.(runs := runs), own)
  {
    forall a | 0 <= a < |own| && Explained(w.catalog, w.tree, own, a, w.runs)
      ensures Explained(w.catalog, w.tree, own, a, runs)
    {
      var i :| 0 <= i < |w.runs| && Explains(w.catalog, w.tree, own, a, w.runs[i]);
      assert SameRecord(w.runs[i], runs[i]);
      assert Explains(w.catalog, w.tree, own, a, runs[i]);
    }
    RunsChange(w, own, runs);
    forall i, j | 0 <= i < j < |runs|
      ensures NotNewer(runs[i], runs[j])
    {
      assert NotNewer(w.runs[i], w.runs[j]) && SameRecord(w.runs[i], runs[i]) && SameRecord(w.runs[j], runs[j]);
    }
    forall r | 0 <= r < |runs| && runs[r].Intent().Some?
      ensures Sound(w.catalog, own, runs[r].Intent().value)
    {
      assert SameRecord(w.runs[r], runs[r]);
    }
  }

  /** Appending a run without an intent. */
  lemma RunAppended(w: World, own: seq<File>, run: Run)
    requires WorldKept(w, own) && run.Intent() == None
    ensures WorldKept(w.(runs := w.runs + [run]), own)
  {
    var runs := w.runs + [run];
    forall a | 0 <= a < |own| && Explained(w.catalog, w.tree, own, a, w.runs)
      ensures Explained(w.catalog, w.tree, own, a, runs)
    {
      var i :| 0 <= i < |w.runs| && Explains(w.catalog, w.tree, own, a, w.runs[i]);
      assert Explains(w.catalog, w.tree, own, a, runs[i]);
    }
    RunsChange(w, own, runs);
    forall i, j | 0 <= i < j < |runs|
      ensures NotNewer(runs[i], runs[j])
    {
      if j < |w.runs| {
        assert NotNewer(w.runs[i], w.runs[j]);
      }
    }
  }

  // ---- standing intents ----

  /** Earlier runs keep their records, and later ones hold no intent. */
  ghost predicate SameRuns(before: seq<Run>, after: seq<Run>) {
    |after| >= |before| && (forall r :: 0 <= r < |before| ==> SameRecord(before[r], after[r]))
    && forall r :: |before| <= r < |after| ==> after[r].Intent() == None
  }

  lemma SpotsSame(w: World, runs: seq<Run>, l: Location)
    requires SameRuns(w.runs, runs)
    ensures Spot(w.(runs := runs), l) <==> Spot(w, l)
  {
    var w2 := w.(runs := runs);
    if Spot(w, l) {
      var r :| 0 <= r < |w.runs| && AtPlace(w, w.runs[r]) && Place(w.runs[r].Intent().value) == l;
      assert SameRecord(w.runs[r], runs[r]) && AtPlace(w2, runs[r]);
    }
    if Spot(w2, l) {
      var r :| 0 <= r < |runs| && AtPlace(w2, runs[r]) && Place(runs[r].Intent().value) == l;
      assert r < |w.runs| && SameRecord(w.runs[r], runs[r]) && AtPlace(w, w.runs[r]);
    }
  }

  lemma RunsGuarded(w: World, runs: seq<Run>)
    requires Guarded(w) && SameRuns(w.runs, runs)
    ensures Guarded(w.(runs := runs))
  {
    forall r | 0 <= r < |runs| && Standing(w.catalog, runs[r])
      ensures r < |w.runs| && Standing(w.catalog, w.runs[r]) && Guards(w.catalog, w.tree, runs[r])
    {
      assert SameRecord(w.runs[r], runs[r]) && Guards(w.catalog, w.tree, w.runs[r]);
    }
  }

  /** Runs whose records are unchanged leave every plan what it was. */
  lemma RunsFree(w: World, runs: seq<Run>, plan: Plan)
    requires SameRuns(w.runs, runs) && PlanFree(w, plan)
    ensures PlanFree(w.(runs := runs), plan)
  {
    forall l
      ensures Spot(w.(runs := runs), l) <==> Spot(w, l)
    {
      SpotsSame(w, runs, l);
    }
  }

  /** The last run, without an intent so far, gets one; or it gets the one it has again. */
  ghost predicate Adds(w: World, after: Run) {
    && |w.runs| > 0
    && (w.runs[|w.runs| - 1].Intent().Some? ==> after.Intent() == w.runs[|w.runs| - 1].Intent())
    && (Standing(w.catalog, after) ==>
          && First(w.catalog, after.Intent().value.artifactId) && after.Intent().value.identity.Some?
          && after.Serves(w.catalog.playlist.folderName, after.stats.value.newName)
          && RowDestination(w.catalog, after.stats.value.newName, after.Intent().value.artifactId)
             == Some(after.Intent().value.destination)
          && Free(w, Place(after.Intent().value)))
  }

  lemma AddedSpots(w: World, after: Run, l: Location)
    requires Adds(w, after)
    ensures Spot(w, l) ==> Spot(SetRun(w, |w.runs| - 1, after), l)
    ensures Spot(SetRun(w, |w.runs| - 1, after), l) ==> Spot(w, l)
  {
    var w2 := SetRun(w, |w.runs| - 1, after);
    if Spot(w, l) {
      var r :| 0 <= r < |w.runs| && AtPlace(w, w.runs[r]) && Place(w.runs[r].Intent().value) == l;
      assert AtPlace(w2, w2.runs[r]);
    }
    if Spot(w2, l) {
      var r :| 0 <= r < |w2.runs| && AtPlace(w2, w2.runs[r]) && Place(w2.runs[r].Intent().value) == l;
      assert r < |w.runs| - 1 ==> AtPlace(w, w.runs[r]);
    }
  }

  lemma AddedGuards(w: World, after: Run)
    requires Guarded(w) && Adds(w, after) && Standing(w.catalog, after)
    ensures Guards(w.catalog, w.tree, after)
  {
    var c := after.Intent().value;
    if Place(c) in w.tree {
      var r :| 0 <= r < |w.runs| && AtPlace(w, w.runs[r]) && Place(w.runs[r].Intent().value) == Place(c);
      GuardedAt(w, r);
      OnlyFirst(w.catalog, c.artifactId, w.runs[r].Intent().value.artifactId);
    }
  }

  lemma OnlyFirst(cat: Catalog, a: nat, b: nat)
    requires First(cat, a) && First(cat, b)
    ensures a == b
  {
  }

  /** What a standing intent whose destination is taken says. */
  lemma GuardedAt(w: World, r: nat)
    requires Guarded(w) && r < |w.runs| && AtPlace(w, w.runs[r])
    ensures var c := w.runs[r].Intent().value;
            && First(w.catalog, c.artifactId) && w.catalog.artifacts[c.artifactId].Location() !in w.tree
            && forall b :: 0 <= b < |w.catalog.artifacts| ==> w.catalog.artifacts[b].Location() != Place(c)
  {
    assert Guards(w.catalog, w.tree, w.runs[r]);
  }

  lemma AddedGuarded(w: World, after: Run)
    requires Guarded(w) && Adds(w, after)
    ensures Guarded(SetRun(w, |w.runs| - 1, after))
  {
    var w2 := SetRun(w, |w.runs| - 1, after);
    if Standing(w.catalog, after) {
      AddedGuards(w, after);
    }
    forall q, r | 0 <= q < |w2.runs| && 0 <= r < |w2.runs| && AtPlace(w2, w2.runs[q]) && AtPlace(w2, w2.runs[r])
      ensures Place(w2.runs[q].Intent().value) == Place(w2.runs[r].Intent().value)
    {
      var lq, lr := Place(w2.runs[q].Intent().value), Place(w2.runs[r].Intent().value);
      assert Spot(w2, lq) && Spot(w2, lr);
      AddedSpots(w, after, lq);
      AddedSpots(w, after, lr);
    }
  }

  lemma AddedFree(w: World, after: Run, plan: Plan)
    requires Adds(w, after) && PlanFree(w, plan)
    ensures PlanFree(SetRun(w, |w.runs| - 1, after), plan)
  {
    forall l
      ensures Spot(w, l) ==> Spot(SetRun(w, |w.runs| - 1, after), l)
    {
      AddedSpots(w, after, l);
    }
  }

  /** When the first artifact's file is in its place, no standing intent's destination is taken. */
  lemma NoSpot(w: World, a: nat, r: nat)
    requires Guarded(w) && First(w.catalog, a) && w.catalog.artifacts[a].Location() in w.tree && r < |w.runs|
    ensures !AtPlace(w, w.runs[r])
    ensures Standing(w.catalog, w.runs[r]) ==> w.runs[r].Intent().value.artifactId == a
  {
    if Standing(w.catalog, w.runs[r]) {
      assert Guards(w.catalog, w.tree, w.runs[r]);
      OnlyFirst(w.catalog, a, w.runs[r].Intent().value.artifactId);
    }
  }

  /** The first artifact's file leaves its place for a free one that the intent of run r names. */
  lemma MovedGuarded(w: World, own: seq<File>, a: nat, r: nat, target: Location)
    requires FilesAccounted(w, own) && Guarded(w) && First(w.catalog, a) && r < |w.runs|
    requires w.catalog.artifacts[a].Location() in w.tree && target !in w.tree
    requires Standing(w.catalog, w.runs[r]) && Place(w.runs[r].Intent().value) == target
    requires forall b :: 0 <= b < |own| ==> InPlace(w.catalog, w.tree, own, b)
    ensures var w2 := w.(tree := Rename(w.tree, w.catalog.artifacts[a].Location(), target));
            Guarded(w2) && Spot(w2, target)
  {
    var w2 := w.(tree := Rename(w.tree, w.catalog.artifacts[a].Location(), target));
    forall b | 0 <= b < |own|
      ensures w.catalog.artifacts[b].Location() != target
    {
      assert InPlace(w.catalog, w.tree, own, b);
    }
    forall q | 0 <= q < |w.runs| && Standing(w.catalog, w.runs[q])
      ensures Guards(w2.catalog, w2.tree, w2.runs[q])
      ensures AtPlace(w2, w2.runs[q]) ==> Place(w2.runs[q].Intent().value) == target
    {
      assert Guards(w.catalog, w.tree, w.runs[q]);
      NoSpot(w, a, q);
    }
    assert AtPlace(w2, w2.runs[r]);
  }

  /** Places that were free stay free. */
  lemma MovedFree(w: World, a: nat, target: Location, l: Location)
    requires Guarded(w) && First(w.catalog, a) && w.catalog.artifacts[a].Location() in w.tree && target !in w.tree
    requires Free(w, l) && Spot(w.(tree := Rename(w.tree, w.catalog.artifacts[a].Location(), target)), target)
    ensures Free(w.(tree := Rename(w.tree, w.catalog.artifacts[a].Location(), target)), l)
  {
    if l in w.tree {
      var r :| 0 <= r < |w.runs| && AtPlace(w, w.runs[r]) && Place(w.runs[r].Intent().value) == l;
      NoSpot(w, a, r);
    }
  }

  /** Without standing intents there is nothing to guard. */
  lemma NoneStandingGuarded(w: World)
    requires forall r :: 0 <= r < |w.runs| ==> !Standing(w.catalog, w.runs[r])
    ensures Guarded(w)
  {
  }

  lemma RunsKeepGuard(w: World, plans: set<Plan>, runs: seq<Run>)
    requires Guarded(w) && PlansFree(w, plans) && SameRuns(w.runs, runs)
    ensures var w2 := w.(runs := runs); Guarded(w2) && PlansFree(w2, plans) && SameSpots(w, w2)
  {
    var w2 := w.(runs := runs);
    RunsGuarded(w, runs);
    forall plan <- plans
      ensures PlanFree(w2, plan)
    {
      RunsFree(w, runs, plan);
    }
    forall l
      ensures Spot(w2, l) <==> Spot(w, l)
    {
      SpotsSame(w, runs, l);
    }
  }

  lemma RecoverOrphanKeeps(s: System, own: seq<File>, names: set<string>, id: nat)
    requires Kept(s, own, names)
    ensures Kept(Apply(s, RecoverOrphan(id)), own, names)
  {
    var s2 := Apply(s, RecoverOrphan(id));
    if s2 != s {
      RecordsUnchanged(s.world, own, s2.world.runs);
      RunsKeepGuard(s.world, s.plans, s2.world.runs);
    }
  }

  lemma StartKeeps(s: System, own: seq<File>, names: set<string>, plan: Plan, othersActive: bool)
    requires Kept(s, own, names)
    ensures Kept(Apply(s, Start(plan, othersActive)), own, names)
  {
    var s2 := Apply(s, Start(plan, othersActive));
    if s2 != s {
      var w, w2 := s.world, s2.world;
      var recovered := RecoverRuns(w.runs, plan.recoveryRuns, plan).value;
      RecoverKeepsRecords(w.runs, plan.recoveryRuns, plan);
      RecordsUnchanged(w, own, recovered);
      RunAppended(w.(runs := recovered), own, w2.runs[|w.runs|]);
      assert SameRuns(w.runs, w2.runs);
      RunsKeepGuard(w, s.plans, w2.runs);
      assert PlanKept(w.catalog, own, plan, names) && PlanFree(w, plan);
      assert forall k :: 0 <= k < |plan.candidates| ==> plan.candidates[k] in plan.candidates;
      assert Underway(w.catalog, plan, 0) && RestFree(w2, plan, 0);
    }
  }

  // ---- previewing ----

  lemma {:induction false} PendingIsRecorded(runs: seq<Run>, order: seq<nat>, oldName: string, newName: string, id: nat)
    requires id in PendingIntents(runs, order, oldName, newName)
    ensures var (r, c) := PendingIntents(runs, order, oldName, newName)[id];
            r < |runs| && runs[r].Serves(oldName, newName) && runs[r].Intent() == Some(c) && c.artifactId == id
  {
    var last := order[|order| - 1];
    if id in PendingIntents(runs, order[..|order| - 1], oldName, newName) {
      PendingIsRecorded(runs, order[..|order| - 1], oldName, newName, id);
    }
  }

  /** The identity an unblocked plan records is the artifact's own file's. */
  lemma InspectedIdentity(w: World, own: seq<File>, newName: string, order: seq<nat>, down: set<nat>, c: Candidate)
    requires WorldKept(w, own) && Covered(w.catalog, newName, c)
    requires Inspected(w, PendingIntents(w.runs, order, w.catalog.playlist.folderName, newName), down, c)
    ensures c.identity.Some? && Sound(w.catalog, own, c)
  {
    var a, oldName := c.artifactId, w.catalog.playlist.folderName;
    var row := w.catalog.artifacts[a];
    var intents := PendingIntents(w.runs, order, oldName, newName);
    if row.Location() in w.tree {
      assert !Displaced(w, own, a);
    } else {
      PendingIsRecorded(w.runs, order, oldName, newName, a);
      assert Sound(w.catalog, own, intents[a].1);
    }
  }

  lemma PreviewKept(w: World, own: seq<File>, names: set<string>, newName: string, order: seq<nat>, down: set<nat>)
    requires WorldKept(w, own) && Separated(w.catalog, names) && w.catalog.playlist.folderName in names
             && newName in names
    requires BuildPlan(w, newName, order, down).Ok?
    ensures PlanKept(w.catalog, own, BuildPlan(w, newName, order, down).value, names)
  {
    var plan := BuildPlan(w, newName, order, down).value;
    var cs, n := plan.candidates, |w.catalog.artifacts|;
    var intents := PendingIntents(w.runs, order, w.catalog.playlist.folderName, newName);
    if plan.blocked == [] {
      UnblockedIsFaithful(w, newName, intents, down, n);
      assert Faithful(w, newName, intents, down, n, cs);
      forall k | 0 <= k < |cs|
        ensures cs[k].artifactId < n && cs[k].identity.Some? && Sound(w.catalog, own, cs[k])
                && Movable(w.catalog, plan, cs[k])
      {
        InspectedIdentity(w, own, newName, order, down, cs[k]);
      }
      forall a | 0 <= a < n && Affected(w.catalog, a)
        ensures ListsLive(w.catalog, plan, 0, a)
      {
        AffectedListed(w, names, newName, intents, down, plan, a);
      }
    }
  }

  lemma AffectedListed(
    w: World, names: set<string>, newName: string, intents: map<nat, (nat, Candidate)>, down: set<nat>, plan: Plan,
    a: nat)
    requires Separated(w.catalog, names) && w.catalog.playlist.folderName in names && newName in names
    requires newName != w.catalog.playlist.folderName && plan.newName == newName
    requires Faithful(w, newName, intents, down, |w.catalog.artifacts|, plan.candidates)
    requires a < |w.catalog.artifacts| && Affected(w.catalog, a)
    ensures ListsLive(w.catalog, plan, 0, a)
  {
    assert Resolvable(w.catalog, newName, a);
    DestinationFacts(w.catalog, a, newName, names);
    var k :| 0 <= k < |plan.candidates| && plan.candidates[k].artifactId == a;
    assert Covered(w.catalog, newName, plan.candidates[k]);
    assert Movable(w.catalog, plan, plan.candidates[k]);
  }

  /** An unblocked plan moves files to free places only, or has found one there that an intent explains. */
  lemma PreviewFree(w: World, own: seq<File>, newName: string, order: seq<nat>, down: set<nat>)
    requires WorldKept(w, own) && BuildPlan(w, newName, order, down).Ok?
    ensures PlanFree(w, BuildPlan(w, newName, order, down).value)
  {
    var plan := BuildPlan(w, newName, order, down).value;
    var intents := PendingIntents(w.runs, order, w.catalog.playlist.folderName, newName);
    if plan.blocked == [] {
      UnblockedIsFaithful(w, newName, intents, down, |own|);
      assert Faithful(w, newName, intents, down, |own|, plan.candidates);
      forall k | 0 <= k < |plan.candidates|
        ensures Free(w, Place(plan.candidates[k]))
      {
        InspectedFree(w, own, newName, order, down, plan.candidates[k]);
      }
    }
  }

  lemma InspectedFree(w: World, own: seq<File>, newName: string, order: seq<nat>, down: set<nat>, c: Candidate)
    requires FilesAccounted(w, own) && Covered(w.catalog, newName, c)
    requires Inspected(w, PendingIntents(w.runs, order, w.catalog.playlist.folderName, newName), down, c)
    ensures Free(w, Place(c))
  {
    var a, folder := c.artifactId, w.catalog.playlist.folderName;
    var intents := PendingIntents(w.runs, order, folder, newName);
    if Place(c) in w.tree {
      PendingIsRecorded(w.runs, order, folder, newName, a);
      var r := intents[a].0;
      assert AtPlace(w, w.runs[r]) && Place(w.runs[r].Intent().value) == Place(c);
    }
  }

  lemma PreviewKeeps(s: System, own: seq<File>, names: set<string>, newName: string, order: seq<nat>, down: set<nat>)
    requires Kept(s, own, names) && newName in names
    ensures Kept(Apply(s, Preview(newName, order, down)), own, names)
  {
    if BuildPlan(s.world, newName, order, down).Ok? {
      PreviewKept(s.world, own, names, newName, order, down);
      PreviewFree(s.world, own, newName, order, down);
    }
  }

  // ---- the executor's steps on runs ----

  /** What holds of the candidate whose intent is persisted. */
  lemma PersistEffect(s: System, own: seq<File>, names: set<string>, acknowledged: bool)
    requires Kept(s, own, names) && Apply(s, PersistIntent(acknowledged)).world != s.world
    ensures s.process.Active? && s.process.phase.Ready?
    ensures var (w, plan, next) := (s.world, s.process.plan, s.process.next);
            && s.process.run == |w.runs| - 1 && next < |plan.candidates|
            && w.runs[|w.runs| - 1].Intent() == None
            && Sound(w.catalog, own, plan.candidates[next]) && Live(w.catalog, plan.candidates[next])
            && plan.candidates[next].artifactId < |own|
            && Recordable(w, plan, plan.candidates[next])
            && Apply(s, PersistIntent(acknowledged)).world == SetRun(w, |w.runs| - 1, Intending(w, plan, next))
  {
    NextRecordable(s, own, names);
  }

  function Intending(w: World, plan: Plan, next: nat): Run
    requires |w.runs| > 0 && next < |plan.candidates|
  {
    w.runs[|w.runs| - 1].(stats := Some(RunStats(plan, next, Some(plan.candidates[next]), None)))
  }

  /** The next candidate of a process not yet moving its file. */
  lemma NextRecordable(s: System, own: seq<File>, names: set<string>)
    requires Kept(s, own, names) && s.process.Active? && s.process.next < |s.process.plan.candidates|
    requires s.process.phase.Ready? || s.process.phase.Intended? || s.process.phase.Relocated?
    ensures var c := s.process.plan.candidates[s.process.next];
            && Recordable(s.world, s.process.plan, c) && Sound(s.world.catalog, own, c) && Live(s.world.catalog, c)
            && c.artifactId < |own|
  {
    var w, plan, next := s.world, s.process.plan, s.process.next;
    assert PlanKept(w.catalog, own, plan, names);
    assert Movable(w.catalog, plan, plan.candidates[next]) && Free(w, Place(plan.candidates[next]));
    NextIsFirst(w, names, plan, next);
  }

  /** A run without an intent explains nothing, so recording a sound one loses nothing. */
  lemma IntentRecorded(w: World, own: seq<File>, after: Run)
    requires WorldKept(w, own) && |w.runs| > 0 && w.runs[|w.runs| - 1].Intent() == None && after.Intent().Some?
    requires Sound(w.catalog, own, after.Intent().value) && Live(w.catalog, after.Intent().value)
    requires after.Intent().value.artifactId < |own|
    ensures WorldKept(SetRun(w, |w.runs| - 1, after), own)
  {
    LatestWhenLive(w, own, |w.runs| - 1, after.Intent().value);
    LastRunReplaced(w, own, after);
  }

  lemma PersistStep(s: System, acknowledged: bool)
    requires Apply(s, PersistIntent(acknowledged)).world != s.world
    requires s.process.Active? && s.process.run == |s.world.runs| - 1
    ensures s.process.next < |s.process.plan.candidates|
    ensures var (w, r, plan, next) := (s.world, s.process.run, s.process.plan, s.process.next);
            Apply(s, PersistIntent(acknowledged))
            == System(SetRun(w, r, Intending(w, plan, next)), s.plans,
                      Active(r, plan, next, if acknowledged then Intended else Raised(Some(plan.candidates[next]))))
  {
  }

  lemma ReadyProcess(s: System, own: seq<File>)
    requires |s.world.catalog.artifacts| == |own| && ProcessKept(s, own)
    requires s.process.Active? && s.process.phase.Ready?
    ensures var (w, r, plan, next) := (s.world, s.process.run, s.process.plan, s.process.next);
            && r == |w.runs| - 1 && OwnRun(w, plan, r) && Underway(w.catalog, plan, next) && plan.blocked == []
            && plan in s.plans && w.runs[r].kind == FolderMove
  {
  }

  lemma PersistReady(s: System, own: seq<File>, names: set<string>, acknowledged: bool)
    requires Kept(s, own, names) && Apply(s, PersistIntent(acknowledged)).world != s.world
    ensures |s.world.runs| > 0 && s.world.runs[|s.world.runs| - 1].Intent() == None
    ensures s.process.Active? && s.process.next < |s.process.plan.candidates|
    ensures var c := s.process.plan.candidates[s.process.next];
            Sound(s.world.catalog, own, c) && Live(s.world.catalog, c) && c.artifactId < |own|
    ensures var (w, r, plan, next) := (s.world, s.process.run, s.process.plan, s.process.next);
            && r == |w.runs| - 1 && OwnRun(w, plan, r) && Underway(w.catalog, plan, next) && plan.blocked == []
            && plan in s.plans && w.runs[r].kind == FolderMove
            && Intending(w, plan, next).Intent() == Some(plan.candidates[next])
            && Apply(s, PersistIntent(acknowledged))
               == System(SetRun(w, r, Intending(w, plan, next)), s.plans,
                         Active(r, plan, next, if acknowledged then Intended else Raised(Some(plan.candidates[next]))))
  {
    PersistEffect(s, own, names, acknowledged);
    ReadyProcess(s, own);
    PersistStep(s, acknowledged);
  }

  lemma PersistWorldKept(s: System, own: seq<File>, names: set<string>, acknowledged: bool)
    requires Kept(s, own, names) && Apply(s, PersistIntent(acknowledged)).world != s.world
    ensures WorldKept(Apply(s, PersistIntent(acknowledged)).world, own)
  {
    KeptWorld(s, own, names);
    PersistReady(s, own, names, acknowledged);
    NextRecorded(s.world, own, s.process.plan, s.process.next);
    assert Apply(s, PersistIntent(acknowledged)).world
        == SetRun(s.world, |s.world.runs| - 1, Intending(s.world, s.process.plan, s.process.next));
  }

  lemma NextRecorded(w: World, own: seq<File>, plan: Plan, next: nat)
    requires WorldKept(w, own) && |w.runs| > 0 && w.runs[|w.runs| - 1].Intent() == None && next < |plan.candidates|
    requires Sound(w.catalog, own, plan.candidates[next]) && Live(w.catalog, plan.candidates[next])
    requires plan.candidates[next].artifactId < |own|
    ensures WorldKept(SetRun(w, |w.runs| - 1, Intending(w, plan, next)), own)
  {
    IntentRecorded(w, own, Intending(w, plan, next));
  }

  lemma KeptWorld(s: System, own: seq<File>, names: set<string>)
    requires Kept(s, own, names)
    ensures WorldKept(s.world, own) && Guarded(s.world) && PlansFree(s.world, s.plans)
  {
  }

  /** Recording an intent guards it, and leaves every plan what it was. */
  lemma IntentGuarded(w: World, plans: set<Plan>, after: Run)
    requires Guarded(w) && PlansFree(w, plans) && Adds(w, after)
    ensures var w2 := SetRun(w, |w.runs| - 1, after); Guarded(w2) && PlansFree(w2, plans) && SameSpots(w, w2)
  {
    var w2 := SetRun(w, |w.runs| - 1, after);
    AddedGuarded(w, after);
    forall plan <- plans
      ensures PlanFree(w2, plan)
    {
      AddedFree(w, after, plan);
    }
    forall l
      ensures Spot(w2, l) <==> Spot(w, l)
    {
      AddedSpots(w, after, l);
    }
  }

  lemma PersistAdds(s: System, own: seq<File>, names: set<string>, acknowledged: bool)
    requires Kept(s, own, names) && Apply(s, PersistIntent(acknowledged)).world != s.world
    ensures |s.world.runs| > 0 && s.process.Active? && s.process.next < |s.process.plan.candidates|
    ensures var after := Intending(s.world, s.process.plan, s.process.next);
            && Adds(s.world, after)
            && Apply(s, PersistIntent(acknowledged)).world == SetRun(s.world, |s.world.runs| - 1, after)
  {
    PersistEffect(s, own, names, acknowledged);
  }

  /** What is free stays free when the places that intents name are the same. */
  lemma FreeStays(w: World, w2: World, plan: Plan, next: nat, c: Candidate)
    requires SameSpots(w, w2)
    ensures RestFree(w, plan, next) ==> RestFree(w2, plan, next)
    ensures Recordable(w, plan, c) ==> Recordable(w2, plan, c)
  {
  }

  lemma PersistGuarded(s: System, own: seq<File>, names: set<string>, acknowledged: bool)
    requires Kept(s, own, names) && Apply(s, PersistIntent(acknowledged)).world != s.world
    ensures var w2 := Apply(s, PersistIntent(acknowledged)).world;
            Guarded(w2) && PlansFree(w2, s.plans) && SameSpots(s.world, w2)
  {
    PersistAdds(s, own, names, acknowledged);
    IntentGuarded(s.world, s.plans, Intending(s.world, s.process.plan, s.process.next));
  }

  lemma PersistFree(s: System, own: seq<File>, names: set<string>, acknowledged: bool)
    requires Kept(s, own, names) && Apply(s, PersistIntent(acknowledged)).world != s.world
    ensures s.process.Active? && s.process.next < |s.process.plan.candidates|
    ensures var (w2, plan, next) := (Apply(s, PersistIntent(acknowledged)).world, s.process.plan, s.process.next);
            RestFree(w2, plan, next) && Recordable(w2, plan, plan.candidates[next])
  {
    PersistEffect(s, own, names, acknowledged);
    PersistGuarded(s, own, names, acknowledged);
    var w2 := Apply(s, PersistIntent(acknowledged)).world;
    FreeStays(s.world, w2, s.process.plan, s.process.next, s.process.plan.candidates[s.process.next]);
  }

  lemma PersistProcessKept(s: System, own: seq<File>, names: set<string>, acknowledged: bool)
    requires Kept(s, own, names) && Apply(s, PersistIntent(acknowledged)).world != s.world
    ensures |Apply(s, PersistIntent(acknowledged)).world.catalog.artifacts| == |own|
    ensures ProcessKept(Apply(s, PersistIntent(acknowledged)), own)
  {
    PersistReady(s, own, names, acknowledged);
    PersistFree(s, own, names, acknowledged);
    LatestWhenLive(s.world, own, |s.world.runs| - 1, s.process.plan.candidates[s.process.next]);
  }

  lemma PersistIntentKeeps(s: System, own: seq<File>, names: set<string>, acknowledged: bool)
    requires Kept(s, own, names)
    ensures Kept(Apply(s, PersistIntent(acknowledged)), own, names)
  {
    if Apply(s, PersistIntent(acknowledged)).world != s.world {
      PersistRowsStay(s, acknowledged);
      PersistGuarded(s, own, names, acknowledged);
      PersistWorldKept(s, own, names, acknowledged);
      PersistProcessKept(s, own, names, acknowledged);
    }
  }

  lemma PersistRowsStay(s: System, acknowledged: bool)
    ensures Apply(s, PersistIntent(acknowledged)).world.catalog == s.world.catalog
    ensures Apply(s, PersistIntent(acknowledged)).plans == s.plans
  {
  }

  lemma RaiseKeeps(s: System, own: seq<File>, names: set<string>, commitAttempted: bool)
    requires Kept(s, own, names)
    ensures Kept(Apply(s, Raise(commitAttempted)), own, names)
  {
    var s2 := Apply(s, Raise(commitAttempted));
    if s2 != s {
      var w := s.world;
      var Active(r, plan, next, phase) := s.process;
      assert PlanKept(w.catalog, own, plan, names);
      if next < |plan.candidates| {
        var c := plan.candidates[next];
        forall i | 0 <= i < |w.runs| && i < r && w.runs[i].Intent().Some?
          && w.runs[i].Intent().value.artifactId == c.artifactId
          ensures w.runs[i].Intent().value.updatedAt <= c.updatedAt
        {
          assert Sound(w.catalog, own, w.runs[i].Intent().value);
        }
        NextRecordable(s, own, names);
      }
    }
  }

  /** The run as the exception handler closes it. */
  function Failing(w: World, process: Process): Run
    requires process.Active? && process.phase.Raised? && process.run < |w.runs|
  {
    w.runs[process.run].(
    status := Failed,
    stats := Some(RunStats(process.plan, process.next, process.phase.intent, Some("folder_move_failed"))))
  }

  /** The run, if it holds an intent, holds the same one for the same names, and is still one the planner reads. */
  ghost predicate KeepsIntent(before: Run, after: Run) {
    before.Intent().Some? ==>
      && after.Intent() == before.Intent() && after.stats.Some?
      && after.stats.value.oldName == before.stats.value.oldName
      && after.stats.value.newName == before.stats.value.newName
      && after.Serves(after.stats.value.oldName, after.stats.value.newName)
  }

  lemma KeptIntentReplaces(cat: Catalog, tree: Tree, own: seq<File>, before: Run, after: Run)
    requires |cat.artifacts| == |own| && KeepsIntent(before, after)
    requires after.Intent().Some? ==> Sound(cat, own, after.Intent().value)
    ensures RunReplaceable(cat, tree, own, before, after)
  {
  }

  lemma FailureStep(s: System)
    requires Apply(s, RecordFailure) != s && (s.process.Active? ==> s.process.run == |s.world.runs| - 1)
    ensures s.process.Active? && s.process.phase.Raised?
    ensures Apply(s, RecordFailure)
            == System(SetRun(s.world, |s.world.runs| - 1, Failing(s.world, s.process)), s.plans, Idle)
  {
  }

  /** What holds of the intent an exception came with. */
  lemma RaisedIntent(s: System, own: seq<File>, names: set<string>)
    requires Kept(s, own, names) && s.process.Active? && s.process.phase.Raised? && s.process.phase.intent.Some?
    ensures var (w, plan, c) := (s.world, s.process.plan, s.process.phase.intent.value);
            && Sound(w.catalog, own, c) && LatestVersion(w.runs, |w.runs| - 1, c)
            && (Live(w.catalog, c) ==> Recordable(w, plan, c))
  {
    assert PlanKept(s.world.catalog, own, s.process.plan, names);
  }

  lemma FailureEffect(s: System, own: seq<File>, names: set<string>)
    requires Kept(s, own, names) && Apply(s, RecordFailure) != s
    ensures s.process.Active? && s.process.phase.Raised? && s.process.run == |s.world.runs| - 1
    ensures var after := Failing(s.world, s.process);
            && Apply(s, RecordFailure) == System(SetRun(s.world, |s.world.runs| - 1, after), s.plans, Idle)
            && Adds(s.world, after)
            && (after.Intent().Some? ==>
                  Sound(s.world.catalog, own, after.Intent().value)
                  && LatestVersion(s.world.runs, |s.world.runs| - 1, after.Intent().value))
            && KeepsIntent(s.world.runs[|s.world.runs| - 1], after)
  {
    FailureStep(s);
    if s.process.phase.intent.Some? {
      RaisedIntent(s, own, names);
    }
  }

  lemma FailureWorldKept(s: System, own: seq<File>, names: set<string>)
    requires Kept(s, own, names) && Apply(s, RecordFailure) != s
    ensures WorldKept(Apply(s, RecordFailure).world, own)
  {
    FailureEffect(s, own, names);
    var last, after := s.world.runs[|s.world.runs| - 1], Failing(s.world, s.process);
    KeptIntentReplaces(s.world.catalog, s.world.tree, own, last, after);
    LastRunReplaced(s.world, own, after);
  }

  lemma FailureGuarded(s: System, own: seq<File>, names: set<string>)
    requires Kept(s, own, names) && Apply(s, RecordFailure) != s
    ensures var w2 := Apply(s, RecordFailure).world;
            Guarded(w2) && PlansFree(w2, s.plans) && SameSpots(s.world, w2)
  {
    FailureEffect(s, own, names);
    IntentGuarded(s.world, s.plans, Failing(s.world, s.process));
  }

  lemma RecordFailureKeeps(s: System, own: seq<File>, names: set<string>)
    requires Kept(s, own, names)
    ensures Kept(Apply(s, RecordFailure), own, names)
  {
    if Apply(s, RecordFailure) != s {
      FailureEffect(s, own, names);
      FailureWorldKept(s, own, names);
      FailureGuarded(s, own, names);
    }
  }

  // ---- moving the file ----

  /** The next candidate is the first artifact still to be moved. */
  lemma NextIsFirst(w: World, names: set<string>, plan: Plan, next: nat)
    requires Separated(w.catalog, names) && w.catalog.playlist.folderName in names
    requires CurrentPlan(w.catalog, plan, names) && Underway(w.catalog, plan, next) && next < |plan.candidates|
    ensures var a := plan.candidates[next].artifactId;
            && First(w.catalog, a)
            && RowDestination(w.catalog, plan.newName, a) == Some(plan.candidates[next].destination)
            && plan.candidates[next].destination != w.catalog.artifacts[a].path
  {
    var c := plan.candidates[next];
    assert Movable(w.catalog, plan, c);
    DestinationFacts(w.catalog, c.artifactId, plan.newName, names);
    forall b | 0 <= b < |w.catalog.artifacts| && Affected(w.catalog, b)
      ensures c.artifactId <= b
    {
      ListedLater(w.catalog, plan, next, b);
    }
  }

  /** What is still listed is listed no earlier than the next candidate. */
  lemma ListedLater(cat: Catalog, plan: Plan, next: nat, b: nat)
    requires InIdOrder(plan.candidates) && next < |plan.candidates| && ListsLive(cat, plan, next, b)
    ensures plan.candidates[next].artifactId <= b
  {
    var k :| next <= k < |plan.candidates| && plan.candidates[k].artifactId == b
      && Movable(cat, plan, plan.candidates[k]);
  }

  /** A rename of the first artifact still to be moved, under the persisted intent of run r. */
  lemma RenameKeepsWorld(w: World, own: seq<File>, a: nat, r: nat, target: Location)
    requires WorldKept(w, own) && a < |own| && r < |w.runs|
    requires w.catalog.artifacts[a].Location() in w.tree && target !in w.tree
    requires target.0 == w.catalog.artifacts[a].storageId
    requires First(w.catalog, a)
    requires Explains(w.catalog, Rename(w.tree, w.catalog.artifacts[a].Location(), target), own, a, w.runs[r])
    ensures WorldKept(w.(tree := Rename(w.tree, w.catalog.artifacts[a].Location(), target)), own)
  {
    var source := w.catalog.artifacts[a].Location();
    var w2 := w.(tree := Rename(w.tree, source, target));
    assert InPlace(w.catalog, w.tree, own, a) by {
      assert !Displaced(w, own, a);
    }
    forall b | 0 <= b < |own|
      ensures InPlace(w2.catalog, w2.tree, own, b) || Displaced(w2, own, b)
      ensures Displaced(w2, own, b) ==> b == a
    {
      if b != a {
        OthersInPlace(w, own, a, b);
        assert w.catalog.artifacts[b].Location() != source;
      }
    }
  }

  /** What a process about to move a file knows of its candidate. */
  lemma IntendedFacts(s: System, own: seq<File>, names: set<string>)
    requires Kept(s, own, names) && s.process.Active? && s.process.phase.Intended?
    ensures var (w, plan, next) := (s.world, s.process.plan, s.process.next);
            && next < |plan.candidates|
            && var (c, a) := (plan.candidates[next], plan.candidates[next].artifactId);
               && a < |own| && c.identity.Some? && c.identity.value.file == own[a]
               && w.catalog.artifacts[a].Location() == (c.storageId, c.source) && Live(w.catalog, c)
               && First(w.catalog, a)
               && RowDestination(w.catalog, plan.newName, a) == Some(c.destination) && c.destination != c.source
               && plan.oldName == w.catalog.playlist.folderName
  {
    var w := s.world;
    var plan, next := s.process.plan, s.process.next;
    NextRecordable(s, own, names);
    assert PlanKept(w.catalog, own, plan, names);
    NextIsFirst(w, names, plan, next);
  }

  /** A storage move that changes the tree renames the candidate's file to a free place. */
  lemma RelocateRenames(s: System, outcome: MoveOutcome)
    requires Apply(s, Relocate(outcome)).world.tree != s.world.tree
    ensures s.process.Active? && s.process.phase.Intended? && s.process.next < |s.process.plan.candidates|
    ensures var c := s.process.plan.candidates[s.process.next];
            && (c.storageId, c.source) in s.world.tree && Place(c) !in s.world.tree
            && Apply(s, Relocate(outcome)).world.tree == Rename(s.world.tree, (c.storageId, c.source), Place(c))
  {
  }

  lemma RelocateKeeps(s: System, own: seq<File>, names: set<string>, outcome: MoveOutcome)
    requires Kept(s, own, names)
    ensures Kept(Apply(s, Relocate(outcome)), own, names)
  {
    var s2 := Apply(s, Relocate(outcome));
    if s2 != s {
      IntendedFacts(s, own, names);
      RelocateKeepsRows(s, outcome);
      RelocateKeepsWorld(s, own, names, outcome);
      RelocateKeepsProcess(s, own, names, outcome);
      RelocateKeepsGuard(s, own, names, outcome);
    }
  }

  /** The file that moves is the first one's, from its place to a free one; all others are in their places. */
  lemma RelocateMoves(s: System, own: seq<File>, names: set<string>, outcome: MoveOutcome)
    requires Kept(s, own, names) && Apply(s, Relocate(outcome)).world.tree != s.world.tree
    ensures s.process.Active? && s.process.next < |s.process.plan.candidates|
    ensures var (w, c) := (s.world, s.process.plan.candidates[s.process.next]);
            && c.artifactId < |own| && First(w.catalog, c.artifactId) && s.process.run < |w.runs|
            && Standing(w.catalog, w.runs[s.process.run]) && w.runs[s.process.run].Intent() == Some(c)
            && w.catalog.artifacts[c.artifactId].Location() in w.tree && Place(c) !in w.tree
            && (forall b :: 0 <= b < |own| ==> InPlace(w.catalog, w.tree, own, b))
            && Apply(s, Relocate(outcome)).world
               == w.(tree := Rename(w.tree, w.catalog.artifacts[c.artifactId].Location(), Place(c)))
  {
    RelocateRenames(s, outcome);
    RelocateKeepsRows(s, outcome);
    IntendedFacts(s, own, names);
    var w, c := s.world, s.process.plan.candidates[s.process.next];
    forall b | 0 <= b < |own|
      ensures InPlace(w.catalog, w.tree, own, b)
    {
      if b != c.artifactId {
        OthersInPlace(w, own, c.artifactId, b);
      } else {
        assert !Displaced(w, own, b);
      }
    }
  }

  /** Moving the file leaves the intents guarded, the plans what they were, and free places free. */
  lemma RelocateKeepsGuard(s: System, own: seq<File>, names: set<string>, outcome: MoveOutcome)
    requires Kept(s, own, names)
    ensures var w2 := Apply(s, Relocate(outcome)).world;
            && Guarded(w2) && PlansFree(w2, s.plans)
            && forall l :: Free(s.world, l) ==> Free(w2, l)
  {
    RelocateKeepsRows(s, outcome);
    if Apply(s, Relocate(outcome)).world.tree != s.world.tree {
      RelocateMoves(s, own, names, outcome);
      var c := s.process.plan.candidates[s.process.next];
      MoveKeepsGuard(s.world, own, c.artifactId, s.process.run, c);
      PlansStayFree(s.world, Apply(s, Relocate(outcome)).world, s.plans);
    }
  }

  lemma MoveKeepsGuard(w: World, own: seq<File>, a: nat, r: nat, c: Candidate)
    requires FilesAccounted(w, own) && Guarded(w) && First(w.catalog, a) && r < |w.runs|
    requires Standing(w.catalog, w.runs[r]) && w.runs[r].Intent() == Some(c) && Place(c) !in w.tree
    requires w.catalog.artifacts[a].Location() in w.tree
    requires forall b :: 0 <= b < |own| ==> InPlace(w.catalog, w.tree, own, b)
    ensures var w2 := w.(tree := Rename(w.tree, w.catalog.artifacts[a].Location(), Place(c)));
            Guarded(w2) && forall l :: Free(w, l) ==> Free(w2, l)
  {
    var w2 := w.(tree := Rename(w.tree, w.catalog.artifacts[a].Location(), Place(c)));
    assert forall b :: 0 <= b < |own| ==> InPlace(w.catalog, w.tree, own, b);
    MovedGuarded(w, own, a, r, Place(c));
    forall l | Free(w, l)
      ensures Free(w2, l)
    {
      MovedFree(w, a, Place(c), l);
    }
  }

  lemma PlansStayFree(w: World, w2: World, plans: set<Plan>)
    requires w2.catalog == w.catalog && (forall l :: Free(w, l) ==> Free(w2, l))
    requires PlansFree(w, plans)
    ensures PlansFree(w2, plans)
  {
    forall plan <- plans
      ensures PlanFree(w2, plan)
    {
      assert PlanFree(w, plan);
    }
  }

  lemma RelocateKeepsWorld(s: System, own: seq<File>, names: set<string>, outcome: MoveOutcome)
    requires Kept(s, own, names)
    ensures WorldKept(Apply(s, Relocate(outcome)).world, own)
  {
    var w := s.world;
    RelocateKeepsRows(s, outcome);
    if Apply(s, Relocate(outcome)).world.tree != w.tree {
      RelocateRenames(s, outcome);
      IntendedFacts(s, own, names);
      var c := s.process.plan.candidates[s.process.next];
      RenameKeepsWorld(w, own, c.artifactId, s.process.run, Place(c));
    }
  }

  lemma RelocateKeepsRows(s: System, outcome: MoveOutcome)
    ensures Apply(s, Relocate(outcome)).world == s.world.(tree := Apply(s, Relocate(outcome)).world.tree)
  {
  }

  /** When the storage calls raised nothing, the file is at the destination and nowhere else. */
  lemma MovedThere(tree: Tree, c: Candidate, outcome: MoveOutcome)
    requires c.identity.Some? && c.source != c.destination && MoveFile(tree, c, outcome).1
    ensures var after := MoveFile(tree, c, outcome).0;
            (c.storageId, c.source) !in after && Place(c) in after && after[Place(c)] == c.identity.value.file
  {
  }

  /** What the process is after the storage calls. */
  lemma RelocateShape(s: System, outcome: MoveOutcome)
    requires s.process.Active? && s.process.run < |s.world.runs| && s.process.phase.Intended?
    requires s.process.next < |s.process.plan.candidates| && s.process.plan.candidates[s.process.next].identity.Some?
    ensures var c := s.process.plan.candidates[s.process.next];
            var (tree, ok) := MoveFile(s.world.tree, c, outcome);
            Apply(s, Relocate(outcome))
            == System(s.world.(tree := tree), s.plans,
                      s.process.(phase := if ok then Phase.Relocated else Raised(Some(c))))
  {
  }

  /** What stays as it was when only the tree has changed. */
  lemma RelocateStays(s: System, own: seq<File>, names: set<string>, outcome: MoveOutcome)
    requires Kept(s, own, names) && s.process.Active? && s.process.phase.Intended?
    ensures var (w, plan, next, r) := (s.world, s.process.plan, s.process.next, s.process.run);
            && r == |w.runs| - 1 && OwnRun(w, plan, r) && Underway(w.catalog, plan, next) && next < |plan.candidates|
            && w.runs[r].Intent() == Some(plan.candidates[next]) && plan.blocked == [] && plan in s.plans
            && w.runs[r].kind == FolderMove && LatestVersion(w.runs, r, plan.candidates[next])
    ensures var (w2, plan, next) := (Apply(s, Relocate(outcome)).world, s.process.plan, s.process.next);
            RestFree(w2, plan, next) && Recordable(w2, plan, plan.candidates[next])
  {
    NextRecordable(s, own, names);
    RelocateKeepsRows(s, outcome);
    RelocateKeepsGuard(s, own, names, outcome);
    LatestWhenLive(s.world, own, s.process.run, s.process.plan.candidates[s.process.next]);
  }

  lemma RelocateKeepsProcess(s: System, own: seq<File>, names: set<string>, outcome: MoveOutcome)
    requires Kept(s, own, names) && s.process.Active? && s.process.phase.Intended?
    ensures |Apply(s, Relocate(outcome)).world.catalog.artifacts| == |own|
            && ProcessKept(Apply(s, Relocate(outcome)), own)
  {
    IntendedFacts(s, own, names);
    RelocateStays(s, own, names, outcome);
    RelocateShape(s, outcome);
    var c := s.process.plan.candidates[s.process.next];
    if MoveFile(s.world.tree, c, outcome).1 {
      MovedThere(s.world.tree, c, outcome);
    }
  }

  // ---- committing ----

  /** How the catalog changes when artifact a is recorded at its destination. */
  ghost predicate Recorded(cat: Catalog, cat2: Catalog, a: nat, destination: Path, version: nat) {
    && a < |cat.artifacts|
    && cat2 == cat.(artifacts := cat.artifacts[a := cat.artifacts[a].(path := destination, updatedAt := version)])
  }

  lemma RecordedSound(
    cat: Catalog, cat2: Catalog, own: seq<File>, c: Candidate, a: nat, destination: Path, version: nat)
    requires Recorded(cat, cat2, a, destination, version) && cat.artifacts[a].updatedAt < version
    requires Sound(cat, own, c)
    ensures Sound(cat2, own, c)
    ensures c.artifactId == a < |own| ==> !Live(cat2, c)
  {
  }

  /** The other rows keep their destinations. */
  lemma RecordedMovable(cat: Catalog, cat2: Catalog, plan: Plan, c: Candidate, a: nat, destination: Path, version: nat)
    requires Recorded(cat, cat2, a, destination, version) && c.artifactId != a
    ensures Movable(cat2, plan, c) == Movable(cat, plan, c) && Live(cat2, c) == Live(cat, c)
  {
  }

  lemma RecordedPlan(
    cat: Catalog, cat2: Catalog, own: seq<File>, names: set<string>, plan: Plan, a: nat, destination: Path,
    version: nat)
    requires Recorded(cat, cat2, a, destination, version) && cat.artifacts[a].updatedAt < version && a < |own|
    requires !Affected(cat2, a) && PlanKept(cat, own, plan, names)
    ensures PlanKept(cat2, own, plan, names)
  {
    if plan.blocked == [] {
      forall k | 0 <= k < |plan.candidates|
        ensures Sound(cat2, own, plan.candidates[k])
        ensures plan.candidates[k].artifactId == a ==> !Live(cat2, plan.candidates[k])
      {
        RecordedSound(cat, cat2, own, plan.candidates[k], a, destination, version);
      }
      if plan.playlistUpdatedAt == cat.playlist.updatedAt {
        forall k | 0 <= k < |plan.candidates| && Live(cat2, plan.candidates[k])
          ensures Movable(cat2, plan, plan.candidates[k])
        {
          RecordedMovable(cat, cat2, plan, plan.candidates[k], a, destination, version);
        }
        forall b | 0 <= b < |cat2.artifacts| && Affected(cat2, b)
          ensures ListsLive(cat2, plan, 0, b)
        {
          RecordedListing(cat, cat2, plan, 0, a, b, destination, version);
        }
      }
    }
  }

  lemma RecordedListing(
    cat: Catalog, cat2: Catalog, plan: Plan, from: nat, a: nat, b: nat, destination: Path, version: nat)
    requires Recorded(cat, cat2, a, destination, version) && b < |cat.artifacts| && b != a
    requires Affected(cat2, b)
    requires Affected(cat, b) ==> ListsLive(cat, plan, from, b)
    ensures ListsLive(cat2, plan, from, b)
  {
    assert Affected(cat, b);
    var k :| from <= k < |plan.candidates| && plan.candidates[k].artifactId == b
      && Movable(cat, plan, plan.candidates[k]);
    assert Movable(cat2, plan, plan.candidates[k]);
  }

  /** When every file is at its database path, nothing is displaced. */
  lemma AllInPlace(w: World, own: seq<File>)
    requires |w.catalog.artifacts| == |own| && DistinctRows(w.catalog)
    requires forall a :: 0 <= a < |own| ==> InPlace(w.catalog, w.tree, own, a)
    ensures FilesAccounted(w, own) && DisplacedFirst(w, own)
  {
    forall a | 0 <= a < |own|
      ensures !Displaced(w, own, a)
    {
      assert InPlace(w.catalog, w.tree, own, a);
    }
  }

  /** Everything but the first artifact still to be moved is at its database path. */
  lemma OthersInPlace(w: World, own: seq<File>, a: nat, b: nat)
    requires FilesAccounted(w, own) && DisplacedFirst(w, own) && a < |own| && b < |own| && a != b
    requires First(w.catalog, a)
    ensures InPlace(w.catalog, w.tree, own, b)
  {
    assert Displaced(w, own, b) ==> b <= a && a <= b;
  }

  /** The recorded versions after a commit that clears the last run's intent. */
  lemma CommitKeepsRecords(w: World, w2: World, own: seq<File>, a: nat, destination: Path)
    requires WorldKept(w, own) && |w.runs| > 0 && a < |own|
    requires Recorded(w.catalog, w2.catalog, a, destination, w2.clock) && w2.clock == w.clock + 1
    requires |w2.runs| == |w.runs| && w2.runs[|w.runs| - 1].Intent() == None
    requires forall i :: 0 <= i < |w.runs| - 1 ==> w2.runs[i] == w.runs[i]
    ensures Clocked(w2) && SoundIntents(w2, own) && VersionsOrdered(w2.runs)
  {
    forall i | 0 <= i < |w2.runs| && w2.runs[i].Intent().Some?
      ensures Sound(w2.catalog, own, w2.runs[i].Intent().value)
    {
      RecordedSound(w.catalog, w2.catalog, own, w.runs[i].Intent().value, a, destination, w2.clock);
    }
    forall i, j | 0 <= i < j < |w2.runs|
      ensures NotNewer(w2.runs[i], w2.runs[j])
    {
      assert NotNewer(w.runs[i], w.runs[j]);
    }
  }

  lemma RecordedInPlace(
    cat: Catalog, cat2: Catalog, tree: Tree, own: seq<File>, a: nat, b: nat, destination: Path, version: nat)
    requires Recorded(cat, cat2, a, destination, version) && |cat.artifacts| == |own| && b < |own|
    requires (cat.artifacts[a].storageId, destination) in tree
             && tree[(cat.artifacts[a].storageId, destination)] == own[a]
    requires b != a ==> InPlace(cat, tree, own, b)
    ensures InPlace(cat2, tree, own, b)
  {
  }

  /** A row recorded at its destination has left the old folder. */
  lemma RecordedLeaves(
    cat: Catalog, cat2: Catalog, names: set<string>, newName: string, a: nat, destination: Path, version: nat)
    requires Recorded(cat, cat2, a, destination, version) && Separated(cat, names)
    requires cat.playlist.folderName in names && newName in names && newName != cat.playlist.folderName
    requires RowDestination(cat, newName, a) == Some(destination)
    ensures !Affected(cat2, a)
  {
    DestinationFacts(cat, a, newName, names);
    assert RowPrefix(cat2.playlist, cat2.artifacts[a], cat2.playlist.folderName)
        == RowPrefix(cat.playlist, cat.artifacts[a], cat.playlist.folderName);
  }

  /** The rows keep different places, because the place an intent names is no other row's. */
  lemma RecordedDistinct(cat: Catalog, cat2: Catalog, tree: Tree, run: Run, a: nat, destination: Path, version: nat)
    requires Recorded(cat, cat2, a, destination, version) && DistinctRows(cat) && run.Intent().Some?
    requires Guards(cat, tree, run) && run.Intent().value.artifactId == a
    requires Place(run.Intent().value) == (cat.artifacts[a].storageId, destination) && Place(run.Intent().value) in tree
    ensures DistinctRows(cat2)
  {
  }

  /** What holds when a commit takes effect. */
  ghost predicate Committable(w: World, own: seq<File>, names: set<string>, plan: Plan, next: nat) {
    && Separated(w.catalog, names) && w.catalog.playlist.folderName in names
    && CurrentPlan(w.catalog, plan, names) && Underway(w.catalog, plan, next) && next < |plan.candidates|
    && |w.runs| > 0 && |w.catalog.artifacts| == |own| && plan.candidates[next].artifactId < |own|
    && Explains(w.catalog, w.tree, own, plan.candidates[next].artifactId, w.runs[|w.runs| - 1])
    && w.runs[|w.runs| - 1].Intent() == Some(plan.candidates[next])
    && CandidateRowsMatch(w, plan.candidates[next])
  }

  lemma CommitKeepsWorld(w: World, own: seq<File>, names: set<string>, plan: Plan, next: nat, a: nat)
    requires WorldKept(w, own) && Guarded(w) && Committable(w, own, names, plan, next)
    requires a == plan.candidates[next].artifactId
    ensures WorldKept(CommitMove(w, |w.runs| - 1, plan, next), own)
  {
    var c, r := plan.candidates[next], |w.runs| - 1;
    var w2 := CommitMove(w, r, plan, next);
    NextIsFirst(w, names, plan, next);
    CommitKeepsRecords(w, w2, own, a, c.destination);
    forall b | 0 <= b < |own|
      ensures InPlace(w2.catalog, w2.tree, own, b)
    {
      if b != a {
        OthersInPlace(w, own, a, b);
      }
      RecordedInPlace(w.catalog, w2.catalog, w.tree, own, a, b, c.destination, w2.clock);
    }
    RecordedDistinct(w.catalog, w2.catalog, w.tree, w.runs[r], a, c.destination, w2.clock);
    AllInPlace(w2, own);
  }

  /** After a commit the remaining candidates are the artifacts still to be moved. */
  lemma CommitUnderway(
    cat: Catalog, cat2: Catalog, own: seq<File>, names: set<string>, plan: Plan, next: nat, a: nat, version: nat)
    requires next < |plan.candidates| && a == plan.candidates[next].artifactId
    requires Recorded(cat, cat2, a, plan.candidates[next].destination, version)
    requires CurrentPlan(cat, plan, names) && Underway(cat, plan, next) && !Affected(cat2, a)
    ensures Underway(cat2, plan, next + 1)
  {
    var destination := plan.candidates[next].destination;
    forall k | next + 1 <= k < |plan.candidates|
      ensures Movable(cat2, plan, plan.candidates[k])
    {
      assert plan.candidates[next].artifactId < plan.candidates[k].artifactId;
      RecordedMovable(cat, cat2, plan, plan.candidates[k], a, destination, version);
    }
    forall b | 0 <= b < |cat2.artifacts| && Affected(cat2, b)
      ensures ListsLive(cat2, plan, next + 1, b)
    {
      RecordedListing(cat, cat2, plan, next, a, b, destination, version);
      var k :| next <= k < |plan.candidates| && plan.candidates[k].artifactId == b
        && Movable(cat2, plan, plan.candidates[k]);
      assert k != next;
    }
  }

  /** Sound candidates of one artifact that ran with its row are at least as new as every recorded one. */
  lemma LatestWhenLive(w: World, own: seq<File>, r: nat, c: Candidate)
    requires SoundIntents(w, own) && c.artifactId < |own| == |w.catalog.artifacts| && Live(w.catalog, c)
    ensures LatestVersion(w.runs, r, c)
  {
    forall i | 0 <= i < |w.runs| && i < r && w.runs[i].Intent().Some?
      && w.runs[i].Intent().value.artifactId == c.artifactId
      ensures w.runs[i].Intent().value.updatedAt <= c.updatedAt
    {
      assert Sound(w.catalog, own, w.runs[i].Intent().value);
    }
  }

  lemma CommitKeepsProcess(s: System, own: seq<File>, names: set<string>, acknowledged: bool, w2: World)
    requires Kept(s, own, names) && s.process.Active? && s.process.phase == Relocated
    requires var c := s.process.plan.candidates[s.process.next];
             Recorded(s.world.catalog, w2.catalog, c.artifactId, c.destination, w2.clock)
               && !Affected(w2.catalog, c.artifactId)
    requires w2 == CommitMove(s.world, s.process.run, s.process.plan, s.process.next)
    ensures var Active(r, plan, next, _) := s.process;
            ProcessKept(System(w2, s.plans,
                               if acknowledged then Active(r, plan, next + 1, Ready)
                               else Active(r, plan, next, Raised(Some(plan.candidates[next])))), own)
  {
    var w := s.world;
    var Active(r, plan, next, _) := s.process;
    var c := plan.candidates[next];
    assert PlanKept(w.catalog, own, plan, names);
    if acknowledged {
      CommitUnderway(w.catalog, w2.catalog, own, names, plan, next, c.artifactId, w2.clock);
    } else {
      assert Movable(w.catalog, plan, c);
      LatestWhenLive(w, own, r, c);
      assert forall i :: 0 <= i < r ==> w2.runs[i] == w.runs[i];
      assert LatestVersion(w2.runs, r, c);
    }
  }

  /** What a commit that takes effect changes. */
  lemma CommitShape(s: System, acknowledged: bool) returns (a: nat, destination: Path)
    requires Apply(s, Commit(acknowledged)).world != s.world
    ensures var w, w2 := s.world, Apply(s, Commit(acknowledged)).world;
            && Recorded(w.catalog, w2.catalog, a, destination, w2.clock) && w2.clock == w.clock + 1
            && s.process.Active? && s.process.run < |w.runs| == |w2.runs|
            && w2.runs == w.runs[s.process.run := w2.runs[s.process.run]]
            && w2.runs[s.process.run].Intent() == None && w2.runs[s.process.run].status == w.runs[s.process.run].status
            && w2.runs[s.process.run].kind == w.runs[s.process.run].kind
            && w2.runs[s.process.run].stats.Some?
            && w2.runs[s.process.run].stats.value.oldName == s.process.plan.oldName
            && w2.runs[s.process.run].stats.value.newName == s.process.plan.newName
    ensures var s2 := Apply(s, Commit(acknowledged));
            s2.plans == s.plans && s2.process.Active? && s2.process.plan == s.process.plan && s.process.phase.Relocated?
  {
    var c := s.process.plan.candidates[s.process.next];
    a, destination := c.artifactId, c.destination;
  }

  /** What holds of the process, its plan and its candidate when a commit takes effect. */
  lemma CommitEffect(s: System, own: seq<File>, names: set<string>, acknowledged: bool)
    requires Kept(s, own, names) && Apply(s, Commit(acknowledged)).world != s.world
    ensures s.process.Active? && s.process.phase.Relocated?
    ensures var (w, plan, next) := (s.world, s.process.plan, s.process.next);
            && s.process.run == |w.runs| - 1 && next < |plan.candidates| && plan.candidates[next].artifactId < |own|
            && CurrentPlan(w.catalog, plan, names) && Underway(w.catalog, plan, next)
            && CandidateRowsMatch(w, plan.candidates[next]) && Movable(w.catalog, plan, plan.candidates[next])
            && Apply(s, Commit(acknowledged)).world == CommitMove(w, s.process.run, plan, next)
            && w.runs[|w.runs| - 1].Intent() == Some(plan.candidates[next])
            && Explains(w.catalog, w.tree, own, plan.candidates[next].artifactId, w.runs[|w.runs| - 1])
  {
    assert PlanKept(s.world.catalog, own, s.process.plan, names);
    assert Movable(s.world.catalog, s.process.plan, s.process.plan.candidates[s.process.next]);
  }

  lemma CommitReady(s: System, own: seq<File>, names: set<string>, acknowledged: bool)
    requires Kept(s, own, names) && Apply(s, Commit(acknowledged)).world != s.world
    ensures s.process.Active? && Committable(s.world, own, names, s.process.plan, s.process.next)
    ensures Apply(s, Commit(acknowledged)).world
         == CommitMove(s.world, |s.world.runs| - 1, s.process.plan, s.process.next)
  {
    CommitEffect(s, own, names, acknowledged);
  }

  lemma CommitWorldKept(s: System, own: seq<File>, names: set<string>, acknowledged: bool)
    requires Kept(s, own, names) && Apply(s, Commit(acknowledged)).world != s.world
    ensures var w2 := Apply(s, Commit(acknowledged)).world;
      WorldKept(w2, own) && w2.catalog.playlist == s.world.catalog.playlist
  {
    CommitReady(s, own, names, acknowledged);
    CommitKeepsWorld(s.world, own, names, s.process.plan, s.process.next,
      s.process.plan.candidates[s.process.next].artifactId);
  }

  lemma CommitLeaves(s: System, own: seq<File>, names: set<string>, acknowledged: bool)
    requires Kept(s, own, names) && Apply(s, Commit(acknowledged)).world != s.world
    ensures s.process.Active? && s.process.next < |s.process.plan.candidates|
    ensures var c := s.process.plan.candidates[s.process.next];
            var w2 := Apply(s, Commit(acknowledged)).world;
            && c.artifactId < |own| == |w2.catalog.artifacts|
            && Recorded(s.world.catalog, w2.catalog, c.artifactId, c.destination, w2.clock)
               && !Affected(w2.catalog, c.artifactId)
  {
    CommitEffect(s, own, names, acknowledged);
    var c := s.process.plan.candidates[s.process.next];
    var w2 := Apply(s, Commit(acknowledged)).world;
    RecordedLeaves(s.world.catalog, w2.catalog, names, s.process.plan.newName, c.artifactId, c.destination, w2.clock);
  }

  lemma CommitKeepsNames(s: System, own: seq<File>, names: set<string>, acknowledged: bool)
    requires Kept(s, own, names) && Apply(s, Commit(acknowledged)).world != s.world
    ensures Separated(Apply(s, Commit(acknowledged)).world.catalog, names)
  {
    CommitLeaves(s, own, names, acknowledged);
    SeparatedStays(s.world.catalog, Apply(s, Commit(acknowledged)).world.catalog, names);
  }

  lemma CommitStep(s: System, acknowledged: bool)
    requires Apply(s, Commit(acknowledged)).world != s.world
    requires s.process.Active? && s.process.phase.Relocated? && s.process.next < |s.process.plan.candidates|
    requires s.process.run < |s.world.runs|
    ensures var Active(r, plan, next, _) := s.process;
            Apply(s, Commit(acknowledged))
            == System(CommitMove(s.world, r, plan, next), s.plans,
                      if acknowledged then Active(r, plan, next + 1, Ready)
                      else Active(r, plan, next, Raised(Some(plan.candidates[next]))))
  {
  }

  lemma CommitProcessKept(s: System, own: seq<File>, names: set<string>, acknowledged: bool)
    requires Kept(s, own, names) && Apply(s, Commit(acknowledged)).world != s.world
    ensures |Apply(s, Commit(acknowledged)).world.catalog.artifacts| == |own|
            && ProcessKept(Apply(s, Commit(acknowledged)), own)
  {
    CommitEffect(s, own, names, acknowledged);
    CommitLeaves(s, own, names, acknowledged);
    CommitStep(s, acknowledged);
    CommitKeepsProcess(s, own, names, acknowledged, Apply(s, Commit(acknowledged)).world);
  }

  lemma CommitPlansKept(s: System, own: seq<File>, names: set<string>, acknowledged: bool)
    requires Kept(s, own, names) && Apply(s, Commit(acknowledged)).world != s.world
    ensures forall plan <- s.plans :: PlanKept(Apply(s, Commit(acknowledged)).world.catalog, own, plan, names)
  {
    CommitLeaves(s, own, names, acknowledged);
    var c := s.process.plan.candidates[s.process.next];
    CommitKeepsPlans(s.world, Apply(s, Commit(acknowledged)).world, own, names, s.plans, c.artifactId, c.destination);
  }

  lemma CommitKeeps(s: System, own: seq<File>, names: set<string>, acknowledged: bool)
    requires Kept(s, own, names)
    ensures Kept(Apply(s, Commit(acknowledged)), own, names)
  {
    if Apply(s, Commit(acknowledged)).world != s.world {
      CommitKeepsNames(s, own, names, acknowledged);
      CommitWorldKept(s, own, names, acknowledged);
      CommitProcessKept(s, own, names, acknowledged);
      CommitPlansKept(s, own, names, acknowledged);
      CommitKeepsGuard(s, own, names, acknowledged);
    }
  }

  /** After a commit no intent stands, and only plans that were started can still list the recorded artifact. */
  lemma CommitKeepsGuard(s: System, own: seq<File>, names: set<string>, acknowledged: bool)
    requires Kept(s, own, names) && Apply(s, Commit(acknowledged)).world != s.world
    ensures var w2 := Apply(s, Commit(acknowledged)).world;
            Guarded(w2) && PlansFree(w2, s.plans)
  {
    CommitEffect(s, own, names, acknowledged);
    CommitLeaves(s, own, names, acknowledged);
    var w2, a := Apply(s, Commit(acknowledged)).world, s.process.plan.candidates[s.process.next].artifactId;
    var c := s.process.plan.candidates[s.process.next];
    CommitNoneStands(s.world, w2, own, a, c.destination);
    NoneStandingGuarded(w2);
    forall plan <- s.plans
      ensures PlanFree(w2, plan)
    {
      assert PlanKept(s.world.catalog, own, plan, names);
      if plan.blocked == [] && plan.playlistUpdatedAt == w2.catalog.playlist.updatedAt {
        RecordedOutdates(s.world.catalog, w2.catalog, plan, names, a, c.destination, w2.clock);
      }
    }
  }

  lemma CommitNoneStands(w: World, w2: World, own: seq<File>, a: nat, destination: Path)
    requires WorldKept(w, own) && Guarded(w) && First(w.catalog, a)
    requires Recorded(w.catalog, w2.catalog, a, destination, w2.clock) && w2.clock == w.clock + 1
    requires |w2.runs| == |w.runs| > 0 && w2.runs[|w.runs| - 1].Intent() == None
    requires forall i :: 0 <= i < |w.runs| - 1 ==> w2.runs[i] == w.runs[i]
    ensures forall r :: 0 <= r < |w2.runs| ==> !Standing(w2.catalog, w2.runs[r])
  {
    forall r | 0 <= r < |w2.runs|
      ensures !Standing(w2.catalog, w2.runs[r])
    {
      if r < |w.runs| - 1 && w.runs[r].Intent().Some? {
        RecordedSound(w.catalog, w2.catalog, own, w.runs[r].Intent().value, a, destination, w2.clock);
        assert Standing(w.catalog, w.runs[r]) ==> Guards(w.catalog, w.tree, w.runs[r]);
      }
    }
  }

  /** A current plan lists the artifact as it was, so it can no longer be started. */
  lemma RecordedOutdates(
    cat: Catalog, cat2: Catalog, plan: Plan, names: set<string>, a: nat, destination: Path, version: nat)
    requires Recorded(cat, cat2, a, destination, version) && cat.artifacts[a].updatedAt < version && First(cat, a)
    requires CurrentPlan(cat, plan, names)
    ensures exists k :: 0 <= k < |plan.candidates| && !Live(cat2, plan.candidates[k])
  {
    assert ListsLive(cat, plan, 0, a);
    var k :| 0 <= k < |plan.candidates| && plan.candidates[k].artifactId == a && Movable(cat, plan, plan.candidates[k]);
    assert !Live(cat2, plan.candidates[k]);
  }

  lemma CommitKeepsPlans(
    w: World, w2: World, own: seq<File>, names: set<string>, plans: set<Plan>, a: nat, destination: Path)
    requires Recorded(w.catalog, w2.catalog, a, destination, w2.clock) && w.catalog.artifacts[a].updatedAt < w2.clock
             && a < |own|
    requires !Affected(w2.catalog, a) && forall plan <- plans :: PlanKept(w.catalog, own, plan, names)
    ensures forall plan <- plans :: PlanKept(w2.catalog, own, plan, names)
  {
    forall p <- plans
      ensures PlanKept(w2.catalog, own, p, names)
    {
      RecordedPlan(w.catalog, w2.catalog, own, names, p, a, destination, w2.clock);
    }
  }

  // ---- finishing ----

  /** A finishing process has moved every affected artifact, and no file is away from its path. */
  lemma NothingLeft(w: World, own: seq<File>, plan: Plan, next: nat, a: nat)
    requires WorldKept(w, own) && a < |own|
    requires Underway(w.catalog, plan, next) && next == |plan.candidates|
    ensures !Affected(w.catalog, a) && InPlace(w.catalog, w.tree, own, a)
  {
    assert Affected(w.catalog, a) ==> ListsLive(w.catalog, plan, next, a);
  }

  /** Renaming the playlist outdates every plan. */
  lemma RenamedPlan(cat: Catalog, cat2: Catalog, own: seq<File>, names: set<string>, plan: Plan)
    requires PlanKept(cat, own, plan, names)
    requires cat2 == cat.(playlist := cat2.playlist) && cat.playlist.updatedAt < cat2.playlist.updatedAt
    ensures PlanKept(cat2, own, plan, names)
  {
    if plan.blocked == [] {
      forall k | 0 <= k < |plan.candidates|
        ensures Sound(cat2, own, plan.candidates[k])
      {
        assert Sound(cat, own, plan.candidates[k]);
      }
    }
  }

  lemma RenamedRecords(w: World, w2: World, own: seq<File>)
    requires WorldKept(w, own) && |w.runs| > 0
    requires w2.catalog == w.catalog.(playlist := w2.catalog.playlist) && w2.tree == w.tree
    requires w2.clock == w.clock + 1 == w2.catalog.playlist.updatedAt
    requires |w2.runs| == |w.runs| && w2.runs == w.runs[|w.runs| - 1 := w2.runs[|w.runs| - 1]]
             && w2.runs[|w.runs| - 1].Intent() == None
    requires forall a :: 0 <= a < |own| ==> InPlace(w.catalog, w.tree, own, a)
    ensures WorldKept(w2, own)
  {
    forall a | 0 <= a < |own|
      ensures InPlace(w2.catalog, w2.tree, own, a)
    {
      assert InPlace(w.catalog, w.tree, own, a);
    }
    AllInPlace(w2, own);
    forall i | 0 <= i < |w2.runs| && w2.runs[i].Intent().Some?
      ensures Sound(w2.catalog, own, w2.runs[i].Intent().value)
    {
      assert Sound(w.catalog, own, w.runs[i].Intent().value);
    }
    forall i, j | 0 <= i < j < |w2.runs|
      ensures NotNewer(w2.runs[i], w2.runs[j])
    {
      assert NotNewer(w.runs[i], w.runs[j]);
    }
  }

  /** What holds when a finish takes effect. */
  lemma FinishEffect(s: System, own: seq<File>, names: set<string>, acknowledged: bool)
    requires Kept(s, own, names) && Apply(s, Finish(acknowledged)).world != s.world
    ensures s.process.Active? && s.process.run == |s.world.runs| - 1 && s.process.plan.newName in names
    ensures s.process.next == |s.process.plan.candidates|
    ensures Apply(s, Finish(acknowledged)).world == FinishRun(s.world, s.process.run, s.process.plan, s.process.next)
    ensures forall a :: 0 <= a < |own| ==> InPlace(s.world.catalog, s.world.tree, own, a)
  {
    assert PlanKept(s.world.catalog, own, s.process.plan, names);
    forall a | 0 <= a < |own|
      ensures InPlace(s.world.catalog, s.world.tree, own, a)
    {
      NothingLeft(s.world, own, s.process.plan, s.process.next, a);
    }
  }

  lemma FinishWorldKept(s: System, own: seq<File>, names: set<string>, acknowledged: bool)
    requires Kept(s, own, names) && Apply(s, Finish(acknowledged)).world != s.world
    ensures var w2 := Apply(s, Finish(acknowledged)).world;
            WorldKept(w2, own) && Separated(w2.catalog, names) && w2.catalog.playlist.folderName in names
  {
    FinishEffect(s, own, names, acknowledged);
    RenamedRecords(s.world, Apply(s, Finish(acknowledged)).world, own);
    SeparatedStays(s.world.catalog, Apply(s, Finish(acknowledged)).world.catalog, names);
  }

  lemma FinishPlansKept(s: System, own: seq<File>, names: set<string>, acknowledged: bool)
    requires Kept(s, own, names) && Apply(s, Finish(acknowledged)).world != s.world
    ensures forall plan <- s.plans :: PlanKept(Apply(s, Finish(acknowledged)).world.catalog, own, plan, names)
  {
    FinishEffect(s, own, names, acknowledged);
    forall p <- s.plans
      ensures PlanKept(Apply(s, Finish(acknowledged)).world.catalog, own, p, names)
    {
      RenamedPlan(s.world.catalog, Apply(s, Finish(acknowledged)).world.catalog, own, names, p);
    }
  }

  lemma FinishProcessKept(s: System, own: seq<File>, names: set<string>, acknowledged: bool)
    requires Kept(s, own, names) && Apply(s, Finish(acknowledged)).world != s.world
    ensures |Apply(s, Finish(acknowledged)).world.catalog.artifacts| == |own|
    ensures ProcessKept(Apply(s, Finish(acknowledged)), own)
  {
    FinishEffect(s, own, names, acknowledged);
  }

  /** Nothing is left to be moved, so no intent stands, before and after. */
  lemma FinishNoneStands(s: System, own: seq<File>, names: set<string>, acknowledged: bool)
    requires Kept(s, own, names) && Apply(s, Finish(acknowledged)).world != s.world
    ensures var (w, w2) := (s.world, Apply(s, Finish(acknowledged)).world);
            && |w2.runs| == |w.runs|
            && forall r :: 0 <= r < |w.runs| ==> !Standing(w.catalog, w.runs[r]) && !Standing(w2.catalog, w2.runs[r])
  {
    FinishEffect(s, own, names, acknowledged);
    var w := s.world;
    forall r | 0 <= r < |w.runs|
      ensures !Standing(w.catalog, w.runs[r])
    {
      if w.runs[r].Intent().Some? && w.runs[r].Intent().value.artifactId < |own| {
        NothingLeft(w, own, s.process.plan, s.process.next, w.runs[r].Intent().value.artifactId);
        assert Standing(w.catalog, w.runs[r]) ==> Guards(w.catalog, w.tree, w.runs[r]);
      }
    }
  }

  lemma FinishGuarded(s: System, own: seq<File>, names: set<string>, acknowledged: bool)
    requires Kept(s, own, names) && Apply(s, Finish(acknowledged)).world != s.world
    ensures var w2 := Apply(s, Finish(acknowledged)).world; Guarded(w2) && PlansFree(w2, s.plans)
  {
    var w2 := Apply(s, Finish(acknowledged)).world;
    FinishNoneStands(s, own, names, acknowledged);
    NoneStandingGuarded(w2);
    forall plan <- s.plans
      ensures PlanFree(w2, plan)
    {
      assert PlanKept(s.world.catalog, own, plan, names);
    }
  }

  lemma FinishKeeps(s: System, own: seq<File>, names: set<string>, acknowledged: bool)
    requires Kept(s, own, names)
    ensures Kept(Apply(s, Finish(acknowledged)), own, names)
  {
    if Apply(s, Finish(acknowledged)).world != s.world {
      FinishWorldKept(s, own, names, acknowledged);
      FinishPlansKept(s, own, names, acknowledged);
      FinishProcessKept(s, own, names, acknowledged);
      FinishGuarded(s, own, names, acknowledged);
    }
  }

  // ---- the main results ----

  /** Every step keeps the invariant. */
  lemma StepKeeps(s: System, own: seq<File>, names: set<string>, step: Step)
    requires Kept(s, own, names) && (step.Preview? ==> step.newName in names)
    ensures Kept(Apply(s, step), own, names)
  {
    match step {
      case Preview(newName, order, down) => PreviewKeeps(s, own, names, newName, order, down);
      case Start(plan, othersActive) => StartKeeps(s, own, names, plan, othersActive);
      case PersistIntent(acknowledged) => PersistIntentKeeps(s, own, names, acknowledged);
      case Relocate(outcome) => RelocateKeeps(s, own, names, outcome);
      case Commit(acknowledged) => CommitKeeps(s, own, names, acknowledged);
      case Finish(acknowledged) => FinishKeeps(s, own, names, acknowledged);
      case Raise(commitAttempted) => RaiseKeeps(s, own, names, commitAttempted);
      case RecordFailure => RecordFailureKeeps(s, own, names);
      case RecoverOrphan(id) => RecoverOrphanKeeps(s, own, names, id);
      case Crash =>
    }
  }

  // ---- conservation over runs ----

  /** An artifact lies where its file is, and nowhere else; different artifacts lie apart. */
  lemma LiesThere(w: World, own: seq<File>, a: nat, l: Location)
    requires WorldKept(w, own) && a < |own| && LiesAt(w, own, a, l)
    ensures l in w.tree && w.tree[l] == own[a] && l.0 == w.catalog.artifacts[a].storageId
  {
    if w.catalog.artifacts[a].Location() in w.tree {
      assert !Displaced(w, own, a);
    } else {
      var r :| 0 <= r < |w.runs| && ExplainsAt(w, own, a, w.runs[r], l);
      assert Sound(w.catalog, own, w.runs[r].Intent().value);
    }
  }

  /** What explains where a file is stands. */
  lemma ExplainedStands(w: World, own: seq<File>, a: nat, r: nat, l: Location)
    requires FilesAccounted(w, own) && a < |own| && r < |w.runs| && ExplainsAt(w, own, a, w.runs[r], l)
    ensures AtPlace(w, w.runs[r]) && w.runs[r].Intent().value.artifactId == a
  {
  }

  lemma LiesOnce(w: World, own: seq<File>, a: nat, b: nat, l: Location, m: Location)
    requires WorldKept(w, own) && Guarded(w) && a < |own| && b < |own| && LiesAt(w, own, a, l) && LiesAt(w, own, b, m)
    ensures a == b <==> l == m
  {
    if w.catalog.artifacts[a].Location() !in w.tree {
      var q :| 0 <= q < |w.runs| && ExplainsAt(w, own, a, w.runs[q], l);
      ExplainedStands(w, own, a, q, l);
      GuardedAt(w, q);
      if w.catalog.artifacts[b].Location() !in w.tree {
        var r :| 0 <= r < |w.runs| && ExplainsAt(w, own, b, w.runs[r], m);
        ExplainedStands(w, own, b, r, m);
        GuardedAt(w, r);
      }
    } else if w.catalog.artifacts[b].Location() !in w.tree {
      var r :| 0 <= r < |w.runs| && ExplainsAt(w, own, b, w.runs[r], m);
      ExplainedStands(w, own, b, r, m);
      GuardedAt(w, r);
    }
  }

  /** A place that is taken and that a standing intent names is where the first artifact lies. */
  lemma SpotIsOwned(w: World, own: seq<File>, l: Location)
    requires WorldKept(w, own) && Guarded(w) && Spot(w, l)
    ensures Owned(w, own, l)
  {
    var r :| 0 <= r < |w.runs| && AtPlace(w, w.runs[r]) && Place(w.runs[r].Intent().value) == l;
    GuardedAt(w, r);
    var a := w.runs[r].Intent().value.artifactId;
    assert InPlace(w.catalog, w.tree, own, a) || Displaced(w, own, a);
    var q :| 0 <= q < |w.runs| && Explains(w.catalog, w.tree, own, a, w.runs[q]);
    assert AtPlace(w, w.runs[q]);
    assert ExplainsAt(w, own, a, w.runs[q], l);
    assert LiesAt(w, own, a, l);
  }

  /** A place an artifact's row names, with a file there. */
  ghost predicate Homely(w: World, l: Location) {
    l in w.tree && exists a :: 0 <= a < |w.catalog.artifacts| && w.catalog.artifacts[a].Location() == l
  }

  /** The places of the playlist's files are those of its rows and of its standing intents. */
  lemma OwnedIs(w: World, own: seq<File>, l: Location)
    requires WorldKept(w, own) && Guarded(w)
    ensures Owned(w, own, l) <==> Homely(w, l) || Spot(w, l)
  {
    if Homely(w, l) {
      var a :| 0 <= a < |own| && w.catalog.artifacts[a].Location() == l;
      assert LiesAt(w, own, a, l);
    }
    if Spot(w, l) {
      SpotIsOwned(w, own, l);
    }
    if Owned(w, own, l) {
      var a :| 0 <= a < |own| && LiesAt(w, own, a, l);
      if w.catalog.artifacts[a].Location() !in w.tree {
        var r :| 0 <= r < |w.runs| && ExplainsAt(w, own, a, w.runs[r], l);
        ExplainedStands(w, own, a, r, l);
      }
    }
  }

  /** Where nothing moves and the places of rows and intents together stay, the strangers do. */
  lemma SameStrangers(w: World, w2: World, own: seq<File>)
    requires WorldKept(w, own) && Guarded(w) && WorldKept(w2, own) && Guarded(w2) && w2.tree == w.tree
    requires forall l :: Homely(w2, l) || Spot(w2, l) <==> Homely(w, l) || Spot(w, l)
    ensures Strangers(w2, own) == Strangers(w, own)
  {
    forall l
      ensures Owned(w2, own, l) <==> Owned(w, own, l)
    {
      OwnedIs(w, own, l);
      OwnedIs(w2, own, l);
    }
  }

  /** When the first artifact's file moves from its place to a free one, only it changes place. */
  lemma MovedStrangers(w: World, w2: World, own: seq<File>, a: nat, target: Location)
    requires WorldKept(w, own) && Guarded(w) && WorldKept(w2, own) && Guarded(w2) && First(w.catalog, a) && a < |own|
    requires w.catalog.artifacts[a].Location() in w.tree && target !in w.tree && Spot(w2, target)
    requires w2 == w.(tree := Rename(w.tree, w.catalog.artifacts[a].Location(), target))
    ensures Strangers(w2, own) == Strangers(w, own)
  {
    forall l
      ensures MovedOwner(w, w2, own, w.catalog.artifacts[a].Location(), target, l)
    {
      MovedOwned(w, w2, own, a, target, l);
    }
    RenamedStrangers(w, w2, own, w.catalog.artifacts[a].Location(), target);
  }

  ghost predicate MovedOwner(w: World, w2: World, own: seq<File>, source: Location, target: Location, l: Location)
    requires |w.catalog.artifacts| == |w2.catalog.artifacts| == |own|
  {
    && (l in w.tree && l != source ==> (Owned(w2, own, l) <==> Owned(w, own, l)))
    && (l == target ==> Owned(w2, own, l)) && (l == source ==> Owned(w, own, l))
  }

  lemma MovedOwned(w: World, w2: World, own: seq<File>, a: nat, target: Location, l: Location)
    requires WorldKept(w, own) && Guarded(w) && WorldKept(w2, own) && Guarded(w2) && First(w.catalog, a) && a < |own|
    requires w.catalog.artifacts[a].Location() in w.tree && target !in w.tree && Spot(w2, target)
    requires w2 == w.(tree := Rename(w.tree, w.catalog.artifacts[a].Location(), target))
    ensures MovedOwner(w, w2, own, w.catalog.artifacts[a].Location(), target, l)
  {
    OwnedIs(w, own, l);
    OwnedIs(w2, own, l);
    OnlySpot(w, w2, a, target, l);
  }

  lemma RenamedStrangers(w: World, w2: World, own: seq<File>, source: Location, target: Location)
    requires |w.catalog.artifacts| == |w2.catalog.artifacts| == |own| && source in w.tree
    requires w2.tree == Rename(w.tree, source, target)
    requires forall l :: MovedOwner(w, w2, own, source, target, l)
    ensures Strangers(w2, own) == Strangers(w, own)
  {
    assert MovedOwner(w, w2, own, source, target, target);
    forall l
      ensures l in Strangers(w2, own) <==> l in Strangers(w, own)
      ensures l in Strangers(w2, own) ==> Strangers(w2, own)[l] == w.tree[l]
    {
      assert MovedOwner(w, w2, own, source, target, l);
    }
  }

  lemma OnlySpot(w: World, w2: World, a: nat, target: Location, l: Location)
    requires Guarded(w) && Guarded(w2) && First(w.catalog, a) && w.catalog.artifacts[a].Location() in w.tree
    requires Spot(w2, target)
    ensures !Spot(w, l) && (Spot(w2, l) ==> l == target)
  {
    if Spot(w, l) {
      var r :| 0 <= r < |w.runs| && AtPlace(w, w.runs[r]) && Place(w.runs[r].Intent().value) == l;
      NoSpot(w, a, r);
    }
  }

  lemma OnlyRelocateMovesFiles(s: System, step: Step)
    requires !step.Relocate?
    ensures Apply(s, step).world.tree == s.world.tree
  {
  }

  lemma RunsConserve(w: World, w2: World, own: seq<File>)
    requires WorldKept(w, own) && Guarded(w) && WorldKept(w2, own) && Guarded(w2) && SameSpots(w, w2)
    ensures Strangers(w2, own) == Strangers(w, own)
  {
    SameStrangers(w, w2, own);
  }

  lemma PersistConserves(s: System, own: seq<File>, names: set<string>, acknowledged: bool)
    requires Kept(s, own, names)
    ensures var w2 := Apply(s, PersistIntent(acknowledged)).world;
            |w2.catalog.artifacts| == |own| && Strangers(w2, own) == Strangers(s.world, own)
  {
    if Apply(s, PersistIntent(acknowledged)).world != s.world {
      PersistRowsStay(s, acknowledged);
      PersistWorldKept(s, own, names, acknowledged);
      PersistGuarded(s, own, names, acknowledged);
      OnlyRelocateMovesFiles(s, PersistIntent(acknowledged));
      RunsConserve(s.world, Apply(s, PersistIntent(acknowledged)).world, own);
    }
  }

  lemma RecordFailureConserves(s: System, own: seq<File>, names: set<string>)
    requires Kept(s, own, names)
    ensures var w2 := Apply(s, RecordFailure).world;
            |w2.catalog.artifacts| == |own| && Strangers(w2, own) == Strangers(s.world, own)
  {
    if Apply(s, RecordFailure) != s {
      FailureEffect(s, own, names);
      FailureWorldKept(s, own, names);
      FailureGuarded(s, own, names);
      RunsConserve(s.world, Apply(s, RecordFailure).world, own);
    }
  }

  lemma StartConserves(s: System, own: seq<File>, names: set<string>, plan: Plan, othersActive: bool)
    requires Kept(s, own, names)
    ensures var w2 := Apply(s, Start(plan, othersActive)).world;
            |w2.catalog.artifacts| == |own| && Strangers(w2, own) == Strangers(s.world, own)
  {
    var s2 := Apply(s, Start(plan, othersActive));
    if s2 != s {
      StartKeeps(s, own, names, plan, othersActive);
      RecoverKeepsRecords(s.world.runs, plan.recoveryRuns, plan);
      assert SameRuns(s.world.runs, s2.world.runs);
      RunsKeepGuard(s.world, s.plans, s2.world.runs);
      RunsConserve(s.world, s2.world, own);
    }
  }

  lemma RecoverOrphanConserves(s: System, own: seq<File>, names: set<string>, id: nat)
    requires Kept(s, own, names)
    ensures var w2 := Apply(s, RecoverOrphan(id)).world;
            |w2.catalog.artifacts| == |own| && Strangers(w2, own) == Strangers(s.world, own)
  {
    var s2 := Apply(s, RecoverOrphan(id));
    if s2 != s {
      RecoverOrphanKeeps(s, own, names, id);
      RunsKeepGuard(s.world, s.plans, s2.world.runs);
      RunsConserve(s.world, s2.world, own);
    }
  }

  lemma CommitPlaces(s: System, own: seq<File>, names: set<string>, acknowledged: bool)
    requires Kept(s, own, names) && Apply(s, Commit(acknowledged)).world != s.world
    ensures var (w, w2) := (s.world, Apply(s, Commit(acknowledged)).world);
            && w2.tree == w.tree
            && forall l :: Homely(w2, l) || Spot(w2, l) <==> Homely(w, l) || Spot(w, l)
  {
    CommitEffect(s, own, names, acknowledged);
    CommitLeaves(s, own, names, acknowledged);
    KeptWorld(s, own, names);
    var w, w2 := s.world, Apply(s, Commit(acknowledged)).world;
    var c := s.process.plan.candidates[s.process.next];
    CommitNoneStands(w, w2, own, c.artifactId, c.destination);
    RecordedPlaces(w, w2, own, c, s.process.run);
  }

  lemma CommitConserves(s: System, own: seq<File>, names: set<string>, acknowledged: bool)
    requires Kept(s, own, names)
    ensures var w2 := Apply(s, Commit(acknowledged)).world;
            |w2.catalog.artifacts| == |own| && Strangers(w2, own) == Strangers(s.world, own)
  {
    KeptWorld(s, own, names);
    if Apply(s, Commit(acknowledged)).world != s.world {
      CommitWorldKept(s, own, names, acknowledged);
      CommitKeepsGuard(s, own, names, acknowledged);
      CommitPlaces(s, own, names, acknowledged);
      SameStrangers(s.world, Apply(s, Commit(acknowledged)).world, own);
    }
  }

  /** The place the intent named becomes the row's. */
  lemma RecordedPlaces(w: World, w2: World, own: seq<File>, c: Candidate, r: nat)
    requires WorldKept(w, own) && Guarded(w) && r < |w.runs| && w.runs[r].Intent() == Some(c) && AtPlace(w, w.runs[r])
    requires Recorded(w.catalog, w2.catalog, c.artifactId, c.destination, w2.clock) && w2.tree == w.tree
    requires Place(c) == (w.catalog.artifacts[c.artifactId].storageId, c.destination)
    requires forall q :: 0 <= q < |w2.runs| ==> !Standing(w2.catalog, w2.runs[q])
    ensures forall l :: Homely(w2, l) || Spot(w2, l) <==> Homely(w, l) || Spot(w, l)
  {
    GuardedAt(w, r);
    var a := c.artifactId;
    assert Spot(w, Place(c));
    assert forall b :: 0 <= b < |own| && b != a ==> w2.catalog.artifacts[b] == w.catalog.artifacts[b];
    assert w2.catalog.artifacts[a].Location() == Place(c);
  }

  lemma FinishConserves(s: System, own: seq<File>, names: set<string>, acknowledged: bool)
    requires Kept(s, own, names)
    ensures var w2 := Apply(s, Finish(acknowledged)).world;
            |w2.catalog.artifacts| == |own| && Strangers(w2, own) == Strangers(s.world, own)
  {
    var w, w2 := s.world, Apply(s, Finish(acknowledged)).world;
    if w2 != w {
      FinishKeeps(s, own, names, acknowledged);
      FinishEffect(s, own, names, acknowledged);
      FinishNoneStands(s, own, names, acknowledged);
      SameStrangers(w, w2, own);
    }
  }

  /** Moving the file touches no other place of the storage, and every storage keeps its number of files. */
  lemma RelocateConserves(s: System, own: seq<File>, names: set<string>, outcome: MoveOutcome, storageId: nat)
    requires Kept(s, own, names)
    ensures var w2 := Apply(s, Relocate(outcome)).world;
            && |w2.catalog.artifacts| == |own| && Strangers(w2, own) == Strangers(s.world, own)
            && |Held(w2.tree, storageId)| == |Held(s.world.tree, storageId)|
  {
    RelocateKeepsRows(s, outcome);
    var w, w2 := s.world, Apply(s, Relocate(outcome)).world;
    if w2.tree != w.tree {
      RelocateKeeps(s, own, names, outcome);
      RelocateMoves(s, own, names, outcome);
      IntendedFacts(s, own, names);
      var c := s.process.plan.candidates[s.process.next];
      MovedGuarded(w, own, c.artifactId, s.process.run, Place(c));
      MovedStrangers(w, w2, own, c.artifactId, Place(c));
      RenameKeepsCount(w.tree, w.catalog.artifacts[c.artifactId].Location(), Place(c), storageId);
    }
  }

  /** No step touches a file that belongs to no artifact of the playlist, or changes how many files a storage has. */
  lemma StepConserves(s: System, own: seq<File>, names: set<string>, step: Step, storageId: nat)
    requires Kept(s, own, names)
    ensures var w2 := Apply(s, step).world;
            && |w2.catalog.artifacts| == |own| && Strangers(w2, own) == Strangers(s.world, own)
            && |Held(w2.tree, storageId)| == |Held(s.world.tree, storageId)|
  {
    match step {
      case Start(plan, othersActive) => StartConserves(s, own, names, plan, othersActive);
      case PersistIntent(acknowledged) => PersistConserves(s, own, names, acknowledged);
      case Relocate(outcome) => RelocateConserves(s, own, names, outcome, storageId);
      case Commit(acknowledged) => CommitConserves(s, own, names, acknowledged);
      case Finish(acknowledged) => FinishConserves(s, own, names, acknowledged);
      case RecordFailure => RecordFailureConserves(s, own, names);
      case RecoverOrphan(id) => RecoverOrphanConserves(s, own, names, id);
      case Preview(_, _, _) =>
      case Raise(_) =>
      case Crash =>
    }
    if !step.Relocate? {
      OnlyRelocateMovesFiles(s, step);
    }
  }

  /** Rows keep their storage, and there are never more or fewer of them. */
  lemma RowsStay(s: System, step: Step)
    ensures var (cat, cat2) := (s.world.catalog, Apply(s, step).world.catalog);
            |cat2.artifacts| == |cat.artifacts|
            && forall a :: 0 <= a < |cat.artifacts| ==> cat2.artifacts[a].storageId == cat.artifacts[a].storageId
  {
  }

  /** Where everything starts: each file at its database path, no move recorded or running. */
  ghost predicate Initial(s: System, own: seq<File>, names: set<string>) {
    && Separated(s.world.catalog, names) && s.world.catalog.playlist.folderName in names
    && s.plans == {} && s.process == Idle && Clocked(s.world)
    && (forall run <- s.world.runs :: run.Intent() == None)
    && |own| == |s.world.catalog.artifacts| && DistinctRows(s.world.catalog)
    && (forall a :: 0 <= a < |own| ==> InPlace(s.world.catalog, s.world.tree, own, a))
  }

  lemma InitialKept(s: System, own: seq<File>, names: set<string>)
    requires Initial(s, own, names)
    ensures Kept(s, own, names)
  {
    forall r | 0 <= r < |s.world.runs|
      ensures !Standing(s.world.catalog, s.world.runs[r])
    {
      assert s.world.runs[r] in s.world.runs;
    }
    AllInPlace(s.world, own);
  }

  /**
   Over every run, whatever is previewed, confirmed, refused, lost or crashed: the invariant
   holds; every file of the storages that is no artifact's stays, location by location; and no storage gains
   or loses a file. Files may look alike, as hard links do.
   */
  lemma {:induction false} RunKeeps(s: System, own: seq<File>, names: set<string>, steps: seq<Step>, storageId: nat)
    requires Initial(s, own, names) && Uses(steps, names)
    ensures Kept(Execute(s, steps), own, names)
    ensures Strangers(Execute(s, steps).world, own) == Strangers(s.world, own)
    ensures |Held(Execute(s, steps).world.tree, storageId)| == |Held(s.world.tree, storageId)|
    ensures SameStorages(s.world.catalog, Execute(s, steps).world.catalog)
  {
    if steps == [] {
      InitialKept(s, own, names);
    } else {
      var init, last := steps[..|steps| - 1], steps[|steps| - 1];
      RunKeeps(s, own, names, init, storageId);
      var mid := Execute(s, init);
      StepKeeps(mid, own, names, last);
      RowsStay(mid, last);
      StepConserves(mid, own, names, last, storageId);
    }
  }

  ghost predicate SameStorages(cat: Catalog, cat2: Catalog) {
    |cat2.artifacts| == |cat.artifacts|
    && forall a :: 0 <= a < |cat.artifacts| ==> cat2.artifacts[a].storageId == cat.artifacts[a].storageId
  }

  /**
   In every reachable state at most one artifact's file is away from its database path, and that
   one sits, with its planned identity, at the destination named by a persisted intent.
   */
  lemma AtMostOneAway(s: System, own: seq<File>, names: set<string>, steps: seq<Step>, a: nat, b: nat)
    requires Initial(s, own, names) && Uses(steps, names) && a < |own| && b < |own|
    ensures var w := Execute(s, steps).world;
            && |w.catalog.artifacts| == |own|
            && (InPlace(w.catalog, w.tree, own, a) || Explained(w.catalog, w.tree, own, a, w.runs))
            && (!InPlace(w.catalog, w.tree, own, a) && !InPlace(w.catalog, w.tree, own, b) ==> a == b)
  {
    RunKeeps(s, own, names, steps, 0);
    var w := Execute(s, steps).world;
    assert InPlace(w.catalog, w.tree, own, a) || Displaced(w, own, a);
    assert InPlace(w.catalog, w.tree, own, b) || Displaced(w, own, b);
  }

  /** In every reachable state each artifact's own file is at exactly one place, and no two are at the same. */
  lemma EachInOnePlace(s: System, own: seq<File>, names: set<string>, steps: seq<Step>, a: nat) returns (l: Location)
    requires Initial(s, own, names) && Uses(steps, names) && a < |own|
    ensures var w := Execute(s, steps).world;
            && |w.catalog.artifacts| == |own| && LiesAt(w, own, a, l) && l in w.tree && w.tree[l] == own[a]
            && forall b: nat, m :: b < |own| && LiesAt(w, own, b, m) ==> (b == a <==> m == l)
  {
    RunKeeps(s, own, names, steps, 0);
    var w := Execute(s, steps).world;
    assert InPlace(w.catalog, w.tree, own, a) || Displaced(w, own, a);
    l := w.catalog.artifacts[a].Location();
    if l !in w.tree {
      var r :| 0 <= r < |w.runs| && Explains(w.catalog, w.tree, own, a, w.runs[r]);
      l := Place(w.runs[r].Intent().value);
      assert ExplainsAt(w, own, a, w.runs[r], l);
    }
    LiesThere(w, own, a, l);
    forall b: nat, m | b < |own| && LiesAt(w, own, b, m)
      ensures b == a <==> m == l
    {
      LiesOnce(w, own, b, a, m, l);
    }
  }
}
