/**
 Moving on to any clean name, one that a template cannot tell from the current one included: what an
 uninterrupted execution of an unblocked plan leaves, and exactly when it leaves a file behind.
 */
module FolderMoveStrand {
  import opened Common
  import opened Naming
  import opened Layout
  import opened FolderPlan
  import opened FolderMove
  import opened FolderMoveSafety
  import opened FolderMoveComplete

  // ---- a plan that fits the world ----

  function Source(c: Candidate): Location { (c.storageId, c.source) }

  /**
   The file of a candidate is where the plan says: at its destination already, or at its source with the way
   clear.
   */
  ghost predicate Fits(tree: Tree, own: seq<File>, c: Candidate) {
    && c.artifactId < |own| && c.identity.Some? && c.identity.value.file == own[c.artifactId]
    && if c.alreadyMoved then Source(c) !in tree && Place(c) in tree && tree[Place(c)] == own[c.artifactId]
       else Place(c) !in tree && Source(c) in tree && tree[Source(c)] == own[c.artifactId]
  }

  /** No file that is still to be moved is where another candidate's is or goes. */
  ghost predicate SourcesApart(cs: seq<Candidate>) {
    forall i, j :: 0 <= i < |cs| && 0 <= j < |cs| && i != j && !cs[i].alreadyMoved ==>
      Source(cs[i]) != Source(cs[j]) && Source(cs[i]) != Place(cs[j])
  }

  ghost predicate FitPlan(tree: Tree, own: seq<File>, cs: seq<Candidate>) {
    && (forall k :: 0 <= k < |cs| ==> Fits(tree, own, cs[k]) && (cs[k].alreadyMoved ==> k == 0))
    && InIdOrder(cs) && DistinctPlaces(cs) && SourcesApart(cs)
  }

  ghost predicate RowsFit(cat: Catalog, cs: seq<Candidate>) {
    forall k :: 0 <= k < |cs| ==> RowFits(cat, cs[k])
  }

  ghost predicate RowFits(cat: Catalog, c: Candidate) {
    && c.artifactId < |cat.artifacts|
    && var row := cat.artifacts[c.artifactId];
       && row.storageId == c.storageId && row.path == c.source && row.updatedAt == c.updatedAt
       && row.links == c.links && row.assignmentStorageId == c.storageId
  }

  // ---- rows and tree after some candidates ----

  function RecordAll(cat: Catalog, cs: seq<Candidate>, k: nat, clock: nat): (r: Catalog)
    requires k <= |cs|
    ensures |r.artifacts| == |cat.artifacts| && r.playlist == cat.playlist
  {
    if k == 0 then cat
    else
      var before := RecordAll(cat, cs, k - 1, clock);
      var a := cs[k - 1].artifactId;
      if a >= |before.artifacts| then before
      else before.(artifacts := before.artifacts[a := before.artifacts[a].(path := cs[k - 1].destination,
        updatedAt := clock + k)])
  }

  function MoveAll(tree: Tree, cs: seq<Candidate>, k: nat): Tree
    requires k <= |cs|
  {
    if k == 0 then tree
    else
      var t := MoveAll(tree, cs, k - 1);
      var c := cs[k - 1];
      if !c.alreadyMoved && Source(c) in t then Rename(t, Source(c), Place(c)) else t
  }

  /** Treated rows are at their destinations; every other row is as it was. */
  lemma {:induction false} RecordAllRows(cat: Catalog, cs: seq<Candidate>, k: nat, clock: nat, a: nat)
    requires k <= |cs| && InIdOrder(cs) && RowsFit(cat, cs) && a < |cat.artifacts|
    ensures var row := RecordAll(cat, cs, k, clock).artifacts[a];
            && (forall i :: 0 <= i < k && cs[i].artifactId == a ==>
                  row == cat.artifacts[a].(path := cs[i].destination, updatedAt := row.updatedAt))
            && ((forall i :: 0 <= i < k ==> cs[i].artifactId != a) ==> row == cat.artifacts[a])
  {
    if k > 0 {
      RecordAllRows(cat, cs, k - 1, clock, a);
    }
  }

  /** The tree after k candidates: theirs at their destinations, the others' where they were. */
  ghost predicate MovedShape(tree: Tree, own: seq<File>, cs: seq<Candidate>, k: nat, t: Tree)
    requires k <= |cs|
  {
    && (forall i :: 0 <= i < k ==>
          cs[i].artifactId < |own| && Place(cs[i]) in t && t[Place(cs[i])] == own[cs[i].artifactId])
    && (forall j :: k <= j < |cs| ==> Fits(t, own, cs[j]))
  }

  /** No candidate's file leaves this location, and none arrives there. */
  ghost predicate Aside(cs: seq<Candidate>, l: Location) {
    forall i :: 0 <= i < |cs| && !cs[i].alreadyMoved ==> Source(cs[i]) != l && Place(cs[i]) != l
  }

  lemma {:induction false} MoveAllShape(tree: Tree, own: seq<File>, cs: seq<Candidate>, k: nat)
    requires k <= |cs| && FitPlan(tree, own, cs)
    ensures MovedShape(tree, own, cs, k, MoveAll(tree, cs, k))
  {
    if k > 0 {
      MoveAllShape(tree, own, cs, k - 1);
      MoveOneShape(tree, own, cs, k - 1, MoveAll(tree, cs, k - 1));
    }
  }

  /** One more candidate moved. */
  lemma MoveOneShape(tree: Tree, own: seq<File>, cs: seq<Candidate>, k: nat, t: Tree)
    requires k < |cs| && FitPlan(tree, own, cs) && MovedShape(tree, own, cs, k, t)
    ensures var c := cs[k];
            MovedShape(tree, own, cs, k + 1, if !c.alreadyMoved && Source(c) in t then Rename(t, Source(c), Place(c))
              else t)
  {
    var c := cs[k];
    assert Fits(t, own, c);
    if !c.alreadyMoved {
      var after := Rename(t, Source(c), Place(c));
      forall i | 0 <= i < k + 1
        ensures Place(cs[i]) in after && after[Place(cs[i])] == own[cs[i].artifactId]
      {
        if i < k {
          assert Place(cs[i]) != Source(c);
        }
      }
      forall j | k + 1 <= j < |cs|
        ensures Fits(after, own, cs[j])
      {
        assert Fits(t, own, cs[j]) && !cs[j].alreadyMoved;
      }
    }
  }

  /** Such a location is as it was. */
  lemma {:induction false} MoveAllAside(tree: Tree, cs: seq<Candidate>, k: nat, l: Location)
    requires k <= |cs| && Aside(cs, l)
    ensures l in MoveAll(tree, cs, k) <==> l in tree
    ensures l in tree ==> MoveAll(tree, cs, k)[l] == tree[l]
  {
    if k > 0 {
      MoveAllAside(tree, cs, k - 1, l);
    }
  }

  // ---- the executor on such a plan ----

  /** k candidates are through; the run of the plan is the last one, and the earlier runs are as they were. */
  ghost predicate Onward(s: System, w0: World, plan: Plan, k: nat) {
    && k <= |plan.candidates| && |s.world.runs| == |w0.runs| > 0
    && s.process == Active(|w0.runs| - 1, plan, k, Ready)
    && s.world.catalog == RecordAll(w0.catalog, plan.candidates, k, w0.clock) && s.world.clock == w0.clock + k
    && s.world.tree == MoveAll(w0.tree, plan.candidates, k)
    && s.world.runs[..|w0.runs| - 1] == w0.runs[..|w0.runs| - 1] && s.world.runs[|w0.runs| - 1].Intent() == None
  }

  lemma NextRowFits(s: System, w0: World, plan: Plan, k: nat)
    requires Onward(s, w0, plan, k) && k < |plan.candidates| && InIdOrder(plan.candidates)
             && RowsFit(w0.catalog, plan.candidates)
    ensures CandidateRowsMatch(s.world, plan.candidates[k])
  {
    assert RowFits(w0.catalog, plan.candidates[k]);
    RecordAllRows(w0.catalog, plan.candidates, k, w0.clock, plan.candidates[k].artifactId);
  }

  /** What the three steps of a candidate leave, when nothing fails. */
  lemma TreatedState(s: System, plan: Plan, k: nat, r: nat)
    requires s.process == Active(r, plan, k, Ready) && r < |s.world.runs| && k < |plan.candidates|
    requires PlaylistMatches(s.world, plan) && CandidateRowsMatch(s.world, plan.candidates[k])
    requires plan.candidates[k].identity.Some?
    requires MoveFile(s.world.tree, plan.candidates[k], Done).1
    ensures var s3 := TreatOne(s);
            && s3.process == Active(r, plan, k + 1, Ready) && s3.plans == s.plans
            && s3.world.tree == MoveFile(s.world.tree, plan.candidates[k], Done).0
            && s3.world.clock == s.world.clock + 1
            && |s3.world.runs| == |s.world.runs| && s3.world.runs == s.world.runs[r := s3.world.runs[r]]
            && s3.world.runs[r].Intent() == None
            && s3.world.catalog.playlist == s.world.catalog.playlist
            && var a := plan.candidates[k].artifactId;
               s3.world.catalog.artifacts == s.world.catalog.artifacts[a :=
                 s.world.catalog.artifacts[a].(path := plan.candidates[k].destination, updatedAt := s.world.clock + 1)]
  {
    var s1 := Apply(s, PersistIntent(true));
    assert s1.process == Active(r, plan, k, Intended) && s1.world.catalog == s.world.catalog
           && s1.world.tree == s.world.tree;
    var s2 := Apply(s1, Relocate(Done));
    assert s2.process == Active(r, plan, k, Phase.Relocated) && s2.world == s1.world.(tree := s2.world.tree);
  }

  lemma OnwardStep(s: System, w0: World, own: seq<File>, plan: Plan, k: nat)
    requires Onward(s, w0, plan, k) && k < |plan.candidates| && PlaylistMatches(w0, plan)
    requires FitPlan(w0.tree, own, plan.candidates) && RowsFit(w0.catalog, plan.candidates)
    ensures Onward(TreatOne(s), w0, plan, k + 1)
  {
    var c, r := plan.candidates[k], |w0.runs| - 1;
    NextRowFits(s, w0, plan, k);
    MoveAllShape(w0.tree, own, plan.candidates, k);
    assert Fits(s.world.tree, own, c);
    MoveDone(s.world.tree, c);
    TreatedState(s, plan, k, r);
    var s3 := TreatOne(s);
    assert s3.world.runs[..r] == s.world.runs[..r];
  }

  /** Treating every candidate, then finishing. */
  lemma OnwardToEnd(s: System, w0: World, own: seq<File>, plan: Plan)
    requires Onward(s, w0, plan, 0) && PlaylistMatches(w0, plan)
    requires FitPlan(w0.tree, own, plan.candidates) && RowsFit(w0.catalog, plan.candidates)
    ensures var w := Execute(s, Moves(|plan.candidates|)).world; Ended(w, w0, plan)
  {
    MovesRepeat(s, |plan.candidates|);
    AllTreated(s, w0, own, plan);
    FinishEnds(Repeated(s, |plan.candidates|, TreatOne), w0, plan);
  }

  lemma AllTreated(s: System, w0: World, own: seq<File>, plan: Plan)
    requires Onward(s, w0, plan, 0) && PlaylistMatches(w0, plan)
    requires FitPlan(w0.tree, own, plan.candidates) && RowsFit(w0.catalog, plan.candidates)
    ensures Onward(Repeated(s, |plan.candidates|, TreatOne), w0, plan, |plan.candidates|)
  {
    assert 0 + |plan.candidates| == |plan.candidates|;
    var holds: (System, nat) -> bool := (t: System, j: nat) => OnwardLeft(t, w0, plan, j);
    forall t: System, j: nat | j > 0 && holds(t, j)
      ensures holds(TreatOne(t), j - 1)
    {
      OneOn(t, w0, own, plan, j);
    }
    RepeatedKeeps(s, |plan.candidates|, TreatOne, holds);
  }

  ghost predicate OnwardLeft(s: System, w0: World, plan: Plan, j: nat) {
    exists k: nat :: Onward(s, w0, plan, k) && k + j == |plan.candidates|
  }

  lemma OneOn(s: System, w0: World, own: seq<File>, plan: Plan, j: nat)
    requires j > 0 && OnwardLeft(s, w0, plan, j) && PlaylistMatches(w0, plan)
    requires FitPlan(w0.tree, own, plan.candidates) && RowsFit(w0.catalog, plan.candidates)
    ensures OnwardLeft(TreatOne(s), w0, plan, j - 1)
  {
    var k: nat :| Onward(s, w0, plan, k) && k + j == |plan.candidates|;
    OnwardStep(s, w0, own, plan, k);
  }

  /** The world after the finish. */
  ghost predicate Ended(w: World, w0: World, plan: Plan) {
    var n := |plan.candidates|;
    && |w.runs| == |w0.runs| > 0 && w.runs[..|w0.runs| - 1] == w0.runs[..|w0.runs| - 1]
    && w.runs[|w0.runs| - 1].Intent() == None
    && w.tree == MoveAll(w0.tree, plan.candidates, n)
    && w.catalog.artifacts == RecordAll(w0.catalog, plan.candidates, n, w0.clock).artifacts
    && w.catalog.playlist.name == w0.catalog.playlist.name && w.catalog.playlist.folderName == plan.newName
  }

  lemma FinishEnds(s: System, w0: World, plan: Plan)
    requires Onward(s, w0, plan, |plan.candidates|) && PlaylistMatches(w0, plan)
    ensures Ended(Apply(s, Finish(true)).world, w0, plan)
  {
    var w := Apply(s, Finish(true)).world;
    assert w.runs[..|w0.runs| - 1] == s.world.runs[..|w0.runs| - 1];
  }

  // ---- a plan confirmed as it was shown ----

  ghost predicate Shown(w: World, newName: string, order: seq<nat>, down: set<nat>, plan: Plan) {
    BuildPlan(w, newName, order, down) == Ok(plan) && plan.blocked == []
  }

  /** What the planner found for one candidate, told by its own file. */
  lemma ShownCandidate(
    w: World, own: seq<File>, newName: string, order: seq<nat>, down: set<nat>, c: Candidate)
    requires WorldKept(w, own) && Covered(w.catalog, newName, c)
    requires Inspected(w, PendingIntents(w.runs, order, w.catalog.playlist.folderName, newName), down, c)
    ensures Fits(w.tree, own, c)
    ensures c.alreadyMoved ==> Displaced(w, own, c.artifactId)
  {
    InspectedIdentity(w, own, newName, order, down, c);
    var a := c.artifactId;
    assert InPlace(w.catalog, w.tree, own, a) || Displaced(w, own, a);
  }

  /** A row with a destination depends on the folder name and lies below the current one. */
  lemma DestinationAffects(cat: Catalog, newName: string, a: nat)
    requires a < |cat.artifacts| && RowDestination(cat, newName, a).Some?
    ensures Affected(cat, a)
  {
    var row := cat.artifacts[a];
    if FolderName !in row.subpath {
      PrefixIndependent(row.subpath, RowContext(cat.playlist, row, cat.playlist.folderName), newName);
    }
  }

  /** A displaced candidate is the first one. */
  lemma MovedIsFirst(w: World, own: seq<File>, newName: string, cs: seq<Candidate>, k: nat)
    requires WorldKept(w, own) && InIdOrder(cs) && k < |cs|
    requires forall i :: 0 <= i < |cs| ==> Covered(w.catalog, newName, cs[i])
    requires cs[k].artifactId < |own| && Displaced(w, own, cs[k].artifactId)
    ensures k == 0
  {
    assert Covered(w.catalog, newName, cs[0]);
    DestinationAffects(w.catalog, newName, cs[0].artifactId);
  }

  /** Every artifact lies in one place, and different ones apart. */
  ghost predicate Apart(w: World, own: seq<File>)
    requires |w.catalog.artifacts| == |own|
  {
    forall a, b, l, m :: 0 <= a < |own| && 0 <= b < |own| && LiesAt(w, own, a, l) && LiesAt(w, own, b, m) ==>
      (a == b <==> l == m)
  }

  /** What an invariant world says about where files are. */
  lemma GuardedApart(w: World, own: seq<File>)
    requires WorldKept(w, own) && Guarded(w)
    ensures Apart(w, own)
  {
    forall a, b, l, m | 0 <= a < |own| && 0 <= b < |own| && LiesAt(w, own, a, l) && LiesAt(w, own, b, m)
      ensures a == b <==> l == m
    {
      LiesOnce(w, own, a, b, l, m);
    }
  }

  /** Where the file of a candidate is. */
  function Whence(c: Candidate): Location { if c.alreadyMoved then Place(c) else Source(c) }

  lemma CandidateLies(
    w: World, own: seq<File>, newName: string, order: seq<nat>, down: set<nat>, c: Candidate)
    requires WorldKept(w, own) && Covered(w.catalog, newName, c)
    requires Inspected(w, PendingIntents(w.runs, order, w.catalog.playlist.folderName, newName), down, c)
    ensures c.artifactId < |own| && LiesAt(w, own, c.artifactId, Whence(c))
  {
    var a, folder := c.artifactId, w.catalog.playlist.folderName;
    ShownCandidate(w, own, newName, order, down, c);
    if c.alreadyMoved {
      var intents := PendingIntents(w.runs, order, folder, newName);
      PendingIsRecorded(w.runs, order, folder, newName, a);
      var r := intents[a].0;
      InspectedIdentity(w, own, newName, order, down, c);
      assert Sound(w.catalog, own, w.runs[r].Intent().value);
      assert ExplainsAt(w, own, a, w.runs[r], Place(c));
    }
  }

  lemma ShownPlanFits(w: World, own: seq<File>, newName: string, order: seq<nat>, down: set<nat>, plan: Plan)
    requires WorldKept(w, own) && Apart(w, own) && Shown(w, newName, order, down, plan)
    ensures FitPlan(w.tree, own, plan.candidates)
    ensures forall k :: 0 <= k < |plan.candidates| ==>
              && Covered(w.catalog, newName, plan.candidates[k])
              && plan.candidates[k].artifactId < |own|
              && LiesAt(w, own, plan.candidates[k].artifactId, Whence(plan.candidates[k]))
    ensures forall a :: 0 <= a < |own| && RowDestination(w.catalog, newName, a).Some? ==> Lists(plan.candidates, a)
    ensures forall a :: 0 <= a < |own| ==> Resolvable(w.catalog, newName, a)
  {
    var cs, n := plan.candidates, |w.catalog.artifacts|;
    var intents := PendingIntents(w.runs, order, w.catalog.playlist.folderName, newName);
    UnblockedIsFaithful(w, newName, intents, down, n);
    assert Faithful(w, newName, intents, down, n, cs);
    forall k | 0 <= k < |cs|
      ensures Fits(w.tree, own, cs[k]) && (cs[k].alreadyMoved ==> k == 0)
      ensures cs[k].artifactId < |own| && LiesAt(w, own, cs[k].artifactId, Whence(cs[k]))
    {
      ShownCandidate(w, own, newName, order, down, cs[k]);
      CandidateLies(w, own, newName, order, down, cs[k]);
      if cs[k].alreadyMoved {
        MovedIsFirst(w, own, newName, cs, k);
      }
    }
    CandidatesApart(w, own, cs);
  }

  lemma CandidatesApart(w: World, own: seq<File>, cs: seq<Candidate>)
    requires WorldKept(w, own) && Apart(w, own) && InIdOrder(cs)
    requires forall k :: 0 <= k < |cs| ==> Fits(w.tree, own, cs[k]) && LiesAt(w, own, cs[k].artifactId, Whence(cs[k]))
    ensures SourcesApart(cs)
  {
    forall i, j | 0 <= i < |cs| && 0 <= j < |cs| && i != j && !cs[i].alreadyMoved
      ensures Source(cs[i]) != Source(cs[j]) && Source(cs[i]) != Place(cs[j])
    {
      assert Fits(w.tree, own, cs[i]) && Fits(w.tree, own, cs[j]);
      assert LiesAt(w, own, cs[i].artifactId, Whence(cs[i])) && LiesAt(w, own, cs[j].artifactId, Whence(cs[j]));
      assert if i < j then cs[i].artifactId < cs[j].artifactId else cs[j].artifactId < cs[i].artifactId;
    }
  }

  // ---- what the execution leaves ----

  /** Before and after: w as it was when the plan was shown, w2 after its execution. */
  ghost predicate Executed(w: World, own: seq<File>, plan: Plan, w2: World) {
    && WorldKept(w, own) && Apart(w, own) && FitPlan(w.tree, own, plan.candidates) && |w2.catalog.artifacts| == |own|
    && (forall k :: 0 <= k < |plan.candidates| ==>
          && Covered(w.catalog, plan.newName, plan.candidates[k])
          && LiesAt(w, own, plan.candidates[k].artifactId, Whence(plan.candidates[k])))
    && RowsFit(w.catalog, plan.candidates)
    && w2.catalog.artifacts == RecordAll(w.catalog, plan.candidates, |plan.candidates|, w.clock).artifacts
    && w2.catalog.playlist.name == w.catalog.playlist.name && w2.catalog.playlist.folderName == plan.newName
    && w2.tree == MoveAll(w.tree, plan.candidates, |plan.candidates|)
    && |w2.runs| == |w.runs| + 1 && w2.runs[|w.runs|].Intent() == None
    && forall i :: 0 <= i < |w.runs| ==> SameRecord(w.runs[i], w2.runs[i])
  }

  /** Where the file that lies at l ends up. */
  function EndOf(cs: seq<Candidate>, a: nat, l: Location): Location {
    if cs == [] then l
    else if cs[|cs| - 1].artifactId == a then Place(cs[|cs| - 1])
    else EndOf(cs[..|cs| - 1], a, l)
  }

  lemma {:induction false} EndOfListed(cs: seq<Candidate>, a: nat, l: Location)
    ensures if Lists(cs, a) then exists k :: 0 <= k < |cs| && cs[k].artifactId == a && EndOf(cs, a, l) == Place(cs[k])
            else EndOf(cs, a, l) == l
  {
    if cs != [] {
      var init, last := cs[..|cs| - 1], |cs| - 1;
      EndOfListed(init, a, l);
      if cs[last].artifactId != a && Lists(cs, a) {
        var k :| 0 <= k < |cs| && cs[k].artifactId == a;
        assert init[k].artifactId == a;
        var i :| 0 <= i < |init| && init[i].artifactId == a && EndOf(init, a, l) == Place(init[i]);
        assert cs[i] == init[i];
      }
    }
  }

  /** The file at l is the artifact's own, and its row or a persisted intent for the folder as it is says so. */
  ghost predicate SafeAt(w: World, own: seq<File>, a: nat, l: Location)
    requires a < |w.catalog.artifacts| == |own|
  {
    && l in w.tree && w.tree[l] == own[a]
    && (w.catalog.artifacts[a].Location() == l || ExplainedAt(w, own, a, l))
  }

  ghost predicate ExplainedAt(w: World, own: seq<File>, a: nat, l: Location)
    requires a < |w.catalog.artifacts| == |own|
  {
    exists r :: 0 <= r < |w.runs| && ExplainsAt(w, own, a, w.runs[r], l)
  }

  /** Every candidate's file is at its database path. */
  lemma CandidateArrives(w: World, own: seq<File>, plan: Plan, w2: World, a: nat, l: Location)
    requires Executed(w, own, plan, w2) && a < |own| && Lists(plan.candidates, a)
    ensures SafeAt(w2, own, a, EndOf(plan.candidates, a, l))
  {
    var cs := plan.candidates;
    EndOfListed(cs, a, l);
    var k :| 0 <= k < |cs| && cs[k].artifactId == a && EndOf(cs, a, l) == Place(cs[k]);
    RecordAllRows(w.catalog, cs, |cs|, w.clock, a);
    MoveAllShape(w.tree, own, cs, |cs|);
    assert RowFits(w.catalog, cs[k]);
  }

  /** A file that is not a candidate's is not where a candidate's file was or goes. */
  lemma BystanderAside(w: World, own: seq<File>, plan: Plan, w2: World, a: nat, l: Location)
    requires Executed(w, own, plan, w2) && a < |own| && !Lists(plan.candidates, a) && LiesAt(w, own, a, l)
    ensures Aside(plan.candidates, l) && l in w2.tree && w2.tree[l] == own[a]
    ensures w2.catalog.artifacts[a] == w.catalog.artifacts[a]
  {
    var cs := plan.candidates;
    LiesThere(w, own, a, l);
    forall i | 0 <= i < |cs| && !cs[i].alreadyMoved
      ensures Source(cs[i]) != l && Place(cs[i]) != l
    {
      assert Fits(w.tree, own, cs[i]) && LiesAt(w, own, cs[i].artifactId, Whence(cs[i]));
      assert cs[i].artifactId != a;
    }
    MoveAllAside(w.tree, cs, |cs|, l);
    RecordAllRows(w.catalog, cs, |cs|, w.clock, a);
  }

  /** The world with the folder renamed and nothing else changed. */
  function Renamed(w: World, newName: string): World {
    w.(catalog := w.catalog.(playlist := w.catalog.playlist.(folderName := newName)))
  }

  /** A run recorded earlier, when the folder had the new name, explains that the file is there. */
  ghost predicate ExplainedFrom(w: World, own: seq<File>, a: nat, newName: string, l: Location)
    requires a < |w.catalog.artifacts| == |own|
  {
    ExplainedAt(Renamed(w, newName), own, a, l)
  }

  /** One run explains a displaced bystander afterwards exactly when it does under the new name before. */
  lemma ExplainsSame(w: World, own: seq<File>, plan: Plan, w2: World, a: nat, l: Location, i: nat)
    requires Executed(w, own, plan, w2) && a < |own| && !Lists(plan.candidates, a) && LiesAt(w, own, a, l)
    requires i < |w.runs|
    ensures ExplainsAt(w2, own, a, w2.runs[i], l) <==> ExplainsAt(Renamed(w, plan.newName), own, a, w.runs[i], l)
  {
    BystanderAside(w, own, plan, w2, a, l);
    LiesThere(w, own, a, l);
    assert SameRecord(w.runs[i], w2.runs[i]);
    if w.runs[i].Intent().Some? && w.runs[i].Intent().value.artifactId == a && w.runs[i].stats.Some? {
      assert RowDestination(w2.catalog, w.runs[i].stats.value.newName, a)
          == RowDestination(Renamed(w, plan.newName).catalog, w.runs[i].stats.value.newName, a);
    }
  }

  lemma ExplainedSame(w: World, own: seq<File>, plan: Plan, w2: World, a: nat, l: Location)
    requires Executed(w, own, plan, w2) && a < |own| && !Lists(plan.candidates, a) && LiesAt(w, own, a, l)
    ensures ExplainedAt(w2, own, a, l) <==> ExplainedFrom(w, own, a, plan.newName, l)
  {
    if ExplainedAt(w2, own, a, l) {
      StillExplainedFrom(w, own, plan, w2, a, l);
    } else if ExplainedFrom(w, own, a, plan.newName, l) {
      var i := ExplainedBy(Renamed(w, plan.newName), own, a, l);
      ExplainsSame(w, own, plan, w2, a, l, i);
      ExplainedWitness(w2, own, a, l, i);
    }
  }

  lemma ExplainedBy(w: World, own: seq<File>, a: nat, l: Location) returns (r: nat)
    requires a < |w.catalog.artifacts| == |own| && ExplainedAt(w, own, a, l)
    ensures r < |w.runs| && ExplainsAt(w, own, a, w.runs[r], l)
  {
    r :| 0 <= r < |w.runs| && ExplainsAt(w, own, a, w.runs[r], l);
  }

  lemma StillExplainedFrom(w: World, own: seq<File>, plan: Plan, w2: World, a: nat, l: Location)
    requires Executed(w, own, plan, w2) && a < |own| && !Lists(plan.candidates, a) && LiesAt(w, own, a, l)
    requires ExplainedAt(w2, own, a, l)
    ensures ExplainedFrom(w, own, a, plan.newName, l)
  {
    var i := EarlierExplains(w2, own, a, l, |w.runs|);
    ExplainsSame(w, own, plan, w2, a, l, i);
    ExplainedWitness(Renamed(w, plan.newName), own, a, l, i);
  }

  lemma ExplainedWitness(w: World, own: seq<File>, a: nat, l: Location, r: nat)
    requires a < |w.catalog.artifacts| == |own| && r < |w.runs| && ExplainsAt(w, own, a, w.runs[r], l)
    ensures ExplainedAt(w, own, a, l)
  {
  }

  /** The new run, without an intent, explains nothing. */
  lemma EarlierExplains(w: World, own: seq<File>, a: nat, l: Location, n: nat) returns (r: nat)
    requires a < |w.catalog.artifacts| == |own| && |w.runs| == n + 1 && w.runs[n].Intent() == None
    requires ExplainedAt(w, own, a, l)
    ensures r < n && ExplainsAt(w, own, a, w.runs[r], l)
  {
    r :| 0 <= r < |w.runs| && ExplainsAt(w, own, a, w.runs[r], l);
    assert r != n;
  }

  lemma SafeExactly(w: World, own: seq<File>, plan: Plan, w2: World, a: nat, l: Location)
    requires Executed(w, own, plan, w2) && a < |own| && LiesAt(w, own, a, l)
    ensures SafeAt(w2, own, a, EndOf(plan.candidates, a, l)) <==>
            (Displaced(w, own, a) ==> Lists(plan.candidates, a) || ExplainedFrom(w, own, a, plan.newName, l))
  {
    assert InPlace(w.catalog, w.tree, own, a) || Displaced(w, own, a);
    if Lists(plan.candidates, a) {
      CandidateArrives(w, own, plan, w2, a, l);
    } else {
      EndOfListed(plan.candidates, a, l);
      LiesThere(w, own, a, l);
      BystanderAside(w, own, plan, w2, a, l);
      if Displaced(w, own, a) {
        ExplainedSame(w, own, plan, w2, a, l);
      }
    }
  }

  // ---- the main result ----

  ghost predicate SamePrefix(cat: Catalog, newName: string, a: nat)
    requires a < |cat.artifacts|
  {
    RowPrefix(cat.playlist, cat.artifacts[a], cat.playlist.folderName)
      == RowPrefix(cat.playlist, cat.artifacts[a], newName)
  }

  /** An unblocked plan omits an artifact below the current folder exactly when both names give it one prefix. */
  lemma OmittedExactly(w: World, newName: string, order: seq<nat>, down: set<nat>, plan: Plan, a: nat)
    requires Shown(w, newName, order, down, plan) && a < |w.catalog.artifacts| && Affected(w.catalog, a)
    ensures !Lists(plan.candidates, a) <==> SamePrefix(w.catalog, newName, a)
  {
    var n := |w.catalog.artifacts|;
    var intents := PendingIntents(w.runs, order, w.catalog.playlist.folderName, newName);
    UnblockedIsFaithful(w, newName, intents, down, n);
    assert Faithful(w, newName, intents, down, n, plan.candidates);
    assert Resolvable(w.catalog, newName, a);
    if Lists(plan.candidates, a) {
      var k :| 0 <= k < |plan.candidates| && plan.candidates[k].artifactId == a;
      assert Covered(w.catalog, newName, plan.candidates[k]);
    }
  }

  function WholeRun(newName: string, order: seq<nat>, down: set<nat>, plan: Plan): seq<Step> {
    [Preview(newName, order, down), Start(plan, false)] + Moves(|plan.candidates|)
  }

  lemma Opened(s: System, plan: Plan)
    requires s.process == Idle && plan in s.plans && StartRun(s.world, plan, false).Some?
    ensures var s2 := Apply(s, Start(plan, false));
            && Onward(s2, s2.world, plan, 0) && PlaylistMatches(s2.world, plan)
               && RowsFit(s2.world.catalog, plan.candidates)
            && s2.world.catalog == s.world.catalog && s2.world.tree == s.world.tree && s2.world.clock == s.world.clock
            && |s2.world.runs| == |s.world.runs| + 1
            && forall i :: 0 <= i < |s.world.runs| ==> SameRecord(s.world.runs[i], s2.world.runs[i])
  {
    RecoverKeepsRecords(s.world.runs, plan.recoveryRuns, plan);
    assert forall k :: 0 <= k < |plan.candidates| ==> plan.candidates[k] in plan.candidates;
  }

  lemma RunExecutes(s: System, own: seq<File>, newName: string, order: seq<nat>, down: set<nat>, plan: Plan)
    requires WorldKept(s.world, own) && Apart(s.world, own) && s.process == Idle
             && Shown(s.world, newName, order, down, plan)
    requires StartRun(s.world, plan, false).Some?
    ensures Executed(s.world, own, plan, Execute(s, WholeRun(newName, order, down, plan)).world)
  {
    var s1 := Apply(s, Preview(newName, order, down));
    ShownPlanFits(s.world, own, newName, order, down, plan);
    Opened(s1, plan);
    var s2 := Apply(s1, Start(plan, false));
    OnwardToEnd(s2, s2.world, own, plan);
    TwoThenRest(s, Preview(newName, order, down), Start(plan, false), Moves(|plan.candidates|));
    EndedIsExecuted(s.world, own, newName, plan, s2.world, Execute(s2, Moves(|plan.candidates|)).world);
  }

  lemma EndedIsExecuted(w: World, own: seq<File>, newName: string, plan: Plan, w0: World, w2: World)
    requires WorldKept(w, own) && Apart(w, own) && FitPlan(w.tree, own, plan.candidates) && plan.newName == newName
    requires forall k :: 0 <= k < |plan.candidates| ==>
               && Covered(w.catalog, newName, plan.candidates[k])
               && LiesAt(w, own, plan.candidates[k].artifactId, Whence(plan.candidates[k]))
    requires RowsFit(w0.catalog, plan.candidates) && w0.catalog == w.catalog && w0.tree == w.tree && w0.clock == w.clock
    requires |w0.runs| == |w.runs| + 1 && forall i :: 0 <= i < |w.runs| ==> SameRecord(w.runs[i], w0.runs[i])
    requires Ended(w2, w0, plan)
    ensures Executed(w, own, plan, w2)
  {
    EarlierRuns(w.runs, w0.runs, w2.runs);
  }

  lemma EarlierRuns(runs: seq<Run>, started: seq<Run>, ended: seq<Run>)
    requires |started| == |ended| == |runs| + 1 && ended[..|runs|] == started[..|runs|]
    requires forall i :: 0 <= i < |runs| ==> SameRecord(runs[i], started[i])
    ensures forall i :: 0 <= i < |runs| ==> SameRecord(runs[i], ended[i])
  {
    forall i | 0 <= i < |runs|
      ensures ended[i] == started[i]
    {
      assert ended[i] == ended[..|runs|][i];
    }
  }

  /** Afterwards every file that was at a place is where the plan took it, and its row or an intent says so. */
  ghost predicate AllSafe(w: World, own: seq<File>, plan: Plan, w2: World)
    requires |w.catalog.artifacts| == |w2.catalog.artifacts| == |own|
  {
    forall a, l :: 0 <= a < |own| && LiesAt(w, own, a, l) ==> SafeAt(w2, own, a, EndOf(plan.candidates, a, l))
  }

  /**
   A displaced artifact that the new name leaves in its prefix, and that no intent recorded under that name
   explains.
   */
  ghost predicate Stranding(w: World, own: seq<File>, newName: string, a: nat, l: Location)
    requires a < |w.catalog.artifacts| == |own|
  {
    && Displaced(w, own, a) && LiesAt(w, own, a, l)
    && SamePrefix(w.catalog, newName, a) && !ExplainedFrom(w, own, a, newName, l)
  }

  /** What is afterwards safe, told by what was displaced before; no artifact's file is lost in any case. */
  ghost predicate SafeUnless(w: World, own: seq<File>, newName: string, plan: Plan, w2: World)
    requires |w.catalog.artifacts| == |own|
  {
    && w2.catalog.playlist.folderName == newName && |w2.catalog.artifacts| == |own|
    && (forall a, l :: 0 <= a < |own| && LiesAt(w, own, a, l) ==>
          var there := EndOf(plan.candidates, a, l); there in w2.tree && w2.tree[there] == own[a])
    && (AllSafe(w, own, plan, w2) <==> !exists a, l :: 0 <= a < |own| && Stranding(w, own, newName, a, l))
  }

  /**
   Previewing any clean name, confirming and running to the end, from any world without a process in which each
   artifact's file lies in one place: every file is afterwards where the plan took it, and its row or an intent
   says so exactly when no displaced artifact has the same prefix under both names without an intent, recorded
   when the folder had the new name, that explains it.
   */
  lemma FinishStrandsExactly(s: System, own: seq<File>, newName: string, order: seq<nat>, down: set<nat>, plan: Plan)
    requires WorldKept(s.world, own) && Apart(s.world, own) && s.process == Idle
             && Shown(s.world, newName, order, down, plan)
    requires StartRun(s.world, plan, false).Some?
    ensures SafeUnless(s.world, own, newName, plan, Execute(s, WholeRun(newName, order, down, plan)).world)
  {
    RunExecutes(s, own, newName, order, down, plan);
    AllSafeExactly(s.world, own, newName, order, down, plan, Execute(s, WholeRun(newName, order, down, plan)).world);
  }

  /** When the folder never had the new name while an intent was recorded, the prefixes alone decide. */
  lemma FinishStrandsByPrefix(
    s: System, own: seq<File>, newName: string, order: seq<nat>, down: set<nat>, plan: Plan)
    requires WorldKept(s.world, own) && Apart(s.world, own) && s.process == Idle
             && Shown(s.world, newName, order, down, plan)
    requires StartRun(s.world, plan, false).Some?
    requires forall run <- s.world.runs :: run.Intent().Some? ==> run.stats.value.oldName != newName
    ensures var w2 := Execute(s, WholeRun(newName, order, down, plan)).world;
            && |w2.catalog.artifacts| == |own|
            && (AllSafe(s.world, own, plan, w2)
                <==> !exists a ::
                       0 <= a < |own| && Displaced(s.world, own, a) && SamePrefix(s.world.catalog, newName, a))
  {
    FinishStrandsExactly(s, own, newName, order, down, plan);
    forall a, l | 0 <= a < |own|
      ensures !ExplainedFrom(s.world, own, a, newName, l)
    {
      assert forall r :: 0 <= r < |s.world.runs| ==> s.world.runs[r] in s.world.runs;
    }
    forall a | 0 <= a < |own| && Displaced(s.world, own, a) && SamePrefix(s.world.catalog, newName, a)
      ensures exists l :: Stranding(s.world, own, newName, a, l)
    {
      var l := DisplacedLies(s.world, own, a);
      assert Stranding(s.world, own, newName, a, l);
    }
  }

  lemma DisplacedLies(w: World, own: seq<File>, a: nat) returns (l: Location)
    requires |w.catalog.artifacts| == |own| && a < |own| && Displaced(w, own, a)
    ensures LiesAt(w, own, a, l)
  {
    var r :| 0 <= r < |w.runs| && Explains(w.catalog, w.tree, own, a, w.runs[r]);
    l := Place(w.runs[r].Intent().value);
    assert ExplainsAt(w, own, a, w.runs[r], l);
  }

  lemma OmittedWhenDisplaced(
    w: World, own: seq<File>, newName: string, order: seq<nat>, down: set<nat>, plan: Plan, a: nat)
    requires WorldKept(w, own) && Shown(w, newName, order, down, plan) && a < |own| && Displaced(w, own, a)
    ensures !Lists(plan.candidates, a) <==> SamePrefix(w.catalog, newName, a)
  {
    OmittedExactly(w, newName, order, down, plan, a);
  }

  lemma SafeByPrefix(
    w: World, own: seq<File>, newName: string, order: seq<nat>, down: set<nat>, plan: Plan, w2: World, a: nat,
    l: Location)
    requires Executed(w, own, plan, w2) && Shown(w, newName, order, down, plan) && plan.newName == newName
    requires a < |own| && LiesAt(w, own, a, l)
    ensures SafeAt(w2, own, a, EndOf(plan.candidates, a, l)) <==> !Stranding(w, own, newName, a, l)
    ensures var there := EndOf(plan.candidates, a, l); there in w2.tree && w2.tree[there] == own[a]
  {
    SafeExactly(w, own, plan, w2, a, l);
    if Displaced(w, own, a) {
      OmittedWhenDisplaced(w, own, newName, order, down, plan, a);
    }
    if !Lists(plan.candidates, a) {
      EndOfListed(plan.candidates, a, l);
      BystanderAside(w, own, plan, w2, a, l);
    }
  }

  lemma AllSafeExactly(
    w: World, own: seq<File>, newName: string, order: seq<nat>, down: set<nat>, plan: Plan, w2: World)
    requires Executed(w, own, plan, w2) && Shown(w, newName, order, down, plan)
    ensures SafeUnless(w, own, newName, plan, w2)
  {
    forall a, l | 0 <= a < |own| && LiesAt(w, own, a, l)
      ensures SafeAt(w2, own, a, EndOf(plan.candidates, a, l)) <==> !Stranding(w, own, newName, a, l)
      ensures var there := EndOf(plan.candidates, a, l); there in w2.tree && w2.tree[there] == own[a]
    {
      SafeByPrefix(w, own, newName, order, down, plan, w2, a, l);
    }
  }
}
