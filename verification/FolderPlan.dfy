/**
 The database rows, the storage tree and the plan of a folder move
 (src/sluicery/core/folder_move.py, planning half). One playlist is modelled; its artifacts are
 numbered in id order, and its runs in the order they were created.
 */
module FolderPlan {
  import opened Common
  import opened Naming
  import opened Layout

  /** A storage id and a path below its root. */
  type Location = (nat, Path)

  /** What identifies a file apart from its name. */
  datatype File = File(size: Option<nat>, modifiedAt: Option<string>, hashes: map<string, string>,
    fileId: Option<string>)

  datatype RemoteFile = RemoteFile(relativePath: Path, file: File)

  type Tree = map<Location, File>

  predicate IdentityMatches(current: RemoteFile, expected: RemoteFile) {
    && current.file.size == expected.file.size
    && current.file.modifiedAt == expected.file.modifiedAt
    && current.file.hashes == expected.file.hashes
    && current.file.fileId == expected.file.fileId
  }

  /** The joined target, assignment, profile and storage rows, as far as a candidate records them. */
  datatype Links = Links(
    targetId: nat, assignmentId: nat, profileId: nat,
    targetUpdatedAt: nat, assignmentUpdatedAt: nat, profileUpdatedAt: nat,
    storageUpdatedAt: nat, storageFingerprint: string)

  datatype Artifact = Artifact(
    storageId: nat, path: Path, filesize: Option<nat>, updatedAt: nat,
    assignmentStorageId: nat, subpath: seq<Piece>, profileName: string, profileKind: string, links: Links)
  {
    function Location(): Location { (storageId, path) }
  }

  datatype Playlist = Playlist(name: string, folderName: string, updatedAt: nat)

  datatype Candidate = Candidate(
    artifactId: nat, storageId: nat, source: Path, destination: Path, updatedAt: nat, links: Links,
    identity: Option<RemoteFile>, alreadyMoved: bool)

  datatype RunStatus = Running | Succeeded | Failed | Cancelled | Skipped

  datatype RunKind = FolderMove | OtherKind

  datatype Stats = Stats(
    moved: nat, total: nat, unaffected: nat, oldName: string, newName: string,
    intent: Option<Candidate>, reason: Option<string>)

  datatype Run = Run(kind: RunKind, status: RunStatus, stats: Option<Stats>)
  {
    /** Selected by the planner for this pair of names. */
    predicate Serves(oldName: string, newName: string) {
      && kind == FolderMove && (status == Running || status == Failed)
      && stats.Some? && stats.value.oldName == oldName && stats.value.newName == newName
    }

    function Intent(): Option<Candidate> { if stats.Some? then stats.value.intent else None }
  }

  /** The playlist row and its artifacts. */
  datatype Catalog = Catalog(playlist: Playlist, artifacts: seq<Artifact>)

  datatype World = World(catalog: Catalog, runs: seq<Run>, tree: Tree, clock: nat)

  datatype Reason =
    | AssignmentStorageMismatch | BadSubpath | DuplicateDestination
    | StorageUnavailable | BothExist | IdentityMismatch | SourceMissing | SizeMismatch

  datatype Plan = Plan(
    oldName: string, newName: string, playlistUpdatedAt: nat, candidates: seq<Candidate>,
    unaffected: nat, blocked: seq<(nat, Reason)>, recoveryRuns: seq<nat>)
  {
    predicate Movable() { oldName != newName && blocked == [] }
  }

  datatype PlanError = BadName | NotNormalized | SameName | UnresolvableFolder

  // ---- intents left by earlier runs ----

  /** Intents by artifact; a run later in the query's order replaces an earlier one. */
  function PendingIntents(runs: seq<Run>, order: seq<nat>, oldName: string, newName: string): map<nat, (nat, Candidate)>
  {
    if order == [] then map[]
    else
      var id := order[|order| - 1];
      var earlier := PendingIntents(runs, order[..|order| - 1], oldName, newName);
      if id < |runs| && runs[id].Serves(oldName, newName) && runs[id].Intent().Some? then
        earlier[runs[id].Intent().value.artifactId := (id, runs[id].Intent().value)]
      else earlier
  }

  /** Runs still RUNNING for this pair of names, in id order. */
  function RecoveryRuns(runs: seq<Run>, n: nat, oldName: string, newName: string): seq<nat>
    requires n <= |runs|
  {
    if n == 0 then []
    else
      RecoveryRuns(runs, n - 1, oldName, newName)
      + if runs[n - 1].Serves(oldName, newName) && runs[n - 1].status == Running then [n - 1] else []
  }

  /** The intent that may explain why the source of a row is missing. */
  function PendingIntentForRow(
    intents: map<nat, (nat, Candidate)>, id: nat, row: Artifact, destination: Path): Option<RemoteFile>
  {
    if id !in intents then None
    else
      var intent := intents[id].1;
      if || intent.artifactId != id
         || intent.storageId != row.storageId
         || intent.source != row.path
         || intent.destination != destination
         || intent.updatedAt != row.updatedAt
         || intent.links.storageUpdatedAt != row.links.storageUpdatedAt
         || intent.links.storageFingerprint != row.links.storageFingerprint
      then None
      else intent.identity
  }

  // ---- one row ----

  function RowContext(playlist: Playlist, row: Artifact, folder: string): Context {
    Context(playlist.name, folder, row.profileName, row.profileKind)
  }

  function RowPrefix(playlist: Playlist, row: Artifact, folder: string): Resolved {
    ResolveSubpath(row.subpath, RowContext(playlist, row, folder))
  }

  /** Where a row's artifact moves, if the two names put it elsewhere. */
  function Destination(playlist: Playlist, row: Artifact, oldName: string, newName: string): Option<Path> {
    match (RowPrefix(playlist, row, oldName), RowPrefix(playlist, row, newName))
    case (Prefix(here), Prefix(there)) => if here == there then None else ReplacePrefix(row.path, here, there)
    case _ => None
  }

  datatype Inspection = Inspection(identity: Option<RemoteFile>, alreadyMoved: bool, blocked: Option<Reason>)

  /** The storage calls made for one candidate; down holds the storages that raise on any call. */
  function Inspect(
    tree: Tree, down: set<nat>, intents: map<nat, (nat, Candidate)>, id: nat, row: Artifact,
      destination: Path): Inspection
  {
    var source, target := row.Location(), (row.storageId, destination);
    var pending := PendingIntentForRow(intents, id, row, destination);
    if row.storageId in down then Inspection(None, false, Some(StorageUnavailable))
    else if source in tree then
      var identity := RemoteFile(row.path, tree[source]);
      if target in tree then Inspection(Some(identity), false, Some(BothExist))
      else Inspection(Some(identity), false, SizeProblem(row, identity))
    else if pending.Some? && target in tree then
      if !IdentityMatches(RemoteFile(destination, tree[target]), pending.value) then
        Inspection(None, false, Some(IdentityMismatch))
      else Inspection(pending, true, SizeProblem(row, pending.value))
    else Inspection(None, false, Some(SourceMissing))
  }

  function SizeProblem(row: Artifact, identity: RemoteFile): Option<Reason> {
    if row.filesize.Some? && identity.file.size != row.filesize then Some(SizeMismatch) else None
  }

  function CandidateFor(id: nat, row: Artifact, destination: Path, i: Inspection): Candidate {
    Candidate(id, row.storageId, row.path, destination, row.updatedAt, row.links, i.identity, i.alreadyMoved)
  }

  datatype Draft = Draft(
    candidates: seq<Candidate>, blocked: seq<(nat, Reason)>, unaffected: nat, destinations: set<Location>)

  /** The planning loop's body; None when the folder name itself cannot be sanitized. */
  function PlanRow(
    w: World, newName: string, intents: map<nat, (nat, Candidate)>, down: set<nat>, id: nat,
      draft: Draft): Option<Draft>
    requires id < |w.catalog.artifacts|
  {
    var row := w.catalog.artifacts[id];
    if row.assignmentStorageId != row.storageId then
      Some(draft.(blocked := draft.blocked + [(id, AssignmentStorageMismatch)]))
    else
      match (RowPrefix(w.catalog.playlist, row, w.catalog.playlist.folderName),
        RowPrefix(w.catalog.playlist, row, newName))
      case (NamingError, _) => None
      case (LayoutError, _) => Some(draft.(blocked := draft.blocked + [(id, BadSubpath)]))
      case (Prefix(_), NamingError) => None
      case (Prefix(_), LayoutError) => Some(draft.(blocked := draft.blocked + [(id, BadSubpath)]))
      case (Prefix(_), Prefix(_)) =>
        match Destination(w.catalog.playlist, row, w.catalog.playlist.folderName, newName)
        case None => Some(draft.(unaffected := draft.unaffected + 1))
        case Some(destination) =>
          if (row.storageId, destination) in draft.destinations then
            Some(draft.(blocked := draft.blocked + [(id, DuplicateDestination)]))
          else
            var i := Inspect(w.tree, down, intents, id, row, destination);
            Some(Draft(
                   draft.candidates + [CandidateFor(id, row, destination, i)],
                   draft.blocked + (if i.blocked.Some? then [(id, i.blocked.value)] else []),
                   draft.unaffected,
                   draft.destinations + {(row.storageId, destination)}))
  }

  function NextDraft(
    w: World, newName: string, intents: map<nat, (nat, Candidate)>, down: set<nat>, n: nat,
      d: Option<Draft>): Option<Draft>
    requires n < |w.catalog.artifacts|
  {
    match d
    case None => None
    case Some(draft) => PlanRow(w, newName, intents, down, n, draft)
  }

  function PlanRows(
    w: World, newName: string, intents: map<nat, (nat, Candidate)>, down: set<nat>, n: nat): Option<Draft>
    requires n <= |w.catalog.artifacts|
  {
    if n == 0 then Some(Draft([], [], 0, {}))
    else
      NextDraft(w, newName, intents, down, n - 1, PlanRows(w, newName, intents, down, n - 1))
  }

  /** The whole plan as a function of one snapshot of rows and files. */
  function BuildPlan(w: World, newName: string, order: seq<nat>, down: set<nat>): Result<Plan, PlanError> {
    match SanitizeComponent(newName)
    case None => Err(BadName)
    case Some(normalized) =>
      if normalized != newName then Err(NotNormalized)
      else if newName == w.catalog.playlist.folderName then Err(SameName)
      else
        var oldName := w.catalog.playlist.folderName;
        match PlanRows(w, newName, PendingIntents(w.runs, order, oldName, newName), down, |w.catalog.artifacts|)
        case None => Err(UnresolvableFolder)
        case Some(draft) =>
          Ok(Plan(oldName, newName, w.catalog.playlist.updatedAt, draft.candidates, draft.unaffected, draft.blocked,
                  RecoveryRuns(w.runs, |w.runs|, oldName, newName)))
  }

  /** The planner in imperative form: two loops filling a dictionary, lists and sets. */
  method BuildFolderMovePlan(
    w: World, newName: string, order: seq<nat>, down: set<nat>) returns (r: Result<Plan, PlanError>)
    ensures r == BuildPlan(w, newName, order, down)
  {
    var normalized := SanitizeComponent(newName);
    if normalized == None {
      return Err(BadName);
    }
    if normalized.value != newName {
      return Err(NotNormalized);
    }
    var oldName := w.catalog.playlist.folderName;
    if newName == oldName {
      return Err(SameName);
    }
    var intents: map<nat, (nat, Candidate)> := map[];
    for i := 0 to |order|
      invariant intents == PendingIntents(w.runs, order[..i], oldName, newName)
    {
      assert order[..i + 1][..i] == order[..i];
      var id := order[i];
      if id < |w.runs| && w.runs[id].Serves(oldName, newName) {
        var intent := w.runs[id].Intent();
        if intent.Some? {
          intents := intents[intent.value.artifactId := (id, intent.value)];
        }
      }
    }
    assert order[..|order|] == order;
    var recovery: seq<nat> := [];
    for i := 0 to |w.runs|
      invariant recovery == RecoveryRuns(w.runs, i, oldName, newName)
    {
      if w.runs[i].Serves(oldName, newName) && w.runs[i].status == Running {
        recovery := recovery + [i];
      }
    }
    var draft := Draft([], [], 0, {});
    for id := 0 to |w.catalog.artifacts|
      invariant PlanRows(w, newName, intents, down, id) == Some(draft)
    {
      var next := PlanRow(w, newName, intents, down, id, draft);
      if next == None {
        UnresolvableFrom(w, newName, intents, down, id + 1, |w.catalog.artifacts|);
        return Err(UnresolvableFolder);
      }
      draft := next.value;
    }
    return Ok(Plan(oldName, newName, w.catalog.playlist.updatedAt, draft.candidates, draft.unaffected, draft.blocked,
      recovery));
  }

  lemma {:induction false} UnresolvableFrom(
    w: World, newName: string, intents: map<nat, (nat, Candidate)>, down: set<nat>, k: nat, n: nat)
    requires k <= n <= |w.catalog.artifacts| && PlanRows(w, newName, intents, down, k) == None
    ensures PlanRows(w, newName, intents, down, n) == None
  {
    if k < n {
      UnresolvableFrom(w, newName, intents, down, k, n - 1);
    }
  }

  // ---- what an unblocked plan says about every row ----

  /** Where row id would move under the names of this plan. */
  function RowDestination(cat: Catalog, newName: string, id: nat): Option<Path>
    requires id < |cat.artifacts|
  {
    Destination(cat.playlist, cat.artifacts[id], cat.playlist.folderName, newName)
  }

  ghost predicate Covered(cat: Catalog, newName: string, c: Candidate) {
    && c.artifactId < |cat.artifacts|
    && RowDestination(cat, newName, c.artifactId) == Some(c.destination)
    && var row := cat.artifacts[c.artifactId];
       c.storageId == row.storageId && c.source == row.path && c.updatedAt == row.updatedAt && c.links == row.links
  }

  /** The inspection that put a candidate into an unblocked plan. */
  ghost predicate Inspected(w: World, intents: map<nat, (nat, Candidate)>, down: set<nat>, c: Candidate)
    requires c.artifactId < |w.catalog.artifacts|
  {
    Inspect(w.tree, down, intents, c.artifactId, w.catalog.artifacts[c.artifactId], c.destination)
    == Inspection(c.identity, c.alreadyMoved, None)
  }

  ghost predicate Resolvable(cat: Catalog, newName: string, id: nat)
    requires id < |cat.artifacts|
  {
    var row := cat.artifacts[id];
    && row.assignmentStorageId == row.storageId
    && RowPrefix(cat.playlist, row, cat.playlist.folderName).Prefix?
    && RowPrefix(cat.playlist, row, newName).Prefix?
  }

  function Place(c: Candidate): Location { (c.storageId, c.destination) }

  ghost predicate InIdOrder(cs: seq<Candidate>) {
    forall i, j :: 0 <= i < j < |cs| ==> cs[i].artifactId < cs[j].artifactId
  }

  ghost predicate DistinctPlaces(cs: seq<Candidate>) {
    forall i, j :: 0 <= i < j < |cs| ==> Place(cs[i]) != Place(cs[j])
  }

  ghost predicate Lists(cs: seq<Candidate>, id: nat) {
    exists k :: 0 <= k < |cs| && cs[k].artifactId == id
  }

  /** A list of candidates that holds exactly the rows below n that move, in id order, to distinct places. */
  ghost predicate Faithful(
    w: World, newName: string, intents: map<nat, (nat, Candidate)>, down: set<nat>, n: nat, cs: seq<Candidate>)
    requires n <= |w.catalog.artifacts|
  {
    && (forall k :: 0 <= k < |cs| ==> Covered(w.catalog, newName, cs[k]) && Inspected(w, intents, down, cs[k]))
    && (forall k :: 0 <= k < |cs| ==> cs[k].artifactId < n)
    && (forall id :: 0 <= id < n ==> Resolvable(w.catalog, newName, id))
    && (forall id :: 0 <= id < n && RowDestination(w.catalog, newName, id).Some? ==> Lists(cs, id))
    && InIdOrder(cs) && DistinctPlaces(cs)
  }

  ghost predicate Places(cs: seq<Candidate>, places: set<Location>) {
    && (forall k :: 0 <= k < |cs| ==> Place(cs[k]) in places)
    && (forall p <- places :: exists k :: 0 <= k < |cs| && Place(cs[k]) == p)
  }

  lemma AppendLists(cs: seq<Candidate>, c: Candidate, id: nat)
    requires Lists(cs, id) || c.artifactId == id
    ensures Lists(cs + [c], id)
  {
    var after := cs + [c];
    if c.artifactId == id {
      assert after[|cs|].artifactId == id;
    } else {
      var k :| 0 <= k < |cs| && cs[k].artifactId == id;
      assert after[k].artifactId == id;
    }
  }

  lemma AppendOrdered(cs: seq<Candidate>, c: Candidate)
    requires InIdOrder(cs) && DistinctPlaces(cs)
    requires forall k :: 0 <= k < |cs| ==> cs[k].artifactId < c.artifactId && Place(cs[k]) != Place(c)
    ensures InIdOrder(cs + [c]) && DistinctPlaces(cs + [c])
  {
  }

  lemma AppendFaithful(
    w: World, newName: string, intents: map<nat, (nat, Candidate)>, down: set<nat>, n: nat, cs: seq<Candidate>,
    c: Candidate)
    requires n < |w.catalog.artifacts| && Faithful(w, newName, intents, down, n, cs)
    requires Covered(w.catalog, newName, c) && Inspected(w, intents, down, c) && c.artifactId == n
             && Resolvable(w.catalog, newName, n)
    requires forall k :: 0 <= k < |cs| ==> Place(cs[k]) != Place(c)
    ensures Faithful(w, newName, intents, down, n + 1, cs + [c])
  {
    AppendOrdered(cs, c);
    forall id | 0 <= id < n + 1 && RowDestination(w.catalog, newName, id).Some?
      ensures Lists(cs + [c], id)
    {
      AppendLists(cs, c, id);
    }
  }

  lemma AppendPlace(cs: seq<Candidate>, places: set<Location>, c: Candidate)
    requires Places(cs, places)
    ensures Places(cs + [c], places + {Place(c)})
  {
    var after := cs + [c];
    assert after[|cs|] == c;
    forall p <- places + {Place(c)}
      ensures exists k :: 0 <= k < |after| && Place(after[k]) == p
    {
      if p in places {
        var k :| 0 <= k < |cs| && Place(cs[k]) == p;
        assert after[k] == cs[k];
      }
    }
  }

  /** What the loop's body did, when it left nothing blocked. */
  lemma PlanRowShape(w: World, newName: string, intents: map<nat, (nat, Candidate)>, down: set<nat>, n: nat, d: Draft)
    requires n < |w.catalog.artifacts|
    requires PlanRow(w, newName, intents, down, n, d).Some?
             && PlanRow(w, newName, intents, down, n, d).value.blocked == []
    ensures d.blocked == [] && Resolvable(w.catalog, newName, n)
    ensures var after := PlanRow(w, newName, intents, down, n, d).value;
            match RowDestination(w.catalog, newName, n)
            case None => after.candidates == d.candidates && after.destinations == d.destinations
            case Some(dest) =>
              var row := w.catalog.artifacts[n];
              var i := Inspect(w.tree, down, intents, n, row, dest);
              var c := CandidateFor(n, row, dest, i);
              && i.blocked == None && Place(c) !in d.destinations
              && after.candidates == d.candidates + [c] && after.destinations == d.destinations + {Place(c)}
  {
  }

  /** The planning loop's body keeps the list faithful while nothing is blocked. */
  lemma PlanRowFaithful(
    w: World, newName: string, intents: map<nat, (nat, Candidate)>, down: set<nat>, n: nat, d: Draft)
    requires n < |w.catalog.artifacts| && Faithful(w, newName, intents, down, n, d.candidates)
             && Places(d.candidates, d.destinations)
    requires PlanRow(w, newName, intents, down, n, d).Some?
             && PlanRow(w, newName, intents, down, n, d).value.blocked == []
    ensures d.blocked == []
    ensures var after := PlanRow(w, newName, intents, down, n, d).value;
            Faithful(w, newName, intents, down, n + 1, after.candidates) && Places(after.candidates, after.destinations)
  {
    PlanRowShape(w, newName, intents, down, n, d);
    var dest := RowDestination(w.catalog, newName, n);
    if dest.Some? {
      var row := w.catalog.artifacts[n];
      var c := CandidateFor(n, row, dest.value, Inspect(w.tree, down, intents, n, row, dest.value));
      AppendFaithful(w, newName, intents, down, n, d.candidates, c);
      AppendPlace(d.candidates, d.destinations, c);
    }
  }

  ghost predicate FaithfulDraft(
    w: World, newName: string, intents: map<nat, (nat, Candidate)>, down: set<nat>, n: nat, d: Option<Draft>)
    requires n <= |w.catalog.artifacts|
  {
    d.Some? && d.value.blocked == []
    ==> Faithful(w, newName, intents, down, n, d.value.candidates) && Places(d.value.candidates, d.value.destinations)
  }

  /** What the loop's body keeps holds of the loop. */
  lemma {:induction false} PlanRowsKeep(
    w: World, newName: string, intents: map<nat, (nat, Candidate)>, down: set<nat>, n: nat,
    holds: (nat, Option<Draft>) -> bool)
    requires n <= |w.catalog.artifacts| && holds(0, Some(Draft([], [], 0, {})))
    requires forall k: nat, d: Option<Draft> ::
               k < |w.catalog.artifacts| && holds(k, d) ==> holds(k + 1, NextDraft(w, newName, intents, down, k, d))
    ensures holds(n, PlanRows(w, newName, intents, down, n))
  {
    if n > 0 {
      PlanRowsKeep(w, newName, intents, down, n - 1, holds);
    }
  }

  /** An unblocked plan lists exactly the rows that move. */
  lemma UnblockedIsFaithful(
    w: World, newName: string, intents: map<nat, (nat, Candidate)>, down: set<nat>, n: nat)
    requires n <= |w.catalog.artifacts|
    ensures FaithfulDraft(w, newName, intents, down, n, PlanRows(w, newName, intents, down, n))
  {
    var holds: (nat, Option<Draft>) -> bool :=
      (k: nat, d: Option<Draft>) => k <= |w.catalog.artifacts| && FaithfulDraft(w, newName, intents, down, k, d);
    FaithfulStart(w, newName, intents, down);
    forall k: nat, d: Option<Draft> | k < |w.catalog.artifacts| && holds(k, d)
      ensures holds(k + 1, NextDraft(w, newName, intents, down, k, d))
    {
      FaithfulNext(w, newName, intents, down, k, d);
    }
    PlanRowsKeep(w, newName, intents, down, n, holds);
  }

  lemma FaithfulStart(w: World, newName: string, intents: map<nat, (nat, Candidate)>, down: set<nat>)
    ensures FaithfulDraft(w, newName, intents, down, 0, Some(Draft([], [], 0, {})))
  {
  }

  lemma FaithfulNext(
    w: World, newName: string, intents: map<nat, (nat, Candidate)>, down: set<nat>, n: nat, d: Option<Draft>)
    requires n < |w.catalog.artifacts| && FaithfulDraft(w, newName, intents, down, n, d)
    ensures FaithfulDraft(w, newName, intents, down, n + 1, NextDraft(w, newName, intents, down, n, d))
  {
    if d.Some? {
      PlanRowStep(w, newName, intents, down, n, d.value);
    }
  }

  lemma PlanRowStep(w: World, newName: string, intents: map<nat, (nat, Candidate)>, down: set<nat>, n: nat, d: Draft)
    requires n < |w.catalog.artifacts| && FaithfulDraft(w, newName, intents, down, n, Some(d))
    ensures FaithfulDraft(w, newName, intents, down, n + 1, PlanRow(w, newName, intents, down, n, d))
  {
    var next := PlanRow(w, newName, intents, down, n, d);
    if next.Some? && next.value.blocked == [] {
      PlanRowShape(w, newName, intents, down, n, d);
      PlanRowFaithful(w, newName, intents, down, n, d);
    }
  }

  /** A row that resolves, passes inspection and shares its destination with no earlier row. */
  ghost predicate ClearRow(w: World, newName: string, intents: map<nat, (nat, Candidate)>, down: set<nat>, id: nat)
    requires id < |w.catalog.artifacts|
  {
    && Resolvable(w.catalog, newName, id)
    && (forall i :: 0 <= i < id ==> DistinctDestinations(w.catalog, newName, i, id))
    && var dest := RowDestination(w.catalog, newName, id);
       dest.Some? ==> Inspect(w.tree, down, intents, id, w.catalog.artifacts[id], dest.value).blocked == None
  }

  lemma ClearRowStep(w: World, newName: string, intents: map<nat, (nat, Candidate)>, down: set<nat>, n: nat, d: Draft)
    requires n < |w.catalog.artifacts| && FaithfulDraft(w, newName, intents, down, n, Some(d)) && d.blocked == []
    requires ClearRow(w, newName, intents, down, n)
    ensures Unblocked(PlanRow(w, newName, intents, down, n, d))
  {
    var dest := RowDestination(w.catalog, newName, n);
    if dest.Some? {
      forall p <- d.destinations
        ensures p != (w.catalog.artifacts[n].storageId, dest.value)
      {
        var k :| 0 <= k < |d.candidates| && Place(d.candidates[k]) == p;
        assert Covered(w.catalog, newName, d.candidates[k]);
        assert DistinctDestinations(w.catalog, newName, d.candidates[k].artifactId, n);
      }
    }
  }

  ghost predicate Unblocked(d: Option<Draft>) { d.Some? && d.value.blocked == [] }

  ghost predicate AllClear(w: World, newName: string, intents: map<nat, (nat, Candidate)>, down: set<nat>, n: nat)
    requires n <= |w.catalog.artifacts|
  {
    n == 0 || (AllClear(w, newName, intents, down, n - 1) && ClearRow(w, newName, intents, down, n - 1))
  }

  /** Conversely, clear rows leave the plan unblocked. */
  lemma {:induction false} ClearRowsUnblocked(
    w: World, newName: string, intents: map<nat, (nat, Candidate)>, down: set<nat>, n: nat)
    requires n <= |w.catalog.artifacts| && AllClear(w, newName, intents, down, n)
    ensures Unblocked(PlanRows(w, newName, intents, down, n))
  {
    if n > 0 {
      ClearRowsUnblocked(w, newName, intents, down, n - 1);
      UnblockedIsFaithful(w, newName, intents, down, n - 1);
      match PlanRows(w, newName, intents, down, n - 1) {
        case Some(before) => ClearRowStep(w, newName, intents, down, n - 1, before);
      }
    }
  }

  ghost predicate DistinctDestinations(cat: Catalog, newName: string, i: nat, j: nat)
    requires i < |cat.artifacts| && j < |cat.artifacts|
  {
    var a, b := cat.artifacts[i], cat.artifacts[j];
    var da, db := RowDestination(cat, newName, i), RowDestination(cat, newName, j);
    da.Some? && db.Some? && a.storageId == b.storageId ==> da != db
  }

  // ---- every row is accounted for ----

  ghost predicate Accounted(n: nat, d: Option<Draft>) {
    d.Some? ==> |d.value.candidates| + d.value.unaffected <= n
                && (d.value.blocked == [] ==> |d.value.candidates| + d.value.unaffected == n)
  }

  /** No row is counted twice, and in an unblocked plan every row is a candidate or counted as unaffected. */
  lemma PlanAccounts(w: World, newName: string, intents: map<nat, (nat, Candidate)>, down: set<nat>, n: nat)
    requires n <= |w.catalog.artifacts|
    ensures Accounted(n, PlanRows(w, newName, intents, down, n))
  {
    forall k: nat, d: Option<Draft> | k < |w.catalog.artifacts| && Accounted(k, d)
      ensures Accounted(k + 1, NextDraft(w, newName, intents, down, k, d))
    {
    }
    PlanRowsKeep(w, newName, intents, down, n, Accounted);
  }
}
