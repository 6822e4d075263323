/**
 The yt-dlp version store (src/sluicery/downloader/version.py): release rows, the `current` link
 and the version directories, which no single transaction covers.
 */
module VersionStore {
  import opened Common

  datatype ReleaseStatus = Installed | Active | Removed

  datatype Release = Release(version: string, status: ReleaseStatus, installedAt: nat, deactivatedAt: Option<nat>)

  /** A directory maps to whether its yt-dlp honours the install contract and answers with its own version. */
  datatype State = State(rows: seq<Release>, link: Option<string>, dirs: map<string, bool>, clock: nat)

  datatype StoreError = InstallFailed | UnknownVersion | BrokenVersion | CurrentVersion

  // ---- queries ----

  function Find(rows: seq<Release>, version: string): (r: Option<nat>)
    ensures r.Some? ==> r.value < |rows| && rows[r.value].version == version
    ensures r == None ==> forall i :: 0 <= i < |rows| ==> rows[i].version != version
  {
    if rows == [] then None
    else
      var before := Find(rows[..|rows| - 1], version);
      if before.Some? then before else if rows[|rows| - 1].version == version then Some(|rows| - 1) else None
  }

  function FirstActive(rows: seq<Release>): (r: Option<nat>)
    ensures r.Some? ==> r.value < |rows| && rows[r.value].status.Active?
    ensures r == None ==> forall i :: 0 <= i < |rows| ==> !rows[i].status.Active?
  {
    if rows == [] then None
    else
      var before := FirstActive(rows[..|rows| - 1]);
      if before.Some? then before else if rows[|rows| - 1].status.Active? then Some(|rows| - 1) else None
  }

  predicate Present(r: Release) { !r.status.Removed? }

  /** The present release deactivated last, other than the excluded version. */
  function LatestDeactivated(rows: seq<Release>, exclude: Option<string>): (r: Option<nat>)
    ensures r.Some? ==> r.value < |rows| && Deactivated(rows[r.value], exclude)
    ensures forall i :: 0 <= i < |rows| && Deactivated(rows[i], exclude) ==>
              r.Some? && rows[i].deactivatedAt.value <= rows[r.value].deactivatedAt.value
  {
    if rows == [] then None
    else
      var before := LatestDeactivated(rows[..|rows| - 1], exclude);
      var last := rows[|rows| - 1];
      if Deactivated(last, exclude)
        && (before == None || rows[before.value].deactivatedAt.value < last.deactivatedAt.value)
      then Some(|rows| - 1) else before
  }

  predicate Deactivated(r: Release, exclude: Option<string>) {
    Present(r) && r.deactivatedAt.Some? && Some(r.version) != exclude
  }

  predicate Ready(s: State, version: string) { version in s.dirs && s.dirs[version] }

  /** `current` points at a version that works. */
  predicate CurrentReady(s: State) { s.link.Some? && Ready(s, s.link.value) }

  // ---- activation ----

  function Demoted(rows: seq<Release>, i: nat, now: nat): (r: seq<Release>)
    ensures |r| == |rows|
  {
    match FirstActive(rows)
    case None => rows
    case Some(j) => if j == i then rows else rows[j := rows[j].(status := Installed, deactivatedAt := Some(now))]
  }

  /** The link first, then one commit. */
  function Activate(s: State, i: nat): State
    requires i < |s.rows|
  {
    var demoted := Demoted(s.rows, i, s.clock + 1);
    State(demoted[i := demoted[i].(status := Active)], Some(s.rows[i].version), s.dirs, s.clock + 1)
  }

  // ---- operations ----

  function RecordInstall(s: State, version: string): (r: (State, nat))
    ensures r.1 < |r.0.rows| && r.0.rows[r.1].version == version && r.0.link == s.link && r.0.dirs == s.dirs
  {
    match Find(s.rows, version)
    case Some(i) =>
      if s.rows[i].status.Removed? then
        (s.(rows := s.rows[i := s.rows[i].(status := Installed, installedAt := s.clock + 1)], clock := s.clock + 1), i)
      else (s, i)
    case None => (s.(rows := s.rows + [Release(version, Installed, s.clock + 1, None)], clock := s.clock + 1), |s.rows|)
  }

  /** The version asked for is there and works, so nothing is built. */
  predicate Reusable(s: State, version: string) {
    version in s.dirs && Find(s.rows, version).Some? && Present(s.rows[Find(s.rows, version).value])
      && Ready(s, version)
  }

  /** The store with a working directory for version v: a healthy one is kept unless forced. */
  function Placed(s: State, v: string, force: bool): State {
    if v in s.dirs && !force && Ready(s, v) then s else s.(dirs := s.dirs[v := true])
  }

  /** The version asked for is there and is not a `current` that needs rebuilding. */
  predicate TakesExisting(s: State, version: Option<string>, force: bool) {
    version.Some? && !force && Reusable(s, version.value) && (CurrentReady(s) || s.link != version)
  }

  /** built is what pip produced in the temporary directory; None when that failed. */
  function Install(
    s: State, version: Option<string>, force: bool, built: Option<string>): (State, Result<nat, StoreError>)
  {
    if TakesExisting(s, version, force) then
      var i := Find(s.rows, version.value).value;
      if CurrentReady(s) then (s, Ok(i)) else (Activate(s, i), Ok(i))
    else if built == None then (s, Err(InstallFailed))
    else
      var (recorded, i) := RecordInstall(Placed(s, built.value, force), built.value);
      if !CurrentReady(s) then (Activate(recorded, i), Ok(i)) else (recorded, Ok(i))
  }

  function Use(s: State, version: string): (State, Result<nat, StoreError>) {
    if version !in s.dirs then (s, Err(UnknownVersion))
    else
      match Find(s.rows, version)
      case None => (s, Err(UnknownVersion))
      case Some(i) =>
        if !Present(s.rows[i]) then (s, Err(UnknownVersion))
        else if !Ready(s, version) then (s, Err(BrokenVersion))
        else (Activate(s, i), Ok(i))
  }

  function Remove(s: State, version: string): (State, Result<(), StoreError>) {
    if s.link == Some(version) then (s, Err(CurrentVersion))
    else if version !in s.dirs then (s, Err(UnknownVersion))
    else
      var gone := s.(dirs := s.dirs - {version});
      match Find(s.rows, version)
      case None => (gone, Ok(()))
      case Some(i) => (gone.(rows := s.rows[i := s.rows[i].(status := Removed)]), Ok(()))
  }

  // ---- pruning ----

  /** Present releases listed before row i, newest installation first. */
  function Newer(rows: seq<Release>, i: nat, n: nat): nat
    requires i < |rows| && n <= |rows|
  {
    if n == 0 then 0
    else
      Newer(rows, i, n - 1)
      + if Present(rows[n - 1]) && (rows[n - 1].installedAt > rows[i].installedAt
                                    || (rows[n - 1].installedAt == rows[i].installedAt && n - 1 < i)) then 1 else 0
  }

  function PresentCount(rows: seq<Release>, n: nat): nat
    requires n <= |rows|
  {
    if n == 0 then 0 else PresentCount(rows, n - 1) + if Present(rows[n - 1]) then 1 else 0
  }

  function Protected(s: State): set<string> {
    var prior := LatestDeactivated(s.rows, None);
    (if s.link.Some? then {s.link.value} else {}) + (if prior.Some? then {s.rows[prior.value].version} else {})
  }

  /** Whether pruning to keep versions takes row i away. */
  predicate Prunes(s: State, keep: int, i: nat)
    requires i < |s.rows|
  {
    && Present(s.rows[i]) && s.rows[i].version !in Protected(s)
    && Newer(s.rows, i, |s.rows|) >= keep && Newer(s.rows, i, |s.rows|) >= |Protected(s)|
  }

  function Prune(s: State, keep: int): State {
    if PresentCount(s.rows, |s.rows|) <= keep then s
    else
      s.(rows := seq(|s.rows|, i requires 0 <= i < |s.rows| => if Prunes(s, keep, i) then s.rows[i].(status := Removed)
        else s.rows[i]),
         dirs := s.dirs - set i: nat | i < |s.rows| && Prunes(s, keep, i) :: s.rows[i].version)
  }

  /** What a failed smoke test rolls back to. */
  function RollbackChoice(s: State, exclude: string): Option<string> {
    match LatestDeactivated(s.rows, Some(exclude))
    case None => None
    case Some(i) => Some(s.rows[i].version)
  }

  // ---- every run ----

  datatype Step =
    | InstallStep(version: Option<string>, force: bool, built: Option<string>)
    | UseStep(name: string)
    | RemoveStep(name: string)
    | PruneStep(keep: int)
    | Damage(name: string)
    | CrashedSwitch(name: string)
    | CrashedInstall(version: Option<string>, force: bool, built: Option<string>, linked: bool)
    | CrashedRebuild(version: Option<string>, force: bool, built: Option<string>, left: Option<bool>)
    | CrashedRemove(name: string)
    | CrashedPrune(keep: int, rank: nat)

  /** An activation that moved the link and died before its commit. */
  function HalfActivate(s: State, i: nat): State
    requires i < |s.rows|
  {
    s.(link := Some(s.rows[i].version))
  }

  /**
   An installation whose activation, if it makes one, dies before it moves the link or half way; the release
   itself is recorded before.
   */
  function HalfInstall(s: State, version: Option<string>, force: bool, built: Option<string>, linked: bool): State {
    var (s2, r) := Install(s, version, force, built);
    if r.Err? || CurrentReady(s) then s2
    else if TakesExisting(s, version, force) then (if linked then HalfActivate(s, r.value) else s)
    else
      var (recorded, i) := RecordInstall(Placed(s, built.value, force), built.value);
      if linked then HalfActivate(recorded, i) else recorded
  }

  /** The installation puts what it built where the version's directory is or would be. */
  predicate Rebuilds(s: State, version: Option<string>, force: bool, built: Option<string>) {
    !TakesExisting(s, version, force) && built.Some? && (force || !Ready(s, built.value))
  }

  /**
   An installation that dies before the release is recorded: after deleting the old directory, or after putting
   the new one in its place, whether or not that one works yet.
   */
  function HalfRebuild(s: State, v: string, left: Option<bool>): State {
    s.(dirs := match left case None => s.dirs - {v} case Some(works) => s.dirs[v := works])
  }

  /** The versions a pruning has deleted when it dies, having treated the releases up to a rank. */
  function Taken(s: State, keep: int, rank: nat): set<string> {
    if PresentCount(s.rows, |s.rows|) <= keep then {}
    else set i: nat | i < |s.rows| && Prunes(s, keep, i) && Newer(s.rows, i, |s.rows|) < rank :: s.rows[i].version
  }

  /**
   Damage is a directory that stops working. A crashed switch or installation died between link and commit, a
   crashed rebuild, removal or pruning between its directories and its commit.
   */
  function Apply(s: State, step: Step): State {
    match step
    case InstallStep(version, force, built) => Install(s, version, force, built).0
    case UseStep(name) => Use(s, name).0
    case RemoveStep(name) => Remove(s, name).0
    case PruneStep(keep) => Prune(s, keep)
    case Damage(name) => if name in s.dirs then s.(dirs := s.dirs[name := false]) else s
    case CrashedSwitch(name) => if Use(s, name).1.Ok? then HalfActivate(s, Find(s.rows, name).value) else s
    case CrashedInstall(version, force, built, linked) => HalfInstall(s, version, force, built, linked)
    case CrashedRebuild(version, force, built, left) =>
      if Rebuilds(s, version, force, built) then HalfRebuild(s, built.value, left) else s
    case CrashedRemove(name) => if Remove(s, name).1.Ok? then s.(dirs := s.dirs - {name}) else s
    case CrashedPrune(keep, rank) => s.(dirs := s.dirs - Taken(s, keep, rank))
  }

  function Execute(s: State, steps: seq<Step>): State {
    if steps == [] then s else Apply(Execute(s, steps[..|steps| - 1]), steps[|steps| - 1])
  }

  ghost predicate Unique(rows: seq<Release>) {
    forall i, j :: 0 <= i < j < |rows| ==> rows[i].version != rows[j].version
  }

  ghost predicate OneActive(rows: seq<Release>) {
    forall i, j :: 0 <= i < |rows| && 0 <= j < |rows| && rows[i].status.Active? && rows[j].status.Active? ==> i == j
  }

  /** The version has a row that is not REMOVED. */
  ghost predicate HasRow(s: State, version: string) {
    exists i :: 0 <= i < |s.rows| && s.rows[i].version == version && Present(s.rows[i])
  }

  /** The link names a present release. */
  ghost predicate LinkHolds(s: State) { s.link.Some? ==> HasRow(s, s.link.value) }

  /** Where a release is ACTIVE, something is `current`. */
  ghost predicate ActiveLinked(s: State) { FirstActive(s.rows).Some? ==> s.link.Some? }

  ghost predicate Kept(s: State) { Unique(s.rows) && OneActive(s.rows) && LinkHolds(s) && ActiveLinked(s) }

  /** A release the database has and the disk has not. */
  ghost predicate Missing(s: State, version: string) { HasRow(s, version) && version !in s.dirs }

  /** The ACTIVE release is the one the link names. */
  ghost predicate Agrees(s: State) {
    && (forall i :: 0 <= i < |s.rows| && s.rows[i].status.Active? ==> s.link == Some(s.rows[i].version))
    && (s.link.Some? ==> FirstActive(s.rows).Some?)
  }

  lemma ActivateKeeps(s: State, i: nat)
    requires Kept(s) && i < |s.rows|
    ensures Kept(Activate(s, i)) && Agrees(Activate(s, i))
  {
    var rows := Activate(s, i).rows;
    assert rows[i].status.Active? && rows[i].version == s.rows[i].version;
    forall k | 0 <= k < |rows| && k != i
      ensures !rows[k].status.Active? && rows[k].version == s.rows[k].version
    {
      var active := FirstActive(s.rows);
      if active.Some? && s.rows[k].status.Active? {
        assert k == active.value;
      }
    }
  }

  lemma RecordKeeps(s: State, version: string)
    requires Kept(s)
    ensures var (s2, i) := RecordInstall(s, version);
            && Kept(s2) && i < |s2.rows| && s2.rows[i].version == version && s2.link == s.link && s2.dirs == s.dirs
            && (Agrees(s) ==> Agrees(s2))
  {
    var (s2, i) := RecordInstall(s, version);
    RecordKeepsActive(s, version);
    RecordKeepsUnique(s, version);
    if s.link.Some? {
      var k :| 0 <= k < |s.rows| && s.rows[k].version == s.link.value && Present(s.rows[k]);
      assert s2.rows[k].version == s.link.value && Present(s2.rows[k]);
    }
  }

  lemma RecordKeepsUnique(s: State, version: string)
    requires Unique(s.rows) && OneActive(s.rows)
    ensures var s2 := RecordInstall(s, version).0; Unique(s2.rows) && OneActive(s2.rows)
  {
  }

  lemma InstallKeeps(s: State, version: Option<string>, force: bool, built: Option<string>)
    requires Kept(s)
    ensures Kept(Install(s, version, force, built).0)
    ensures Agrees(s) ==> Agrees(Install(s, version, force, built).0)
  {
    if TakesExisting(s, version, force) {
      ActivateKeeps(s, Find(s.rows, version.value).value);
    } else if built.Some? {
      var v := built.value;
      var placed := Placed(s, v, force);
      RecordKeeps(placed, v);
      var (recorded, i) := RecordInstall(placed, v);
      ActivateKeeps(recorded, i);
    }
  }

  /**
   A successful installation leaves its release present with a working directory, and `current`
   working, whatever was damaged before.
   */
  lemma InstallHeals(s: State, version: Option<string>, force: bool, built: Option<string>)
    requires Install(s, version, force, built).1.Ok?
    ensures var (s2, r) := Install(s, version, force, built);
            && r.value < |s2.rows| && Present(s2.rows[r.value]) && Ready(s2, s2.rows[r.value].version)
               && CurrentReady(s2)
            && (CurrentReady(s) ==> s2.link == s.link)
               && (!CurrentReady(s) ==> s2.link == Some(s2.rows[r.value].version))
            && (version.Some? && Reusable(s, version.value) && CurrentReady(s) && !force ==> s2 == s)
  {
  }

  lemma RemoveKeeps(s: State, version: string)
    requires Kept(s)
    ensures Kept(Remove(s, version).0)
    ensures Agrees(s) ==> Agrees(Remove(s, version).0)
  {
    var s2 := Remove(s, version).0;
    if s2 != s {
      if s.link.Some? {
        var k :| 0 <= k < |s.rows| && s.rows[k].version == s.link.value && Present(s.rows[k]);
        assert s2.rows[k] == s.rows[k];
      }
      var active := FirstActive(s.rows);
      if active.Some? && Agrees(s) {
        assert s2.rows[active.value].status.Active?;
      }
    }
  }

  /** Pruning spares `current` and the release deactivated last, rows and directories alike. */
  lemma PruneProtects(s: State, keep: int, i: nat)
    requires i < |s.rows|
    requires s.link == Some(s.rows[i].version) || LatestDeactivated(s.rows, None) == Some(i)
    ensures |Prune(s, keep).rows| == |s.rows| && Prune(s, keep).rows[i] == s.rows[i]
    ensures s.rows[i].version in s.dirs ==> s.rows[i].version in Prune(s, keep).dirs
  {
  }

  // ---- what pruning leaves ----

  /** Release j was installed after release i; the order of rows decides between equal times. */
  predicate InstalledAfter(rows: seq<Release>, j: nat, i: nat)
    requires i < |rows| && j < |rows|
  {
    rows[j].installedAt > rows[i].installedAt || (rows[j].installedAt == rows[i].installedAt && j < i)
  }

  function PresentRows(rows: seq<Release>): set<nat> { set i: nat | i < |rows| && Present(rows[i]) }

  function NewerRows(rows: seq<Release>, among: set<nat>, i: nat): set<nat>
    requires i < |rows| && forall j <- among :: j < |rows|
  {
    set j | j in among && InstalledAfter(rows, j, i)
  }

  lemma {:induction false} NewerCount(rows: seq<Release>, i: nat, n: nat)
    requires i < |rows| && n <= |rows|
    ensures Newer(rows, i, n) == |set j: nat | j < n && Present(rows[j]) && InstalledAfter(rows, j, i)|
  {
    if n > 0 {
      NewerCount(rows, i, n - 1);
      var before := set j: nat | j < n - 1 && Present(rows[j]) && InstalledAfter(rows, j, i);
      assert (set j: nat | j < n && Present(rows[j]) && InstalledAfter(rows, j, i))
          == before + if Present(rows[n - 1]) && InstalledAfter(rows, n - 1, i) then {n - 1} else {};
    }
  }

  lemma {:induction false} PresentCountIs(rows: seq<Release>, n: nat)
    requires n <= |rows|
    ensures PresentCount(rows, n) == |set j: nat | j < n && Present(rows[j])|
  {
    if n > 0 {
      PresentCountIs(rows, n - 1);
      var before := set j: nat | j < n - 1 && Present(rows[j]);
      assert (set j: nat | j < n && Present(rows[j])) == before + if Present(rows[n - 1]) then {n - 1} else {};
    }
  }

  /** The release of a set that was installed first. */
  lemma {:induction false} OldestOf(rows: seq<Release>, among: set<nat>) returns (oldest: nat)
    requires among != {} && forall j <- among :: j < |rows|
    ensures oldest in among && forall j <- among :: j != oldest ==> InstalledAfter(rows, j, oldest)
    decreases among
  {
    var x :| x in among;
    oldest := x;
    if among != {x} {
      var y := OldestOf(rows, among - {x});
      oldest := if InstalledAfter(rows, x, y) then y else x;
      forall j <- among
        ensures j != oldest ==> InstalledAfter(rows, j, oldest)
      {
        assert j != y && j != x ==> InstalledAfter(rows, j, y);
      }
    }
  }

  /** The oldest release counts for no other one. */
  lemma WithoutOldest(rows: seq<Release>, among: set<nat>, oldest: nat, i: nat)
    requires (forall j <- among :: j < |rows|) && oldest in among && i in among
    requires forall j <- among :: j != oldest ==> InstalledAfter(rows, j, oldest)
    ensures NewerRows(rows, among, i) == if i == oldest then among - {oldest} else NewerRows(rows, among - {oldest}, i)
  {
  }

  /** Of any set of releases, exactly min(k, size) have fewer than k newer ones in it. */
  lemma {:induction false} NewestCount(rows: seq<Release>, among: set<nat>, k: nat)
    requires forall j <- among :: j < |rows|
    ensures |Newest(rows, among, k)| == if k <= |among| then k else |among|
    decreases among
  {
    if among != {} {
      var oldest := OldestOf(rows, among);
      var rest := among - {oldest};
      NewestCount(rows, rest, k);
      forall i <- among
        ensures i in Newest(rows, among, k) <==> if i == oldest then |rest| < k else i in Newest(rows, rest, k)
      {
        WithoutOldest(rows, among, oldest, i);
      }
      assert Newest(rows, among, k) == Newest(rows, rest, k) + if |rest| < k then {oldest} else {};
    }
  }

  function Newest(rows: seq<Release>, among: set<nat>, k: nat): set<nat>
    requires forall j <- among :: j < |rows|
  {
    set i | i in among && |NewerRows(rows, among, i)| < k
  }

  /** Exactly which releases pruning takes: unprotected ones with enough newer present releases. */
  lemma PruneExactly(s: State, keep: int, i: nat)
    requires i < |s.rows|
    ensures var after := Prune(s, keep);
            && |after.rows| == |s.rows| && after.rows[i].version == s.rows[i].version
            && (Present(s.rows[i]) && !Present(after.rows[i]) <==>
                && i in PresentRows(s.rows) && s.rows[i].version !in Protected(s) && |PresentRows(s.rows)| > keep
                && |NewerRows(s.rows, PresentRows(s.rows), i)| >= keep
                && |NewerRows(s.rows, PresentRows(s.rows), i)| >= |Protected(s)|)
            && (Present(s.rows[i]) && !Present(after.rows[i]) ==> s.rows[i].version !in after.dirs)
  {
    NewerCount(s.rows, i, |s.rows|);
    PresentCountIs(s.rows, |s.rows|);
    assert NewerRows(s.rows, PresentRows(s.rows), i) == set j: nat | j < |s.rows| && Present(s.rows[j])
           && InstalledAfter(s.rows, j, i);
  }

  /** Pruning leaves the number of releases to keep, as far as there are that many, and they are the newest. */
  lemma PruneLeavesEnough(s: State, keep: nat)
    ensures |PresentRows(Prune(s, keep).rows)| >= if keep <= |PresentRows(s.rows)| then keep else |PresentRows(s.rows)|
    ensures forall i <- PresentRows(s.rows) :: |NewerRows(s.rows, PresentRows(s.rows), i)| < keep
              ==> i in PresentRows(Prune(s, keep).rows)
  {
    var before, after := PresentRows(s.rows), PresentRows(Prune(s, keep).rows);
    var newest := Newest(s.rows, before, keep);
    NewestCount(s.rows, before, keep);
    forall i <- newest
      ensures i in after
    {
      PruneExactly(s, keep, i);
    }
    SubsetSize(newest, after);
  }

  lemma SubsetSize(a: set<nat>, b: set<nat>)
    requires a <= b
    ensures |a| <= |b|
  {
    assert b == a + (b - a);
  }

  lemma PruneKeeps(s: State, keep: int)
    requires Kept(s)
    ensures Kept(Prune(s, keep))
    ensures Agrees(s) ==> Agrees(Prune(s, keep))
  {
    var s2 := Prune(s, keep);
    if s.link.Some? {
      var k :| 0 <= k < |s.rows| && s.rows[k].version == s.link.value && Present(s.rows[k]);
      PruneProtects(s, keep, k);
      assert s2.rows[k] == s.rows[k];
    }
    if Agrees(s) && s.link.Some? {
      var a := FirstActive(s.rows).value;
      PruneProtects(s, keep, a);
      assert s2.rows[a].status.Active?;
    }
  }

  /** The version a step switches to, whether or not it dies before the commit. */
  function Activation(s: State, step: Step): Option<string> {
    match step
    case UseStep(name) => if Use(s, name).1.Ok? then Some(name) else None
    case CrashedSwitch(name) => if Use(s, name).1.Ok? then Some(name) else None
    case InstallStep(version, force, built) => InstallActivation(s, version, force, built)
    case CrashedInstall(version, force, built, linked) =>
      if linked then InstallActivation(s, version, force, built) else None
    case _ => None
  }

  function InstallActivation(s: State, version: Option<string>, force: bool, built: Option<string>): Option<string> {
    if CurrentReady(s) then None else if TakesExisting(s, version, force) then version else built
  }

  predicate Dies(step: Step) { step.CrashedSwitch? || step.CrashedInstall? }

  function ActiveVersion(s: State): Option<string> {
    match FirstActive(s.rows)
    case None => None
    case Some(i) => Some(s.rows[i].version)
  }

  lemma ActiveIs(s: State)
    requires Kept(s)
    ensures Agrees(s) <==> s.link == ActiveVersion(s)
  {
  }

  /** A half-done activation agrees exactly when it goes to the release that is ACTIVE anyway. */
  lemma HalfActivateKeeps(s: State, i: nat)
    requires Kept(s) && i < |s.rows| && Present(s.rows[i])
    ensures Kept(HalfActivate(s, i))
    ensures Agrees(HalfActivate(s, i)) <==> ActiveVersion(s) == Some(s.rows[i].version)
  {
    ActiveIs(HalfActivate(s, i));
  }

  lemma RecordKeepsActive(s: State, version: string)
    requires OneActive(s.rows)
    ensures var (s2, i) := RecordInstall(s, version); FirstActive(s2.rows) == FirstActive(s.rows) && Present(s2.rows[i])
    ensures ActiveVersion(RecordInstall(s, version).0) == ActiveVersion(s)
  {
    var (s2, i) := RecordInstall(s, version);
    var active := FirstActive(s.rows);
    if active.Some? {
      assert s2.rows[active.value].status.Active?;
    }
  }

  lemma HalfInstallKeeps(s: State, version: Option<string>, force: bool, built: Option<string>, linked: bool)
    requires Kept(s)
    ensures Kept(HalfInstall(s, version, force, built, linked))
    ensures var v := if linked then InstallActivation(s, version, force, built) else None;
            Agrees(HalfInstall(s, version, force, built, linked))
            <==> if v.Some? then ActiveVersion(s) == v else Agrees(s)
  {
    HalfInstallIs(s, version, force, built, linked);
    if CurrentReady(s) {
      ReadyInstallKeeps(s, version, force, built);
    } else if TakesExisting(s, version, force) {
      HalfActivateKeeps(s, Find(s.rows, version.value).value);
    } else if built.Some? {
      BuiltHalfKeeps(s, built.value, force);
    }
  }

  lemma ReadyInstallKeeps(s: State, version: Option<string>, force: bool, built: Option<string>)
    requires Kept(s) && CurrentReady(s)
    ensures Kept(Install(s, version, force, built).0)
    ensures Agrees(Install(s, version, force, built).0) <==> Agrees(s)
  {
    InstallKeeps(s, version, force, built);
    InstallAgrees(s, version, force, built);
  }

  /** The cases of an installation that dies at its activation. */
  lemma HalfInstallIs(s: State, version: Option<string>, force: bool, built: Option<string>, linked: bool)
    ensures var after := HalfInstall(s, version, force, built, linked);
            if CurrentReady(s) then after == Install(s, version, force, built).0
            else if TakesExisting(s, version, force) then
              after == if linked then HalfActivate(s, Find(s.rows, version.value).value) else s
            else if built.Some? then
              var (recorded, i) := RecordInstall(Placed(s, built.value, force), built.value);
              recorded.rows[i].version == built.value && after == if linked then HalfActivate(recorded, i) else recorded
            else after == s
  {
  }

  lemma BuiltHalfKeeps(s: State, built: string, force: bool)
    requires Kept(s)
    ensures var (recorded, i) := RecordInstall(Placed(s, built, force), built);
            && Kept(recorded) && (Agrees(recorded) <==> Agrees(s))
            && Kept(HalfActivate(recorded, i))
               && (Agrees(HalfActivate(recorded, i)) <==> ActiveVersion(s) == Some(built))
  {
    var placed := Placed(s, built, force);
    RecordKeeps(placed, built);
    RecordKeepsActive(placed, built);
    var (recorded, i) := RecordInstall(placed, built);
    HalfActivateKeeps(recorded, i);
    RecordedAgrees(placed, built);
  }

  /** Recording a release changes nothing about the agreement. */
  lemma RecordedAgrees(s: State, version: string)
    requires Kept(s)
    ensures Agrees(RecordInstall(s, version).0) <==> Agrees(s)
  {
    RecordKeeps(s, version);
    RecordKeepsActive(s, version);
    ActiveIs(s);
    ActiveIs(RecordInstall(s, version).0);
  }

  /** Without an activation an installation changes nothing about the agreement. */
  lemma InstallAgrees(s: State, version: Option<string>, force: bool, built: Option<string>)
    requires Kept(s) && CurrentReady(s)
    ensures Agrees(Install(s, version, force, built).0) <==> Agrees(s)
  {
    InstallKeeps(s, version, force, built);
    if !TakesExisting(s, version, force) && built.Some? {
      RecordedAgrees(Placed(s, built.value, force), built.value);
    }
  }

  lemma InstallSwitches(s: State, version: Option<string>, force: bool, built: Option<string>)
    requires Kept(s) && InstallActivation(s, version, force, built).Some?
    ensures Agrees(Install(s, version, force, built).0)
  {
    if TakesExisting(s, version, force) {
      ActivateKeeps(s, Find(s.rows, version.value).value);
    } else {
      var placed := Placed(s, built.value, force);
      RecordKeeps(placed, built.value);
      var (recorded, i) := RecordInstall(placed, built.value);
      ActivateKeeps(recorded, i);
    }
  }

  /** A removed release was ACTIVE or not; in either case the store agrees afterwards exactly when it did before. */
  lemma RemoveAgrees(s: State, version: string)
    requires Kept(s)
    ensures Agrees(Remove(s, version).0) <==> Agrees(s)
  {
    RemoveKeeps(s, version);
    var s2 := Remove(s, version).0;
    if s2 != s && !Agrees(s) {
      ActiveIs(s);
      ActiveIs(s2);
      StillNotActive(s, s2);
    }
  }

  lemma PruneAgrees(s: State, keep: int)
    requires Kept(s)
    ensures Agrees(Prune(s, keep)) <==> Agrees(s)
  {
    PruneKeeps(s, keep);
    if !Agrees(s) {
      ActiveIs(s);
      ActiveIs(Prune(s, keep));
      StillNotActive(s, Prune(s, keep));
    }
  }

  /** Rows that only become removed make nothing agree that did not. */
  lemma StillNotActive(s: State, s2: State)
    requires Kept(s) && Kept(s2) && s2.link == s.link && |s2.rows| == |s.rows| && s.link != ActiveVersion(s)
    requires forall i :: 0 <= i < |s.rows| ==>
               s2.rows[i].version == s.rows[i].version && (s2.rows[i].status.Active? ==> s.rows[i].status.Active?)
    ensures s2.link != ActiveVersion(s2)
  {
    var now := FirstActive(s2.rows);
    if now.Some? {
      assert s.rows[now.value].status.Active?;
      assert FirstActive(s.rows) == now;
    }
  }

  /**
   After any step the store agrees exactly when the step completed a switch, or died half way into a
   switch to the release that is ACTIVE anyway, or switched nothing and the store agreed before.
   */
  lemma StepAgreesExactly(s: State, step: Step)
    requires Kept(s)
    ensures Kept(Apply(s, step))
    ensures Agrees(Apply(s, step))
            <==> match Activation(s, step)
                 case None => Agrees(s)
                 case Some(v) => Dies(step) ==> ActiveVersion(s) == Some(v)
  {
    match step {
      case InstallStep(version, force, built) =>
        InstallKeeps(s, version, force, built);
        if CurrentReady(s) {
          InstallAgrees(s, version, force, built);
        } else if InstallActivation(s, version, force, built).Some? {
          InstallSwitches(s, version, force, built);
        }
      case UseStep(name) =>
        if Use(s, name).1.Ok? {
          ActivateKeeps(s, Find(s.rows, name).value);
        }
      case RemoveStep(name) =>
        RemoveKeeps(s, name);
        RemoveAgrees(s, name);
      case PruneStep(keep) =>
        PruneKeeps(s, keep);
        PruneAgrees(s, keep);
      case Damage(name) =>
      case CrashedSwitch(name) =>
        if Use(s, name).1.Ok? {
          HalfActivateKeeps(s, Find(s.rows, name).value);
        }
      case CrashedInstall(version, force, built, linked) => HalfInstallKeeps(s, version, force, built, linked);
      case CrashedRebuild(_, _, _, _) =>
      case CrashedRemove(_) =>
      case CrashedPrune(_, _) =>
    }
  }

  lemma StepKeeps(s: State, step: Step)
    requires Kept(s)
    ensures Kept(Apply(s, step))
    ensures Agrees(s) && !Dies(step) ==> Agrees(Apply(s, step))
  {
    StepAgreesExactly(s, step);
  }

  // ---- what has a directory ----

  /** What a step makes of a version: its directory put in place, deleted with its row, or deleted alone. */
  datatype Fate = Untouched | Restored | Deleted | Lost

  function InstallFate(
    s: State, version: Option<string>, force: bool, built: Option<string>, v: string): Fate
  {
    if !TakesExisting(s, version, force) && built == Some(v) then Restored else Untouched
  }

  /** Whether a pruning that is completed takes this version. */
  predicate Pruned(s: State, keep: int, v: string) {
    PresentCount(s.rows, |s.rows|) > keep && exists i :: 0 <= i < |s.rows| && s.rows[i].version == v
                                               && Prunes(s, keep, i)
  }

  function FateOf(s: State, step: Step, v: string): Fate {
    match step
    case InstallStep(version, force, built) => InstallFate(s, version, force, built, v)
    case CrashedInstall(version, force, built, _) => InstallFate(s, version, force, built, v)
    case RemoveStep(name) => if name == v && Remove(s, name).1.Ok? then Deleted else Untouched
    case PruneStep(keep) => if Pruned(s, keep, v) then Deleted else Untouched
    case CrashedRebuild(version, force, built, left) =>
      if Rebuilds(s, version, force, built) && built == Some(v) then (if left.Some? then Restored else Lost)
      else Untouched
    case CrashedRemove(name) => if name == v && Remove(s, name).1.Ok? then Lost else Untouched
    case CrashedPrune(keep, rank) => if v in Taken(s, keep, rank) then Lost else Untouched
    case _ => Untouched
  }

  lemma ActivateKeepsRow(s: State, i: nat, v: string)
    requires i < |s.rows| && Present(s.rows[i])
    ensures HasRow(Activate(s, i), v) <==> HasRow(s, v)
  {
    var rows := Activate(s, i).rows;
    forall k | 0 <= k < |s.rows|
      ensures rows[k].version == s.rows[k].version && (Present(rows[k]) <==> Present(s.rows[k]))
    {
    }
    RowsAlike(s, Activate(s, i), v);
  }

  lemma RowsAlike(s: State, s2: State, v: string)
    requires |s2.rows| == |s.rows|
    requires forall k :: 0 <= k < |s.rows| && s.rows[k].version == v ==>
               s2.rows[k].version == v && (Present(s2.rows[k]) <==> Present(s.rows[k]))
    requires forall k :: 0 <= k < |s.rows| && s.rows[k].version != v ==> s2.rows[k].version != v
    ensures HasRow(s2, v) <==> HasRow(s, v)
  {
    if HasRow(s, v) {
      var k :| 0 <= k < |s.rows| && s.rows[k].version == v && Present(s.rows[k]);
      assert Present(s2.rows[k]) && s2.rows[k].version == v;
    }
    if HasRow(s2, v) {
      var k :| 0 <= k < |s2.rows| && s2.rows[k].version == v && Present(s2.rows[k]);
      assert Present(s.rows[k]) && s.rows[k].version == v;
    }
  }

  lemma RecordKeepsRow(s: State, version: string, v: string)
    requires version != v
    ensures HasRow(RecordInstall(s, version).0, v) <==> HasRow(s, v)
  {
    var (s2, i) := RecordInstall(s, version);
    if HasRow(s, v) {
      var k :| 0 <= k < |s.rows| && s.rows[k].version == v && Present(s.rows[k]);
      assert s2.rows[k] == s.rows[k];
    }
    if HasRow(s2, v) {
      var k :| 0 <= k < |s2.rows| && s2.rows[k].version == v && Present(s2.rows[k]);
      assert k < |s.rows| && s.rows[k] == s2.rows[k];
    }
  }

  lemma InstallMissing(s: State, version: Option<string>, force: bool, built: Option<string>, v: string)
    requires Kept(s)
    ensures var missing := if InstallFate(s, version, force, built, v).Restored? then false else Missing(s, v);
            Missing(Install(s, version, force, built).0, v) <==> missing
  {
    if TakesExisting(s, version, force) {
      ActivateKeepsRow(s, Find(s.rows, version.value).value, v);
    } else if built.Some? {
      BuiltMissing(s, built.value, force, v);
    }
  }

  lemma HalfInstallMissing(
    s: State, version: Option<string>, force: bool, built: Option<string>, linked: bool, v: string)
    requires Kept(s)
    ensures Missing(HalfInstall(s, version, force, built, linked), v)
            <==> if InstallFate(s, version, force, built, v).Restored? then false else Missing(s, v)
  {
    InstallMissing(s, version, force, built, v);
    if !TakesExisting(s, version, force) && built.Some? {
      BuiltMissing(s, built.value, force, v);
    }
  }

  /** What the built version's directory and row, and perhaps its activation, make of a version. */
  lemma BuiltMissing(s: State, built: string, force: bool, v: string)
    requires Kept(s)
    ensures var (recorded, i) := RecordInstall(Placed(s, built, force), built);
            && (Missing(recorded, v) <==> built != v && Missing(s, v))
            && (Missing(Activate(recorded, i), v) <==> built != v && Missing(s, v))
            && (Missing(HalfActivate(recorded, i), v) <==> built != v && Missing(s, v))
  {
    var placed := Placed(s, built, force);
    var (recorded, i) := RecordInstall(placed, built);
    RecordKeepsActive(placed, built);
    ActivateKeepsRow(recorded, i, v);
    if built != v {
      RecordKeepsRow(placed, built, v);
    }
  }

  lemma RemoveMissing(s: State, name: string, v: string)
    requires Kept(s)
    ensures Missing(Remove(s, name).0, v) <==> Missing(s, v) && !(name == v && Remove(s, name).1.Ok?)
  {
    var s2 := Remove(s, name).0;
    if name != v {
      RowsAlike(s, s2, v);
    } else if Remove(s, name).1.Ok? {
      forall k | 0 <= k < |s.rows| && s.rows[k].version == v
        ensures Find(s.rows, v) == Some(k)
      {
        assert Unique(s.rows);
      }
    }
  }

  lemma PruneMissing(s: State, keep: int, v: string)
    requires Kept(s)
    ensures Missing(Prune(s, keep), v) <==> Missing(s, v) && !Pruned(s, keep, v)
  {
    var s2 := Prune(s, keep);
    if Pruned(s, keep, v) {
      var i :| 0 <= i < |s.rows| && s.rows[i].version == v && Prunes(s, keep, i);
      forall k | 0 <= k < |s.rows| && s.rows[k].version == v
        ensures k == i
      {
        assert k < i || i < k || k == i;
      }
    } else if PresentCount(s.rows, |s.rows|) > keep {
      RowsAlike(s, s2, v);
    }
  }

  /** After a step the database has a release the disk lacks exactly when the step lost it, or left it lost. */
  lemma StepMissing(s: State, step: Step, v: string)
    requires Kept(s)
    ensures Missing(Apply(s, step), v)
            <==> match FateOf(s, step, v)
                 case Untouched => Missing(s, v)
                 case Restored => false
                 case Deleted => false
                 case Lost => HasRow(s, v)
  {
    match step {
      case InstallStep(version, force, built) => InstallMissing(s, version, force, built, v);
      case CrashedInstall(version, force, built, linked) => HalfInstallMissing(s, version, force, built, linked, v);
      case UseStep(name) =>
        if Use(s, name).1.Ok? {
          ActivateKeepsRow(s, Find(s.rows, name).value, v);
        }
      case RemoveStep(name) => RemoveMissing(s, name, v);
      case PruneStep(keep) => PruneMissing(s, keep, v);
      case _ =>
    }
  }

  const EMPTY := State([], None, map[], 0)

  /** The last switch of the run died half way, and it was one to a release that was not ACTIVE. */
  ghost predicate HalfDone(steps: seq<Step>) {
    steps != []
    && var s, step := Execute(EMPTY, steps[..|steps| - 1]), steps[|steps| - 1];
       match Activation(s, step)
       case None => HalfDone(steps[..|steps| - 1])
       case Some(v) => Dies(step) && ActiveVersion(s) != Some(v)
  }

  /** The last thing the run did to the version's directory was to delete it and die, while the version had its row. */
  ghost predicate LeftLost(steps: seq<Step>, v: string) {
    steps != []
    && var s, step := Execute(EMPTY, steps[..|steps| - 1]), steps[|steps| - 1];
       match FateOf(s, step, v)
       case Untouched => LeftLost(steps[..|steps| - 1], v)
       case Restored => false
       case Deleted => false
       case Lost => HasRow(s, v)
  }

  /** The link names a directory that is not there. */
  ghost predicate Dangles(s: State) { s.link.Some? && s.link.value !in s.dirs }

  /**
   In every reachable state at most one release is ACTIVE and `current` names a release that has its row. The
   ACTIVE release is the one `current` names exactly when the last switch was not left half done; and a release
   of the database has no directory exactly when a rebuild, removal or pruning died after deleting it and
   nothing has put it back or removed its row since.
   */
  lemma {:induction false} StoreAgrees(steps: seq<Step>, v: string)
    ensures Kept(Execute(EMPTY, steps))
    ensures Agrees(Execute(EMPTY, steps)) <==> !HalfDone(steps)
    ensures Missing(Execute(EMPTY, steps), v) <==> LeftLost(steps, v)
  {
    if steps != [] {
      var s, step := Execute(EMPTY, steps[..|steps| - 1]), steps[|steps| - 1];
      StoreAgrees(steps[..|steps| - 1], v);
      StepAgreesExactly(s, step);
      StepMissing(s, step, v);
    }
  }

  /** So `current` dangles exactly when that has happened to the version it names. */
  lemma DanglesExactly(steps: seq<Step>)
    ensures var s := Execute(EMPTY, steps); Dangles(s) <==> s.link.Some? && LeftLost(steps, s.link.value)
  {
    var s := Execute(EMPTY, steps);
    StoreAgrees(steps, if s.link.Some? then s.link.value else "");
  }

  /**
   Every completed switch or installation that makes a release current ends it, and nothing but a lost rebuild
   starts it.
   */
  lemma StepDangles(s: State, step: Step)
    requires Kept(s)
    ensures Dangles(Apply(s, step))
            <==> Activation(s, step) == None && s.link.Some?
                 && match FateOf(s, step, s.link.value)
                    case Untouched => Dangles(s)
                    case Restored => false
                    case Deleted => false
                    case Lost => step.CrashedRebuild?
  {
    match step {
      case InstallStep(version, force, built) => InstallDangles(s, version, force, built);
      case CrashedInstall(version, force, built, linked) => HalfInstallDangles(s, version, force, built, linked);
      case _ =>
    }
  }

  lemma InstallDangles(s: State, version: Option<string>, force: bool, built: Option<string>)
    requires Kept(s)
    ensures Dangles(Install(s, version, force, built).0)
            <==> InstallActivation(s, version, force, built) == None && Dangles(s)
  {
  }

  lemma HalfInstallDangles(s: State, version: Option<string>, force: bool, built: Option<string>, linked: bool)
    requires Kept(s)
    ensures Dangles(HalfInstall(s, version, force, built, linked))
            <==> Dangles(s) && Activation(s, CrashedInstall(version, force, built, linked)) == None
                 && InstallFate(s, version, force, built, s.link.value).Untouched?
  {
  }

  // ---- rolling back ----

  /** Row a was deactivated last, is still there, and b is current. */
  ghost predicate RollsBackTo(s: State, a: nat, b: string) {
    && Kept(s) && Agrees(s) && s.link == Some(b)
    && a < |s.rows| && s.rows[a].version != b
    && Present(s.rows[a]) && s.rows[a].deactivatedAt.Some?
    && (forall i :: 0 <= i < |s.rows| && i != a && s.rows[i].deactivatedAt.Some? ==>
          s.rows[i].deactivatedAt.value < s.rows[a].deactivatedAt.value)
  }

  ghost predicate Clocked(s: State) {
    forall i :: 0 <= i < |s.rows| && s.rows[i].deactivatedAt.Some? ==> s.rows[i].deactivatedAt.value <= s.clock
  }

  lemma ChoiceIsLatest(s: State, a: nat, b: string)
    requires RollsBackTo(s, a, b)
    ensures RollbackChoice(s, b) == Some(s.rows[a].version)
  {
    assert Deactivated(s.rows[a], Some(b));
  }

  /** Switching makes the release that was active the rollback target. */
  lemma SwitchSetsTarget(s: State, i: nat, a: nat)
    requires Kept(s) && Clocked(s) && i < |s.rows|
    requires FirstActive(s.rows) == Some(a) && a != i
    ensures RollsBackTo(Activate(s, i), a, s.rows[i].version)
  {
    ActivateKeeps(s, i);
    assert s.rows[a].version != s.rows[i].version by {
      if a < i { assert Unique(s.rows); } else { assert Unique(s.rows); }
    }
  }

  /** Activating the release that is already active changes no deactivation. */
  lemma SameAgain(s: State, i: nat, a: nat, b: string)
    requires RollsBackTo(s, a, b) && i < |s.rows| && s.rows[i].version == b
    ensures RollsBackTo(Activate(s, i), a, b)
  {
    ActivateKeeps(s, i);
    var active := FirstActive(s.rows).value;
    assert s.rows[active].version == b;
    assert active == i by {
      assert Unique(s.rows);
    }
  }

  lemma RecordKeepsTarget(s: State, version: string, a: nat, b: string)
    requires RollsBackTo(s, a, b)
    ensures RollsBackTo(RecordInstall(s, version).0, a, b)
  {
    RecordKeeps(s, version);
  }

  lemma InstallKeepsTarget(s: State, version: Option<string>, force: bool, built: Option<string>, a: nat, b: string)
    requires RollsBackTo(s, a, b) && Install(s, version, force, built).0.link == Some(b)
    ensures RollsBackTo(Install(s, version, force, built).0, a, b)
  {
    if TakesExisting(s, version, force) {
      if !CurrentReady(s) {
        SameAgain(s, Find(s.rows, version.value).value, a, b);
      }
    } else if built.Some? {
      var v := built.value;
      var placed := Placed(s, v, force);
      assert RollsBackTo(placed, a, b);
      RecordKeepsTarget(placed, v, a, b);
      RecordKeeps(placed, v);
      var (recorded, i) := RecordInstall(placed, v);
      if !CurrentReady(s) {
        SameAgain(recorded, i, a, b);
      }
    }
  }

  lemma UseKeepsTarget(s: State, name: string, a: nat, b: string)
    requires RollsBackTo(s, a, b) && Use(s, name).0.link == Some(b)
    ensures RollsBackTo(Use(s, name).0, a, b)
  {
    if Use(s, name).1.Ok? {
      SameAgain(s, Find(s.rows, name).value, a, b);
    }
  }

  lemma RemoveKeepsTarget(s: State, name: string, a: nat, b: string)
    requires RollsBackTo(s, a, b) && name != s.rows[a].version
    ensures RollsBackTo(Remove(s, name).0, a, b)
  {
    RemoveKeeps(s, name);
  }

  lemma PruneKeepsTarget(s: State, keep: int, a: nat, b: string)
    requires RollsBackTo(s, a, b)
    ensures RollsBackTo(Prune(s, keep), a, b)
  {
    LatestIsProtected(s, a, b);
    PruneProtects(s, keep, a);
    PruneKeeps(s, keep);
  }

  /** Rows are never taken away and keep their versions. */
  lemma VersionsStay(s: State, step: Step, a: nat)
    requires a < |s.rows|
    ensures a < |Apply(s, step).rows| && Apply(s, step).rows[a].version == s.rows[a].version
  {
    match step {
      case InstallStep(version, force, built) => InstallVersionsStay(s, version, force, built, a);
      case CrashedInstall(version, force, built, linked) =>
        HalfInstallVersionsStay(s, version, force, built, linked, a);
      case _ =>
    }
  }

  lemma InstallVersionsStay(s: State, version: Option<string>, force: bool, built: Option<string>, a: nat)
    requires a < |s.rows|
    ensures var after := Install(s, version, force, built).0;
      a < |after.rows| && after.rows[a].version == s.rows[a].version
  {
    if built.Some? {
      var (recorded, i) := RecordInstall(Placed(s, built.value, force), built.value);
      assert a < |recorded.rows| && recorded.rows[a].version == s.rows[a].version;
    }
  }

  lemma HalfInstallVersionsStay(
    s: State, version: Option<string>, force: bool, built: Option<string>, linked: bool, a: nat)
    requires a < |s.rows|
    ensures var after := HalfInstall(s, version, force, built, linked);
      a < |after.rows| && after.rows[a].version == s.rows[a].version
  {
    InstallVersionsStay(s, version, force, built, a);
    if built.Some? {
      var (recorded, i) := RecordInstall(Placed(s, built.value, force), built.value);
      assert a < |recorded.rows| && recorded.rows[a].version == s.rows[a].version;
    }
  }

  lemma StepKeepsTarget(s: State, step: Step, a: nat, b: string)
    requires RollsBackTo(s, a, b) && Apply(s, step).link == Some(b)
    requires !Dies(step) && step != RemoveStep(s.rows[a].version)
    ensures RollsBackTo(Apply(s, step), a, b) && Apply(s, step).rows[a].version == s.rows[a].version
  {
    VersionsStay(s, step, a);
    match step {
      case InstallStep(version, force, built) => InstallKeepsTarget(s, version, force, built, a, b);
      case UseStep(name) => UseKeepsTarget(s, name, a, b);
      case RemoveStep(name) => RemoveKeepsTarget(s, name, a, b);
      case PruneStep(keep) => PruneKeepsTarget(s, keep, a, b);
      case _ => StepKeeps(s, step);
    }
  }

  /** No step of this run switches away from b, removes version a, or dies inside a switch. */
  ghost predicate Stays(s: State, steps: seq<Step>, a: string, b: string) {
    steps == []
    || (Stays(s, steps[..|steps| - 1], a, b)
        && !Dies(steps[|steps| - 1]) && steps[|steps| - 1] != RemoveStep(a)
        && Execute(s, steps).link == Some(b))
  }

  lemma {:induction false} RunKeepsTarget(s: State, steps: seq<Step>, a: nat, b: string)
    requires RollsBackTo(s, a, b) && Stays(s, steps, s.rows[a].version, b)
    ensures RollsBackTo(Execute(s, steps), a, b) && Execute(s, steps).rows[a].version == s.rows[a].version
  {
    if steps != [] {
      RunKeepsTarget(s, steps[..|steps| - 1], a, b);
      StepKeepsTarget(Execute(s, steps[..|steps| - 1]), steps[|steps| - 1], a, b);
    }
  }

  lemma {:induction false} RunClocked(steps: seq<Step>)
    ensures Clocked(Execute(EMPTY, steps))
  {
    if steps != [] {
      RunClocked(steps[..|steps| - 1]);
      StepClocked(Execute(EMPTY, steps[..|steps| - 1]), steps[|steps| - 1]);
    }
  }

  lemma ActivateClocked(s: State, i: nat)
    requires Clocked(s) && i < |s.rows|
    ensures Clocked(Activate(s, i))
  {
  }

  lemma InstallClocked(s: State, version: Option<string>, force: bool, built: Option<string>)
    requires Clocked(s)
    ensures Clocked(Install(s, version, force, built).0)
  {
    if TakesExisting(s, version, force) {
      ActivateClocked(s, Find(s.rows, version.value).value);
    } else if built.Some? {
      var v := built.value;
      var placed := Placed(s, v, force);
      var (recorded, i) := RecordInstall(placed, v);
      assert Clocked(recorded);
      ActivateClocked(recorded, i);
    }
  }

  lemma HalfInstallClocked(s: State, version: Option<string>, force: bool, built: Option<string>, linked: bool)
    requires Clocked(s)
    ensures Clocked(HalfInstall(s, version, force, built, linked))
  {
    InstallClocked(s, version, force, built);
    if !TakesExisting(s, version, force) && built.Some? {
      assert Clocked(RecordInstall(Placed(s, built.value, force), built.value).0);
    }
  }

  lemma PruneClocked(s: State, keep: int)
    requires Clocked(s)
    ensures Clocked(Prune(s, keep))
  {
  }

  lemma StepClocked(s: State, step: Step)
    requires Clocked(s)
    ensures Clocked(Apply(s, step))
  {
    match step {
      case InstallStep(version, force, built) => InstallClocked(s, version, force, built);
      case UseStep(name) =>
        if Use(s, name).1.Ok? {
          ActivateClocked(s, Find(s.rows, name).value);
        }
      case PruneStep(keep) => PruneClocked(s, keep);
      case CrashedInstall(version, force, built, linked) => HalfInstallClocked(s, version, force, built, linked);
      case _ =>
    }
  }

  /**
   After any run, deaths half way included: a successful switch from the ACTIVE version a to version b makes a
   the rollback choice until a is removed or another switch happens, whatever is installed, pruned, removed or
   damaged meanwhile; and the choice has its directory exactly when the run did not leave it lost.
   */
  lemma RollbackTargetKept(before: seq<Step>, b: string, a: nat, after: seq<Step>)
    requires var s := Execute(EMPTY, before);
             && FirstActive(s.rows) == Some(a) && s.rows[a].version != b && Use(s, b).1.Ok?
             && Stays(Use(s, b).0, after, s.rows[a].version, b)
    ensures var v := Execute(EMPTY, before).rows[a].version;
            var whole := before + [UseStep(b)] + after;
            var s2 := Execute(EMPTY, whole);
            && s2 == Execute(Use(Execute(EMPTY, before), b).0, after)
            && RollbackChoice(s2, b) == Some(v) && (v in s2.dirs <==> !LeftLost(whole, v))
  {
    var s := Execute(EMPTY, before);
    var v, whole := s.rows[a].version, before + [UseStep(b)] + after;
    StoreAgrees(before, b);
    RunClocked(before);
    SwitchSetsTarget(s, Find(s.rows, b).value, a);
    RunKeepsTarget(Use(s, b).0, after, a, b);
    Then(before, UseStep(b), s, Use(s, b).0);
    ExecuteOn(before + [UseStep(b)], after);
    ChoiceIsLatest(Execute(EMPTY, whole), a, b);
    StoreAgrees(whole, v);
    assert HasRow(Execute(EMPTY, whole), v);
  }

  lemma {:induction false} ExecuteOn(steps: seq<Step>, more: seq<Step>)
    ensures Execute(EMPTY, steps + more) == Execute(Execute(EMPTY, steps), more)
  {
    if more == [] {
      assert steps + more == steps;
    } else {
      var init := more[..|more| - 1];
      ExecuteOn(steps, init);
      assert (steps + more)[..|steps + more| - 1] == steps + init;
    }
  }

  /** A rebuild of the version in use dies: `current` and the ACTIVE release are left without a directory. */
  lemma RebuildDangles(a: string)
    ensures var s := Execute(EMPTY, [InstallStep(None, false, Some(a)), CrashedRebuild(Some(a), true, Some(a), None)]);
            Dangles(s) && s.link == Some(a) == ActiveVersion(s) && HasRow(s, a)
  {
    var install, rebuild := InstallStep(None, false, Some(a)), CrashedRebuild(Some(a), true, Some(a), None);
    var s1 := State([Release(a, Active, 1, None)], Some(a), map[a := true], 2);
    FirstInstalled(a);
    Then([], install, EMPTY, s1);
    RebuildLeaves(s1, a);
    Then([] + [install], rebuild, s1, s1.(dirs := s1.dirs - {a}));
    assert [] + [install] + [rebuild] == [install, rebuild];
    LoneRelease(s1.(dirs := s1.dirs - {a}), a);
  }

  lemma LoneRelease(s: State, a: string)
    requires s.rows == [Release(a, Active, 1, None)] && s.link == Some(a) && a !in s.dirs
    ensures Dangles(s) && s.link == Some(a) == ActiveVersion(s) && HasRow(s, a)
  {
    FirstActiveIs(s.rows, 0);
    assert s.rows[0].version == a;
  }

  /** A forced rebuild that dies after deleting the directory. */
  lemma RebuildLeaves(s: State, a: string)
    ensures Apply(s, CrashedRebuild(Some(a), true, Some(a), None)) == s.(dirs := s.dirs - {a})
  {
  }

  /** The version in use before b, with b in use. */
  function TwoInUse(a: string, b: string): State {
    State([Release(a, Installed, 1, Some(4)), Release(b, Active, 3, None)], Some(b), map[a := true, b := true], 4)
  }

  lemma TwoInstalledAndUsed(a: string, b: string)
    requires a != b
    ensures Execute(EMPTY, [InstallStep(None, false, Some(a)), InstallStep(None, false, Some(b)), UseStep(b)])
         == TwoInUse(a, b)
  {
    var s2 := State([Release(a, Active, 1, None), Fresh(b, 3)], Some(a), map[a := true, b := true], 3);
    var two := [InstallStep(None, false, Some(a)), InstallStep(None, false, Some(b))];
    SecondInstalled(a, b);
    FirstActiveIs(s2.rows, 0);
    Switched(s2, 1, 0);
    Then(two, UseStep(b), s2, TwoInUse(a, b));
    assert two + [UseStep(b)] == [two[0], two[1], UseStep(b)];
  }

  /** The same death while rebuilding what a rollback would return to leaves the choice without its directory. */
  lemma RebuildLosesChoice(a: string, b: string)
    requires a != b
    ensures var steps := [InstallStep(None, false, Some(a)), InstallStep(None, false, Some(b)), UseStep(b)];
            var s := Execute(EMPTY, steps + [CrashedRebuild(Some(a), true, Some(a), None)]);
            !Dangles(s) && RollbackChoice(s, b) == Some(a) && a !in s.dirs
  {
    var rebuild := CrashedRebuild(Some(a), true, Some(a), None);
    var steps := [InstallStep(None, false, Some(a)), InstallStep(None, false, Some(b)), UseStep(b)];
    TwoInstalledAndUsed(a, b);
    RebuildLeaves(TwoInUse(a, b), a);
    Then(steps, rebuild, TwoInUse(a, b), Apply(TwoInUse(a, b), rebuild));
    assert Deactivated(TwoInUse(a, b).rows[0], Some(b));
  }

  // ---- what a switch that died half way costs ----

  /**
   A switch from release i to another version b that dies between link and commit: pruning then takes
   i exactly when i is not the release deactivated last, there are more releases than are kept, and
   enough of them are newer. Before the crash no pruning takes it.
   */
  lemma CrashedSwitchUnprotects(s: State, i: nat, b: string, keep: int)
    requires Kept(s) && Agrees(s) && FirstActive(s.rows) == Some(i) && b != s.rows[i].version && Use(s, b).1.Ok?
    ensures Present(Prune(s, keep).rows[i]) && !Agrees(Apply(s, CrashedSwitch(b)))
    ensures var s2 := Apply(s, CrashedSwitch(b));
            var newer := |NewerRows(s.rows, PresentRows(s.rows), i)|;
            && |Prune(s2, keep).rows| == |s.rows|
            && (!Present(Prune(s2, keep).rows[i]) <==>
                && LatestDeactivated(s.rows, None) != Some(i) && |PresentRows(s.rows)| > keep
                && newer >= keep && newer >= |Protected(s2)|)
  {
    var s2 := Apply(s, CrashedSwitch(b));
    StepAgreesExactly(s, CrashedSwitch(b));
    PruneProtects(s, keep, i);
    PruneExactly(s2, keep, i);
    var prior := LatestDeactivated(s.rows, None);
    if prior.Some? && prior.value != i {
      assert s.rows[prior.value].version != s.rows[i].version by {
        assert Unique(s.rows) && (prior.value < i || i < prior.value);
      }
    }
  }

  /** A release's row once it is recorded. */
  function Fresh(version: string, installedAt: nat): Release { Release(version, Installed, installedAt, None) }

  /** A run that gets there: three installations, and two switches. */
  function Installs(a: string, b: string, c: string): seq<Step> {
    [InstallStep(None, false, Some(a)), InstallStep(None, false, Some(c)), InstallStep(None, false, Some(b))]
  }

  /** The store after the three installations. */
  function Installed3(a: string, b: string, c: string): State {
    State([Release(a, Active, 1, None), Fresh(c, 3), Fresh(b, 4)], Some(a), map[a := true, c := true, b := true], 4)
  }

  lemma SecondInstalled(a: string, c: string)
    requires a != c
    ensures Execute(EMPTY, [InstallStep(None, false, Some(a)), InstallStep(None, false, Some(c))])
         == State([Release(a, Active, 1, None), Fresh(c, 3)], Some(a), map[a := true, c := true], 3)
  {
    var s1 := State([Release(a, Active, 1, None)], Some(a), map[a := true], 2);
    FirstInstalled(a);
    Then([], InstallStep(None, false, Some(a)), EMPTY, s1);
    assert Find(s1.rows, c) == None;
    Recorded(s1, c);
    Then([InstallStep(None, false, Some(a))], InstallStep(None, false, Some(c)), s1,
      Apply(s1, InstallStep(None, false, Some(c))));
  }

  lemma ThirdRecorded(s: State, a: string, b: string, c: string)
    requires a != b && b != c && a != c
    requires s == State([Release(a, Active, 1, None), Fresh(c, 3)], Some(a), map[a := true, c := true], 3)
    ensures Apply(s, InstallStep(None, false, Some(b))) == Installed3(a, b, c)
  {
    assert Find(s.rows, b) == None;
    Recorded(s, b);
    assert s.rows + [Fresh(b, 4)] == Installed3(a, b, c).rows;
    assert s.dirs[b := true] == Installed3(a, b, c).dirs;
  }

  lemma ThirdInstalled(a: string, b: string, c: string)
    requires a != b && b != c && a != c
    ensures Execute(EMPTY, Installs(a, b, c)) == Installed3(a, b, c)
  {
    var two := [InstallStep(None, false, Some(a)), InstallStep(None, false, Some(c))];
    SecondInstalled(a, c);
    ThirdRecorded(Execute(EMPTY, two), a, b, c);
    Then(two, InstallStep(None, false, Some(b)), Execute(EMPTY, two), Installed3(a, b, c));
    assert two + [InstallStep(None, false, Some(b))] == Installs(a, b, c);
  }

  lemma SwitchedThere(a: string, b: string, c: string)
    requires a != b && b != c && a != c
    ensures Apply(Installed3(a, b, c), UseStep(c))
         == State([Release(a, Installed, 1, Some(5)), Release(c, Active, 3, None), Fresh(b, 4)], Some(c),
            Installed3(a, b, c).dirs, 5)
  {
    FirstActiveIs(Installed3(a, b, c).rows, 0);
    Switched(Installed3(a, b, c), 1, 0);
  }

  lemma SwitchedBack(s: State, a: string, b: string, c: string)
    requires a != b && b != c && a != c
    requires s == State([Release(a, Installed, 1, Some(5)), Release(c, Active, 3, None), Fresh(b, 4)], Some(c),
             Installed3(a, b, c).dirs, 5)
    ensures InUse(Apply(s, UseStep(a)), a, b, c)
  {
    FirstActiveIs(s.rows, 1);
    Switched(s, 0, 1);
  }

  lemma SwitchesRun(a: string, b: string, c: string)
    requires a != b && b != c && a != c
    ensures InUse(Execute(EMPTY, Installs(a, b, c) + [UseStep(c)] + [UseStep(a)]), a, b, c)
  {
    var s4 := Apply(Installed3(a, b, c), UseStep(c));
    ThirdInstalled(a, b, c);
    SwitchedThere(a, b, c);
    Then(Installs(a, b, c), UseStep(c), Installed3(a, b, c), s4);
    SwitchedBack(s4, a, b, c);
    Then(Installs(a, b, c) + [UseStep(c)], UseStep(a), s4, Apply(s4, UseStep(a)));
  }

  /** Then a third switch dies, and pruning takes the version that was in use. */
  lemma CrashedRunPrunes(a: string, b: string, c: string)
    requires a != b && b != c && a != c
    ensures var s := Execute(EMPTY, Installs(a, b, c) + [UseStep(c)] + [UseStep(a)]);
            && Agrees(s) && ActiveVersion(s) == Some(a) && a in s.dirs
            && var s2 := Apply(s, CrashedSwitch(b)); !Agrees(s2) && a !in Apply(s2, PruneStep(1)).dirs
  {
    SwitchesRun(a, b, c);
    CrashTakes(Execute(EMPTY, Installs(a, b, c) + [UseStep(c)] + [UseStep(a)]), a, b, c);
  }

  lemma FirstActiveIs(rows: seq<Release>, i: nat)
    requires i < |rows| && rows[i].status.Active? && OneActive(rows)
    ensures FirstActive(rows) == Some(i)
  {
  }

  lemma FirstInstalled(a: string)
    ensures Apply(EMPTY, InstallStep(None, false, Some(a)))
            == State([Release(a, Active, 1, None)], Some(a), map[a := true], 2)
  {
    var placed := State([], None, map[a := true], 0);
    assert Placed(EMPTY, a, false) == placed;
    FirstRecorded(placed, a);
    FirstActivated(State([Fresh(a, 1)], None, map[a := true], 1), a);
  }

  lemma FirstRecorded(s: State, a: string)
    requires s.rows == [] && s.clock == 0
    ensures RecordInstall(s, a) == (State([Fresh(a, 1)], s.link, s.dirs, 1), 0)
  {
    assert Find(s.rows, a) == None;
    assert [] + [Fresh(a, 1)] == [Fresh(a, 1)];
  }

  lemma FirstActivated(s: State, a: string)
    requires s.rows == [Fresh(a, 1)] && s.clock == 1
    ensures Activate(s, 0) == State([Release(a, Active, 1, None)], Some(a), s.dirs, 2)
  {
    assert FirstActive(s.rows) == None;
    assert Demoted(s.rows, 0, 2) == s.rows;
    assert s.rows[0 := Release(a, Active, 1, None)] == [Release(a, Active, 1, None)];
  }

  /** Another version is recorded behind the rows of a working store. */
  lemma Recorded(s: State, v: string)
    requires CurrentReady(s) && v !in s.dirs && Find(s.rows, v) == None
    ensures Apply(s, InstallStep(None, false, Some(v)))
         == State(s.rows + [Fresh(v, s.clock + 1)], s.link, s.dirs[v := true], s.clock + 1)
  {
  }

  /** A switch between two rows of a store with unique versions. */
  lemma Switched(s: State, i: nat, a: nat)
    requires Unique(s.rows) && i < |s.rows| && a < |s.rows| && i != a && s.rows[i].status.Installed?
    requires FirstActive(s.rows) == Some(a) && Ready(s, s.rows[i].version)
    ensures Apply(s, UseStep(s.rows[i].version))
         == State(s.rows[a := s.rows[a].(status := Installed, deactivatedAt := Some(s.clock + 1))]
                  [i := s.rows[i].(status := Active)], Some(s.rows[i].version), s.dirs, s.clock + 1)
  {
    assert Find(s.rows, s.rows[i].version) == Some(i);
  }

  lemma Then(steps: seq<Step>, step: Step, s: State, s2: State)
    requires Execute(EMPTY, steps) == s && Apply(s, step) == s2
    ensures Execute(EMPTY, steps + [step]) == s2
  {
    assert (steps + [step])[..|steps|] == steps;
  }

  /** The state such a run leaves: release 0 in use, release 1 deactivated last, release 2 never used. */
  ghost predicate InUse(s: State, a: string, b: string, c: string) {
    && a != b && b != c && a != c
    && s == State([Release(a, Active, 1, Some(5)), Release(c, Installed, 3, Some(6)), Fresh(b, 4)],
                  Some(a), map[a := true, c := true, b := true], 6)
  }

  lemma InUseFacts(s: State, a: string, b: string, c: string)
    requires InUse(s, a, b, c)
    ensures FirstActive(s.rows) == Some(0) && Find(s.rows, b) == Some(2) && LatestDeactivated(s.rows, None) == Some(1)
    ensures PresentRows(s.rows) == {0, 1, 2} && NewerRows(s.rows, {0, 1, 2}, 0) == {1, 2}
    ensures Kept(s) && Agrees(s)
  {
    assert s.rows[0].status.Active? && s.rows[2].version == b;
    assert Deactivated(s.rows[1], None);
  }

  lemma CrashTakes(s: State, a: string, b: string, c: string)
    requires InUse(s, a, b, c)
    ensures Agrees(s) && ActiveVersion(s) == Some(a) && a in s.dirs
    ensures var s2 := Apply(s, CrashedSwitch(b)); !Agrees(s2) && a !in Apply(s2, PruneStep(1)).dirs
  {
    InUseFacts(s, a, b, c);
    var s2 := Apply(s, CrashedSwitch(b));
    assert s2 == s.(link := Some(b));
    assert Protected(s2) == {b, c};
    CrashedSwitchUnprotects(s, 0, b, 1);
    PruneExactly(s2, 1, 0);
  }

  // ---- updating with a smoke test ----

  datatype UpdateStatus = InstallFailure | NoChange | Updated | RolledBack | UpdateFailed | UseRaised

  /** What a failing candidate is rolled back to. */
  function RollbackTarget(s: State, previous: Option<string>, candidate: string): Option<string> {
    if previous.Some? && previous.value != candidate then previous else RollbackChoice(s, candidate)
  }

  /** The first half of an update: the built version installed and made current; None when the switch raises. */
  function InstallAndUse(s: State, candidate: string): Option<State> {
    var installed := Install(s, None, false, Some(candidate)).0;
    if s.link == Some(candidate) then Some(installed)
    else if Use(installed, candidate).1.Ok? then Some(Use(installed, candidate).0)
    else None
  }

  /** The second half, after a failed smoke test of the candidate. */
  function RollBack(s: State, previous: Option<string>, candidate: string, smoke: string -> bool): (State, UpdateStatus)
  {
    match RollbackTarget(s, previous, candidate)
    case None => (s, UpdateFailed)
    case Some(target) =>
      if !smoke(target) then (s, UpdateFailed)
        else (Use(s, target).0, if Use(s, target).1.Ok? then RolledBack else UseRaised)
  }

  /** An update; smoke says which versions pass their test. */
  function Update(s: State, built: Option<string>, keep: int, smoke: string -> bool): (State, UpdateStatus) {
    if built == None then (s, InstallFailure)
    else
      match InstallAndUse(s, built.value)
      case None => (Install(s, None, false, built).0, UseRaised)
      case Some(switched) =>
        if smoke(built.value) then (Prune(switched, keep), if s.link == built then NoChange else Updated)
        else RollBack(switched, s.link, built.value, smoke)
  }

  lemma InstallAndUseKeeps(s: State, candidate: string)
    requires Kept(s) && Agrees(s) && InstallAndUse(s, candidate).Some?
    ensures Kept(InstallAndUse(s, candidate).value) && Agrees(InstallAndUse(s, candidate).value)
    ensures InstallAndUse(s, candidate).value.link == Some(candidate)
  {
    InstallKeeps(s, None, false, Some(candidate));
    if s.link == Some(candidate) {
      InstallSameLink(s, candidate);
    } else {
      StepKeeps(Install(s, None, false, Some(candidate)).0, UseStep(candidate));
    }
  }

  /** Building the version the link already names leaves the link. */
  lemma InstallSameLink(s: State, candidate: string)
    requires s.link == Some(candidate)
    ensures Install(s, None, false, Some(candidate)).0.link == Some(candidate)
  {
    var placed := Placed(s, candidate, false);
    var (recorded, i) := RecordInstall(placed, candidate);
  }

  /** The store keeps agreeing through an update. */
  lemma UpdateKeeps(s: State, built: Option<string>, keep: int, smoke: string -> bool)
    requires Kept(s) && Agrees(s)
    ensures Kept(Update(s, built, keep, smoke).0) && Agrees(Update(s, built, keep, smoke).0)
  {
    if built.Some? {
      InstallKeeps(s, None, false, built);
      var switched := InstallAndUse(s, built.value);
      if switched.Some? {
        InstallAndUseKeeps(s, built.value);
        PruneKeeps(switched.value, keep);
        RollBackKeeps(switched.value, s.link, built.value, smoke);
      }
    }
  }

  lemma RollBackKeeps(s: State, previous: Option<string>, candidate: string, smoke: string -> bool)
    requires Kept(s) && Agrees(s)
    ensures Kept(RollBack(s, previous, candidate, smoke).0) && Agrees(RollBack(s, previous, candidate, smoke).0)
  {
    var target := RollbackTarget(s, previous, candidate);
    if target.Some? {
      StepKeeps(s, UseStep(target.value));
    }
  }

  lemma InstallResult(s: State, candidate: string)
    ensures var (recorded, i) := RecordInstall(Placed(s, candidate, false), candidate);
            Install(s, None, false, Some(candidate)).0 == if CurrentReady(s) then recorded else Activate(recorded, i)
  {
  }

  /** Installing and using another version makes the one in use the rollback target. */
  lemma InstallAndUseSetsTarget(s: State, candidate: string, a: nat)
    requires Kept(s) && Agrees(s) && Clocked(s) && FirstActive(s.rows) == Some(a) && s.rows[a].version != candidate
    requires InstallAndUse(s, candidate).Some?
    ensures var s2 := InstallAndUse(s, candidate).value;
            RollsBackTo(s2, a, candidate) && s2.rows[a].version == s.rows[a].version
  {
    var placed := Placed(s, candidate, false);
    assert Kept(placed) && Agrees(placed) && Clocked(placed);
    RecordKeeps(placed, candidate);
    var (recorded, i) := RecordInstall(placed, candidate);
    RecordedActive(placed, candidate, a);
    SwitchSetsTarget(recorded, i, a);
    InstallResult(s, candidate);
    var installed := Install(s, None, false, Some(candidate)).0;
    UsedAfterInstall(s, installed, candidate, a);
    if CurrentReady(s) {
      UseAfterRecord(recorded, candidate, i);
      VersionsStay(recorded, UseStep(candidate), a);
    } else {
      UseKeepsTarget(Activate(recorded, i), candidate, a, candidate);
      VersionsStay(Activate(recorded, i), UseStep(candidate), a);
    }
  }

  /** The link named the active release, which is another one, so the update switches. */
  lemma UsedAfterInstall(s: State, installed: State, candidate: string, a: nat)
    requires Agrees(s) && FirstActive(s.rows) == Some(a) && s.rows[a].version != candidate
    requires installed == Install(s, None, false, Some(candidate)).0 && InstallAndUse(s, candidate).Some?
    ensures Use(installed, candidate).1.Ok? && InstallAndUse(s, candidate).value == Use(installed, candidate).0
    ensures Use(installed, candidate).0.link == Some(candidate)
  {
  }

  lemma RecordedActive(s: State, candidate: string, a: nat)
    requires Kept(s) && Agrees(s) && Clocked(s) && FirstActive(s.rows) == Some(a)
             && s.rows[a].version != candidate
    ensures var (s2, i) := RecordInstall(s, candidate);
            FirstActive(s2.rows) == Some(a) && s2.rows[a].version == s.rows[a].version && i != a && Clocked(s2)
  {
    RecordKeeps(s, candidate);
    var (s2, i) := RecordInstall(s, candidate);
    assert s2.rows[a].status.Active?;
  }

  lemma UseAfterRecord(s: State, candidate: string, i: nat)
    requires Unique(s.rows) && i < |s.rows| && s.rows[i].version == candidate
    ensures Find(s.rows, candidate) == Some(i)
    ensures Use(s, candidate).1.Ok? ==> Use(s, candidate).0 == Activate(s, i)
  {
  }

  /**
   An update ends on a version whose smoke test passed, or says that it did not: updated means the
   new version is current and the old one is what a rollback returns to, even after pruning; rolled
   back means the previous version is current again.
   */
  lemma UpdateEnds(s: State, built: Option<string>, keep: int, smoke: string -> bool)
    requires Kept(s) && Agrees(s) && Clocked(s)
    ensures var (s2, status) := Update(s, built, keep, smoke);
            && (status == InstallFailure ==> s2 == s)
            && (status == Updated || status == NoChange ==> built.Some? && s2.link == built && smoke(built.value))
            && (status == RolledBack ==> s2.link.Some? && smoke(s2.link.value) && s2.link != built)
            && (status == RolledBack && s.link.Some? && s.link != built ==> s2.link == s.link)
    ensures Update(s, built, keep, smoke).1 == Updated && s.link.Some? ==>
              var s2 := Update(s, built, keep, smoke).0;
              RollbackChoice(s2, built.value) == s.link && (s.link.value in s2.dirs <==> s.link.value in s.dirs)
  {
    if built.Some? && InstallAndUse(s, built.value).Some? {
      var switched := InstallAndUse(s, built.value).value;
      InstallAndUseKeeps(s, built.value);
      if !smoke(built.value) {
        RollBackEnds(switched, s.link, built.value, smoke);
      } else if s.link.Some? && s.link != built {
        UpdatedTarget(s, built.value, keep);
      }
    }
  }

  /** The version that was in use is what a rollback returns to, even after pruning, and its directory is as before. */
  lemma UpdatedTarget(s: State, candidate: string, keep: int)
    requires Kept(s) && Agrees(s) && Clocked(s) && s.link.Some? && s.link != Some(candidate)
    requires InstallAndUse(s, candidate).Some?
    ensures var s2 := Prune(InstallAndUse(s, candidate).value, keep);
            RollbackChoice(s2, candidate) == s.link && (s.link.value in s2.dirs <==> s.link.value in s.dirs)
  {
    var a, switched := FirstActive(s.rows).value, InstallAndUse(s, candidate).value;
    InstallAndUseSetsTarget(s, candidate, a);
    PruneKeepsTarget(switched, keep, a, candidate);
    ChoiceIsLatest(Prune(switched, keep), a, candidate);
    LatestIsProtected(switched, a, candidate);
    PruneProtects(switched, keep, a);
    SwitchedDirs(s, candidate, s.link.value);
  }

  lemma LatestIsProtected(s: State, a: nat, b: string)
    requires RollsBackTo(s, a, b)
    ensures LatestDeactivated(s.rows, None) == Some(a)
  {
    assert Deactivated(s.rows[a], None);
  }

  lemma SwitchedDirs(s: State, candidate: string, v: string)
    requires InstallAndUse(s, candidate).Some? && v != candidate
    ensures v in InstallAndUse(s, candidate).value.dirs <==> v in s.dirs
  {
    UseKeepsDirs(Install(s, None, false, Some(candidate)).0, candidate);
    BuiltDirs(s, candidate, v);
  }

  lemma UseKeepsDirs(s: State, version: string)
    ensures Use(s, version).0.dirs == s.dirs
  {
  }

  lemma BuiltDirs(s: State, candidate: string, v: string)
    requires v != candidate
    ensures v in Install(s, None, false, Some(candidate)).0.dirs <==> v in s.dirs
  {
    InstallResult(s, candidate);
    var (recorded, i) := RecordInstall(Placed(s, candidate, false), candidate);
    ActivateKeepsDirs(recorded, i);
  }

  lemma ActivateKeepsDirs(s: State, i: nat)
    requires i < |s.rows|
    ensures Activate(s, i).dirs == s.dirs
  {
  }

  lemma RollBackEnds(s: State, previous: Option<string>, candidate: string, smoke: string -> bool)
    ensures var (s2, status) := RollBack(s, previous, candidate, smoke);
            && status in {RolledBack, UpdateFailed, UseRaised}
            && (status == RolledBack ==> s2.link.Some? && smoke(s2.link.value) && s2.link != Some(candidate))
            && (status == RolledBack && previous.Some? && previous != Some(candidate) ==> s2.link == previous)
  {
    var target := RollbackTarget(s, previous, candidate);
    if target.Some? && previous == Some(candidate) {
      assert Deactivated(s.rows[LatestDeactivated(s.rows, Some(candidate)).value], Some(candidate));
    }
  }

  /** A rollback by hand: the latest deactivated release, if its smoke test passes and it can be switched to. */
  function RollbackByHand(s: State, smoke: string -> bool): Option<State> {
    var previous := match s.link
      case Some(current) => RollbackChoice(s, current)
      case None => (match LatestDeactivated(s.rows, None) case Some(i) => Some(s.rows[i].version) case None => None);
    if previous == None || !smoke(previous.value) || Use(s, previous.value).1.Err? then None
      else Some(Use(s, previous.value).0)
  }

  /** Rolling back is itself rolled back: from b to a, and the next choice is b again. */
  lemma RollbackIsReversible(s: State, b: string, smoke: string -> bool)
    requires Kept(s) && Agrees(s) && Clocked(s) && s.link == Some(b) && RollbackByHand(s, smoke).Some?
    ensures var s2 := RollbackByHand(s, smoke).value;
            && s2.link == RollbackChoice(s, b) && s2.link.Some? && smoke(s2.link.value)
            && RollbackChoice(s2, s2.link.value) == Some(b)
  {
    var target := RollbackChoice(s, b).value;
    var i := Find(s.rows, target).value;
    var a := FirstActive(s.rows).value;
    assert s.rows[a].version == b;
    assert Deactivated(s.rows[LatestDeactivated(s.rows, Some(b)).value], Some(b));
    SwitchSetsTarget(s, i, a);
    ChoiceIsLatest(Activate(s, i), a, target);
  }

  // ---- the store changed in place ----

  class Manager {
    var rows: seq<Release>
    var link: Option<string>
    var dirs: map<string, bool>
    var clock: nat

    ghost function Snapshot(): State
      reads this
    {
      State(rows, link, dirs, clock)
    }

    constructor ()
      ensures Snapshot() == EMPTY
    {
      rows, link, dirs, clock := [], None, map[], 0;
    }

    /** Switches the link, then moves ACTIVE in one commit. */
    method ActivateRelease(i: nat)
      requires i < |rows|
      modifies this
      ensures Snapshot() == Activate(old(Snapshot()), i)
    {
      link := Some(rows[i].version);
      clock := clock + 1;
      var active := FirstActive(rows);
      if active.Some? && active.value != i {
        rows := rows[active.value := rows[active.value].(status := Installed, deactivatedAt := Some(clock))];
      }
      rows := rows[i := rows[i].(status := Active)];
    }

    method UseVersion(version: string) returns (r: Result<nat, StoreError>)
      modifies this
      ensures (Snapshot(), r) == Use(old(Snapshot()), version)
    {
      if version !in dirs {
        return Err(UnknownVersion);
      }
      var found := Find(rows, version);
      if found == None || rows[found.value].status.Removed? {
        return Err(UnknownVersion);
      }
      if !dirs[version] {
        return Err(BrokenVersion);
      }
      ActivateRelease(found.value);
      r := Ok(found.value);
    }

    method RemoveVersion(version: string) returns (r: Result<(), StoreError>)
      modifies this
      ensures (Snapshot(), r) == Remove(old(Snapshot()), version)
    {
      if link == Some(version) {
        return Err(CurrentVersion);
      }
      if version !in dirs {
        return Err(UnknownVersion);
      }
      dirs := dirs - {version};
      var found := Find(rows, version);
      if found.Some? {
        rows := rows[found.value := rows[found.value].(status := Removed)];
      }
      r := Ok(());
    }

    /** Inserts the release, or brings a removed one back. */
    method RecordInstalled(v: string) returns (i: nat)
      modifies this
      ensures (Snapshot(), i) == RecordInstall(old(Snapshot()), v) && i < |rows|
    {
      var found := Find(rows, v);
      if found.Some? {
        i := found.value;
        if rows[i].status.Removed? {
          clock := clock + 1;
          rows := rows[i := rows[i].(status := Installed, installedAt := clock)];
        }
      } else {
        i := |rows|;
        clock := clock + 1;
        rows := rows + [Release(v, Installed, clock, None)];
      }
    }

    method InstallVersion(
      version: Option<string>, force: bool, built: Option<string>) returns (r: Result<nat, StoreError>)
      modifies this
      ensures (Snapshot(), r) == Install(old(Snapshot()), version, force, built)
    {
      var healthy := link.Some? && link.value in dirs && dirs[link.value];
      if version.Some? && !force && version.value in dirs {
        var found := Find(rows, version.value);
        if found.Some? && !rows[found.value].status.Removed? && dirs[version.value] {
          if healthy {
            return Ok(found.value);
          }
          if link != version {
            ActivateRelease(found.value);
            return Ok(found.value);
          }
        }
      }
      if built == None {
        return Err(InstallFailed);
      }
      var i := InstallBuilt(built.value, force, healthy);
      r := Ok(i);
    }

    /** The built version put in place, recorded, and made current unless current works. */
    method InstallBuilt(v: string, force: bool, healthy: bool) returns (i: nat)
      modifies this
      ensures var (recorded, k) := RecordInstall(Placed(old(Snapshot()), v, force), v);
              i == k && Snapshot() == if healthy then recorded else Activate(recorded, k)
    {
      if !(v in dirs && !force && dirs[v]) {
        dirs := dirs[v := true];
      }
      i := RecordInstalled(v);
      if !healthy {
        ActivateRelease(i);
      }
    }

    /** Removes directories and rows one release at a time, then commits. */
    method PruneOldVersions(keep: int) returns (removed: set<string>)
      requires Unique(rows)
      modifies this
      ensures Snapshot() == Prune(old(Snapshot()), keep)
      ensures removed == set i: nat | i < |rows| && old(rows)[i] != rows[i] :: rows[i].version
    {
      ghost var s := Snapshot();
      removed := {};
      if PresentCount(rows, |rows|) <= keep {
        return;
      }
      var all := rows;
      var shielded := Protected(State(rows, link, dirs, clock));
      for i := 0 to |all|
        invariant |rows| == |all| && link == s.link && clock == s.clock
        invariant forall k: nat :: k < |all|
                    ==> rows[k] == if k < i && Prunes(s, keep, k) then all[k].(status := Removed) else all[k]
        invariant removed == set k: nat | k < i && Prunes(s, keep, k) :: all[k].version
        invariant dirs == s.dirs - removed
      {
        var rank := Newer(all, i, |all|);
        if all[i].status != Removed && all[i].version !in shielded && rank >= keep && rank >= |shielded| {
          dirs := dirs - {all[i].version};
          rows := rows[i := rows[i].(status := Removed)];
          removed := removed + {all[i].version};
        }
      }
    }
  }
}
