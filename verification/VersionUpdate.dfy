/**
 When an update or a rollback of yt-dlp ends how (src/sluicery/core/ytdlp_update.py), said of the release
 rows, the directories, the link and the smoke tests.
 */
module VersionUpdate {
  import opened Common
  import opened VersionStore

  /** The version has a row that was not removed and a directory that works. */
  ghost predicate Usable(s: State, version: string) {
    && version in s.dirs && s.dirs[version]
    && exists i :: 0 <= i < |s.rows| && s.rows[i].version == version && s.rows[i].status != Removed
  }

  /** Row i is a release other than this one that was in use once, is not removed, and was left last. */
  ghost predicate LeftLast(rows: seq<Release>, other: Option<string>, i: nat) {
    && i < |rows| && rows[i].status != Removed && Some(rows[i].version) != other && rows[i].deactivatedAt.Some?
    && forall j :: 0 <= j < |rows| && j != i && rows[j].status != Removed && Some(rows[j].version) != other
                   && rows[j].deactivatedAt.Some?
                   ==> rows[j].deactivatedAt.value < rows[i].deactivatedAt.value
  }

  ghost predicate NoneLeft(rows: seq<Release>, other: Option<string>) {
    forall j :: 0 <= j < |rows| && rows[j].status != Removed && rows[j].deactivatedAt.Some?
                ==> Some(rows[j].version) == other
  }

  // ---- switching ----

  lemma UsableRow(s: State, version: string) returns (i: nat)
    requires Usable(s, version)
    ensures i < |s.rows| && s.rows[i].version == version && s.rows[i].status != Removed
  {
    i :| 0 <= i < |s.rows| && s.rows[i].version == version && s.rows[i].status != Removed;
  }

  /** A switch succeeds exactly for a usable version, and then that is the ACTIVE and the current one. */
  lemma UseExactly(s: State, version: string)
    requires Unique(s.rows)
    ensures Use(s, version).1.Ok? <==> Usable(s, version)
    ensures var s2 := Use(s, version).0;
            if Usable(s, version) then
              && s2.link == Some(version) && s2.dirs == s.dirs && |s2.rows| == |s.rows|
              && forall i :: 0 <= i < |s.rows| && s.rows[i].version == version ==> s2.rows[i].status == Active
            else s2 == s
  {
    if Usable(s, version) {
      var i := UsableRow(s, version);
    }
  }

  /** What was built is usable at once, so an update always gets to make it current. */
  lemma BuiltIsUsable(s: State, candidate: string)
    requires Kept(s)
    ensures Usable(Install(s, None, false, Some(candidate)).0, candidate)
    ensures InstallAndUse(s, candidate).Some? && InstallAndUse(s, candidate).value.link == Some(candidate)
  {
    InstallKeeps(s, None, false, Some(candidate));
    InstallHeals(s, None, false, Some(candidate));
    var installed, i := Install(s, None, false, Some(candidate)).0, Install(s, None, false, Some(candidate)).1.value;
    BuiltRow(s, candidate);
    assert installed.rows[i].version == candidate && installed.rows[i].status != Removed;
    UseExactly(installed, candidate);
    if s.link == Some(candidate) {
      InstallSameLink(s, candidate);
    }
  }

  lemma BuiltRow(s: State, candidate: string)
    ensures var (s2, r) := Install(s, None, false, Some(candidate));
            r.Ok? && r.value < |s2.rows| && s2.rows[r.value].version == candidate
  {
    var (recorded, i) := RecordInstall(Placed(s, candidate, false), candidate);
    assert Activate(recorded, i).rows[i].version == candidate;
  }

  /** The switch to what was built leaves every other version as usable as it was. */
  lemma SwitchKeepsOthers(s: State, candidate: string, other: string)
    requires Kept(s) && other != candidate
    ensures InstallAndUse(s, candidate).Some?
    ensures Usable(InstallAndUse(s, candidate).value, other) <==> Usable(s, other)
  {
    BuiltIsUsable(s, candidate);
    var installed := Install(s, None, false, Some(candidate)).0;
    InstallKeepsOthers(s, candidate, other);
    UseKeepsOthers(installed, candidate, other);
  }

  lemma InstallKeepsOthers(s: State, candidate: string, other: string)
    requires Kept(s) && other != candidate
    ensures Usable(Install(s, None, false, Some(candidate)).0, other) <==> Usable(s, other)
  {
    var placed := Placed(s, candidate, false);
    var (recorded, i) := RecordInstall(placed, candidate);
    assert forall j :: 0 <= j < |s.rows| && j != i ==> recorded.rows[j] == s.rows[j];
    assert Usable(recorded, other) <==> Usable(s, other) by {
      if Usable(s, other) {
        var j := UsableRow(s, other);
        assert recorded.rows[j].version == other;
      }
      if Usable(recorded, other) {
        var j := UsableRow(recorded, other);
        assert s.rows[j].version == other;
      }
    }
    ActivateKeepsOthers(recorded, i, other);
    InstallResult(s, candidate);
  }

  lemma ActivateKeepsOthers(s: State, i: nat, other: string)
    requires i < |s.rows| && s.rows[i].version != other
    ensures Usable(Activate(s, i), other) <==> Usable(s, other)
  {
    var after := Activate(s, i);
    assert forall j :: 0 <= j < |s.rows| ==> after.rows[j].version == s.rows[j].version;
    assert forall j :: 0 <= j < |s.rows| && j != i ==>
        (after.rows[j].status == Removed <==> s.rows[j].status == Removed);
    if Usable(s, other) {
      var j := UsableRow(s, other);
      assert after.rows[j].version == other;
    }
    if Usable(after, other) {
      var j := UsableRow(after, other);
      assert s.rows[j].version == other;
    }
  }

  lemma UseKeepsOthers(s: State, version: string, other: string)
    requires version != other
    ensures Usable(Use(s, version).0, other) <==> Usable(s, other)
  {
    if Use(s, version).1.Ok? {
      ActivateKeepsOthers(s, Find(s.rows, version).value, other);
    }
  }

  // ---- the other operations ----

  /** A removal is refused exactly for the current version and for one without a directory; else that and the row go. */
  lemma RemoveExactly(s: State, version: string)
    requires Unique(s.rows)
    ensures var (s2, r) := Remove(s, version);
            && (r.Ok? <==> s.link != Some(version) && version in s.dirs)
            && (r.Err? ==> s2 == s)
            && (r.Err? ==> r.error == if s.link == Some(version) then CurrentVersion else UnknownVersion)
            && (r.Ok? ==>
                  && s2.link == s.link && s2.dirs == s.dirs - {version} && |s2.rows| == |s.rows|
                  && forall i :: 0 <= i < |s.rows| ==>
                       s2.rows[i] == if s.rows[i].version == version then s.rows[i].(status := Removed) else s.rows[i])
  {
  }

  /** What was built is recorded as installed now, unless it has a row that is not removed. */
  lemma RecordedExactly(s: State, version: string)
    requires Unique(s.rows)
    ensures var (s2, k) := RecordInstall(s, version);
            && s2.link == s.link && s2.dirs == s.dirs && |s.rows| <= |s2.rows| <= |s.rows| + 1
            && s2.rows[k].version == version && s2.rows[k].status != Removed
            && (forall i :: 0 <= i < |s.rows| && i != k ==> s2.rows[i] == s.rows[i])
            && (if exists i :: 0 <= i < |s.rows| && s.rows[i].version == version
                     && s.rows[i].status != Removed then s2 == s
                else
                  && s2.rows[k].status == Installed && s2.rows[k].installedAt == s2.clock == s.clock + 1
                  && s2.rows[k].deactivatedAt == if k < |s.rows| then s.rows[k].deactivatedAt else None)
  {
  }

  /** An installation fails exactly when nothing could be built and the version asked for cannot be taken as it is. */
  lemma InstallFailsExactly(s: State, version: Option<string>, force: bool, built: Option<string>)
    requires Unique(s.rows)
    ensures Install(s, version, force, built).1.Err?
            <==> built == None
                 && !(version.Some? && !force && Usable(s, version.value)
                      && (s.link != version || (s.link.Some? && s.link.value in s.dirs && s.dirs[s.link.value])))
  {
    if version.Some? && Usable(s, version.value) {
      var i := UsableRow(s, version.value);
    }
  }

  /** Damage makes a version unusable and leaves all others as they were. */
  lemma DamageBreaks(s: State, name: string, other: string)
    ensures !Usable(Apply(s, Damage(name)), name)
    ensures other != name ==> (Usable(Apply(s, Damage(name)), other) <==> Usable(s, other))
    ensures var s2 := Apply(s, Damage(name)); s2.rows == s.rows && s2.link == s.link && s2.dirs.Keys == s.dirs.Keys
  {
    var s2 := Apply(s, Damage(name));
    if Usable(s2, other) {
      var i := UsableRow(s2, other);
    }
  }

  /** A pruning that dies has deleted the directories of the newest of the releases it would have taken. */
  lemma DiedPruningTook(s: State, keep: int, rank: nat, i: nat)
    requires Unique(s.rows) && i < |s.rows|
    ensures var s2 := Apply(s, CrashedPrune(keep, rank));
            && s2.rows == s.rows && s2.link == s.link
            && (s.rows[i].version in s.dirs ==>
                  (s.rows[i].version !in s2.dirs
                   <==> Present(s.rows[i]) && !Present(Prune(s, keep).rows[i])
                        && |NewerRows(s.rows, PresentRows(s.rows), i)| < rank))
  {
    NewerCount(s.rows, i, |s.rows|);
    assert NewerRows(s.rows, PresentRows(s.rows), i) == set j: nat | j < |s.rows| && Present(s.rows[j])
           && InstalledAfter(s.rows, j, i);
    if s.rows[i].version in Taken(s, keep, rank) {
      var j: nat :| j < |s.rows| && Prunes(s, keep, j) && Newer(s.rows, j, |s.rows|) < rank
        && s.rows[j].version == s.rows[i].version;
      assert j == i;
    }
  }

  // ---- updating ----

  /**
   An update succeeds exactly when something was built and passed its smoke test; it changed something exactly
   when that was not the version in use.
   */
  lemma UpdateSucceedsExactly(s: State, built: Option<string>, keep: int, smoke: string -> bool)
    requires Kept(s)
    ensures var (s2, status) := Update(s, built, keep, smoke);
            && (status == InstallFailure <==> built == None)
            && (status == Updated <==> built.Some? && smoke(built.value) && s.link != built)
            && (status == NoChange <==> built.Some? && smoke(built.value) && s.link == built)
            && (built.Some? && smoke(built.value) ==> s2.link == built)
            && (built == None ==> s2 == s)
  {
    if built.Some? {
      BuiltIsUsable(s, built.value);
    }
  }

  /**
   A candidate that fails its smoke test is rolled back to the version that was in use exactly when that one
   passes its own and is usable; otherwise the candidate stays current and the update says that it failed.
   */
  lemma UpdateRollsBack(s: State, candidate: string, keep: int, smoke: string -> bool, previous: string)
    requires Kept(s) && !smoke(candidate) && s.link == Some(previous) && previous != candidate
    ensures var (s2, status) := Update(s, Some(candidate), keep, smoke);
            && (status == RolledBack <==> smoke(previous) && Usable(s, previous))
            && (status == RolledBack <==> s2.link == Some(previous))
            && (status != RolledBack ==> s2.link == Some(candidate))
            && (status == UpdateFailed <==> !smoke(previous))
  {
    BuiltIsUsable(s, candidate);
    SwitchKeepsOthers(s, candidate, previous);
    SwitchKeepsUnique(s, candidate);
    UseExactly(InstallAndUse(s, candidate).value, previous);
  }

  lemma SwitchKeepsUnique(s: State, candidate: string)
    requires Kept(s)
    ensures InstallAndUse(s, candidate).Some? && Kept(InstallAndUse(s, candidate).value)
  {
    BuiltIsUsable(s, candidate);
    InstallKeeps(s, None, false, Some(candidate));
    StepKeeps(Install(s, None, false, Some(candidate)).0, UseStep(candidate));
  }

  /** Without another version in use it goes to the release left last, if there is one, on the same condition. */
  lemma UpdateRollsBackToLatest(s: State, candidate: string, keep: int, smoke: string -> bool, i: nat)
    requires Kept(s) && Agrees(s) && !smoke(candidate) && (s.link == None || s.link == Some(candidate))
    requires LeftLast(s.rows, Some(candidate), i)
    ensures var (s2, status) := Update(s, Some(candidate), keep, smoke);
            var latest := s.rows[i].version;
            && (status == RolledBack <==> smoke(latest) && Usable(s, latest))
            && (status == RolledBack <==> s2.link == Some(latest))
            && (status != RolledBack ==> s2.link == Some(candidate))
            && (status == UpdateFailed <==> !smoke(latest))
  {
    var latest := s.rows[i].version;
    SwitchKeepsUnique(s, candidate);
    BuiltIsUsable(s, candidate);
    var switched := InstallAndUse(s, candidate).value;
    SwitchKeepsLeft(s, candidate);
    assert LeftLast(switched.rows, Some(candidate), i);
    LatestIsLeftLast(switched.rows, Some(candidate), i);
    SwitchKeepsOthers(s, candidate, latest);
    RollBackExactly(switched, s.link, candidate, smoke, latest);
  }

  lemma RollBackExactly(
    s: State, previous: Option<string>, candidate: string, smoke: string -> bool, target: string)
    requires Unique(s.rows) && s.link == Some(candidate) && target != candidate
    requires RollbackTarget(s, previous, candidate) == Some(target)
    ensures var (s2, status) := RollBack(s, previous, candidate, smoke);
            && (status == RolledBack <==> smoke(target) && Usable(s, target))
            && (status == RolledBack <==> s2.link == Some(target))
            && (status != RolledBack ==> s2.link == Some(candidate))
            && (status == UpdateFailed <==> !smoke(target))
  {
    UseExactly(s, target);
  }

  lemma UpdateHasNowhereToGo(s: State, candidate: string, keep: int, smoke: string -> bool)
    requires Kept(s) && Agrees(s) && !smoke(candidate) && (s.link == None || s.link == Some(candidate))
    requires NoneLeft(s.rows, Some(candidate))
    ensures var (s2, status) := Update(s, Some(candidate), keep, smoke);
            status == UpdateFailed && s2.link == Some(candidate)
  {
    SwitchKeepsUnique(s, candidate);
    BuiltIsUsable(s, candidate);
    var switched := InstallAndUse(s, candidate).value;
    SwitchKeepsLeft(s, candidate);
    assert NoneLeft(switched.rows, Some(candidate));
  }

  /** Where no other release is ACTIVE, the switch touches no row but the candidate's. */
  lemma SwitchKeepsLeft(s: State, candidate: string)
    requires Kept(s) && Agrees(s) && (s.link == None || s.link == Some(candidate))
    ensures InstallAndUse(s, candidate).Some?
    ensures SameElse(s.rows, InstallAndUse(s, candidate).value.rows, candidate)
  {
    SwitchKeepsUnique(s, candidate);
    InstallKeepsLeft(s, candidate);
    UseKeepsLeft(Install(s, None, false, Some(candidate)).0, candidate);
  }

  /** Only the candidate's row is or becomes ACTIVE. */
  ghost predicate NoneElse(rows: seq<Release>, candidate: string) {
    forall j :: 0 <= j < |rows| && rows[j].status.Active? ==> rows[j].version == candidate
  }

  /** Rows of other versions are as they were, and new ones are the candidate's. */
  ghost predicate SameElse(before: seq<Release>, after: seq<Release>, candidate: string) {
    && |before| <= |after|
    && (forall j :: 0 <= j < |before| && before[j].version != candidate ==> after[j] == before[j])
    && (forall j :: 0 <= j < |before| ==> after[j].version == before[j].version)
    && (forall j :: |before| <= j < |after| ==> after[j].version == candidate)
  }

  lemma InstallKeepsLeft(s: State, candidate: string)
    requires Kept(s) && Agrees(s) && (s.link == None || s.link == Some(candidate))
    ensures var rows := Install(s, None, false, Some(candidate)).0.rows;
            SameElse(s.rows, rows, candidate) && NoneElse(rows, candidate)
  {
    var (recorded, i) := RecordInstall(Placed(s, candidate, false), candidate);
    assert NoneElse(s.rows, candidate);
    assert SameElse(s.rows, recorded.rows, candidate) && NoneElse(recorded.rows, candidate);
    ActivateAlone(recorded, i, candidate);
    InstallResult(s, candidate);
  }

  lemma UseKeepsLeft(s: State, candidate: string)
    requires NoneElse(s.rows, candidate)
    ensures SameElse(s.rows, Use(s, candidate).0.rows, candidate)
  {
    if Use(s, candidate).1.Ok? {
      ActivateAlone(s, Find(s.rows, candidate).value, candidate);
    }
  }

  lemma ActivateAlone(s: State, i: nat, candidate: string)
    requires i < |s.rows| && s.rows[i].version == candidate && NoneElse(s.rows, candidate)
    ensures SameElse(s.rows, Activate(s, i).rows, candidate) && NoneElse(Activate(s, i).rows, candidate)
  {
  }

  lemma LatestIsLeftLast(rows: seq<Release>, other: Option<string>, i: nat)
    requires LeftLast(rows, other, i)
    ensures LatestDeactivated(rows, other) == Some(i)
  {
    assert Deactivated(rows[i], other);
  }

  // ---- rolling back by hand ----

  /** A rollback by hand succeeds exactly when the release left last passes its smoke test and is usable. */
  lemma ByHandExactly(s: State, smoke: string -> bool, i: nat)
    requires Kept(s) && LeftLast(s.rows, s.link, i)
    ensures RollbackByHand(s, smoke).Some? <==> smoke(s.rows[i].version) && Usable(s, s.rows[i].version)
    ensures RollbackByHand(s, smoke).Some? ==> RollbackByHand(s, smoke).value.link == Some(s.rows[i].version)
  {
    LatestIsLeftLast(s.rows, s.link, i);
    UseExactly(s, s.rows[i].version);
  }

  lemma ByHandNeedsOne(s: State, smoke: string -> bool)
    requires NoneLeft(s.rows, s.link)
    ensures RollbackByHand(s, smoke) == None
  {
  }
}
