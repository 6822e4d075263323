/**
 What an integrity check leaves in the rows, said of the storages' answers and the file names, and which
 manual operations are accepted (src/sluicery/core/integrity.py).
 */
module IntegrityOutcome {
  import opened Common
  import opened Integrity
  import opened IntegrityFixpoint
  import TS = TargetState

  /** Artifact b is checked in this storage. */
  ghost predicate CheckedIn(db: Database, scope: set<nat>, storage: nat, b: nat) {
    b in scope && b in db.artifacts && db.artifacts[b].storage == storage
  }

  ghost predicate Lost(db: Database, scope: set<nat>, storage: nat, view: Storage, b: nat) {
    CheckedIn(db, scope, storage, b) && view.exist(db.artifacts[b].path) == No
  }

  /** The storage answered for every checked path, and could be listed if one of them is not there. */
  ghost predicate Answers(db: Database, scope: set<nat>, storage: nat, view: Storage) {
    && (forall b :: CheckedIn(db, scope, storage, b) ==> view.exist(db.artifacts[b].path) != Raises)
    && ((exists b :: Lost(db, scope, storage, view, b)) ==> view.scan.Some?)
  }

  /** The file's last component is some text, the id in brackets, and then only extensions. */
  ghost predicate Carries(f: string, id: string) {
    exists directory, head, groups :: CarriesIn(f, id, directory, head, groups)
  }

  ghost predicate CarriesIn(f: string, id: string, directory: string, head: string, groups: seq<string>) {
    && f == directory + head + "[" + id + "]" + Dotted(groups) && Extensions(groups)
    && Directory(directory) && OneComponent(head + "[" + id + "]" + Dotted(groups))
  }

  /** A dot before each group. */
  function Dotted(groups: seq<string>): string {
    if groups == [] then "" else "." + groups[0] + Dotted(groups[1..])
  }

  /** At least one, and each of them text without dots. */
  ghost predicate Extensions(groups: seq<string>) {
    groups != [] && forall k :: 0 <= k < |groups| ==> groups[k] != "" && NoDot(groups[k])
  }

  ghost predicate NoDot(s: string) { forall k :: 0 <= k < |s| ==> s[k] != '.' }

  ghost predicate Directory(s: string) { s == "" || s[|s| - 1] == '/' }

  ghost predicate OneComponent(s: string) { forall k :: 0 <= k < |s| ==> s[k] != '/' }

  /** A listed file that no artifact of the storage has as its path and that carries the artifact's id. */
  ghost predicate MayTake(db: Database, view: Storage, a: nat, f: string)
    requires a in db.artifacts
  {
    && view.scan.Some? && f in view.scan.value && Carries(f, db.artifacts[a].sourceId)
    && forall b <- db.artifacts.Keys :: db.artifacts[b].storage == db.artifacts[a].storage ==> db.artifacts[b].path != f
  }

  /** The only file it may take, and no other lost artifact may take it. */
  ghost predicate Takes(db: Database, scope: set<nat>, view: Storage, a: nat, f: string)
    requires a in db.artifacts
  {
    && MayTake(db, view, a, f) && (forall g :: MayTake(db, view, a, g) ==> g == f)
    && forall b :: b != a && Lost(db, scope, db.artifacts[a].storage, view, b) ==> !MayTake(db, view, b, f)
  }

  // ---- file names ----

  /** The last component: the rest is empty or ends in a separator. */
  lemma {:induction false} NameExactly(path: string, directory: string, name: string)
    requires path == directory + name && Directory(directory) && OneComponent(name)
    ensures Name(path) == name
    decreases |name|
  {
    if name != "" {
      var init := name[..|name| - 1];
      assert path[..|path| - 1] == directory + init && path[|path| - 1] == name[|name| - 1];
      NameExactly(path[..|path| - 1], directory, init);
      assert name == init + [name[|name| - 1]];
    } else if directory != "" {
      assert path == directory;
    }
  }

  lemma {:induction false} NameSplits(path: string) returns (directory: string)
    ensures path == directory + Name(path) && Directory(directory) && OneComponent(Name(path))
  {
    if path == "" || path[|path| - 1] == '/' {
      directory := path;
    } else {
      directory := NameSplits(path[..|path| - 1]);
      assert path == path[..|path| - 1] + [path[|path| - 1]];
    }
  }

  lemma {:induction false} DottedIsExtensions(groups: seq<string>)
    requires Extensions(groups)
    ensures IsExtensions(Dotted(groups))
  {
    var first, rest := groups[0], groups[1..];
    var s := "." + first + Dotted(rest);
    assert NoDot(first) && forall k :: 0 < k <= |first| ==> s[k] == first[k - 1];
    if rest != [] {
      DottedIsExtensions(rest);
    }
    forall k | 0 <= k < |s| && s[k] == '.'
      ensures k + 1 < |s| && s[k + 1] != '.'
    {
      if k > |first| {
        assert s[k] == Dotted(rest)[k - |first| - 1];
        assert s[k + 1] == Dotted(rest)[k - |first|];
      }
    }
    assert s[1] == first[0];
  }

  /** The text up to the next dot. */
  lemma {:induction false} NextDot(s: string) returns (n: nat)
    ensures n <= |s| && NoDot(s[..n]) && (n < |s| ==> s[n] == '.')
  {
    if s == "" || s[0] == '.' {
      n := 0;
    } else {
      n := NextDot(s[1..]);
      n := n + 1;
      assert s[..n] == [s[0]] + s[1..][..n - 1];
    }
  }

  lemma {:induction false} ExtensionsAreDotted(s: string) returns (groups: seq<string>)
    requires IsExtensions(s)
    ensures Extensions(groups) && Dotted(groups) == s
    decreases |s|
  {
    var n := NextDot(s[1..]);
    var first, rest := s[1..][..n], s[n + 1..];
    assert s[0] == '.' && s[1] != '.';
    assert s[1..][0] == s[1] && first != "";
    assert s == "." + first + rest;
    if rest == "" {
      groups := [first];
      assert groups[1..] == [] && Dotted(groups[1..]) == "";
    } else {
      assert rest[0] == s[n + 1] == s[1..][n] == '.';
      forall k | 0 <= k < |rest| && rest[k] == '.'
        ensures k + 1 < |rest| && rest[k + 1] != '.'
      {
        assert rest[k] == s[k + n + 1];
      }
      groups := ExtensionsAreDotted(rest);
      groups := [first] + groups;
      assert groups[1..] != [] && Dotted(groups) == "." + first + Dotted(groups[1..]);
    }
  }

  lemma CarriesMatches(f: string, id: string, directory: string, head: string, groups: seq<string>)
    requires CarriesIn(f, id, directory, head, groups)
    ensures MatchesSourceId(f, id)
  {
    var tag, extensions := "[" + id + "]", Dotted(groups);
    DottedIsExtensions(groups);
    var name := head + tag + extensions;
    assert name == head + "[" + id + "]" + extensions && f == directory + name;
    NameExactly(f, directory, name);
    assert Splits(name, head, tag, extensions);
    TagMatches(name, head, tag, extensions);
  }

  lemma MatchesCarries(f: string, id: string)
    requires MatchesSourceId(f, id)
    ensures Carries(f, id)
  {
    var tag := "[" + id + "]";
    var directory := NameSplits(f);
    var head, extensions := TagFound(Name(f), tag);
    assert head + tag + extensions == head + "[" + id + "]" + extensions;
    assert f == directory + head + "[" + id + "]" + extensions;
    var groups := ExtensionsAreDotted(extensions);
    assert CarriesIn(f, id, directory, head, groups);
  }

  lemma CarriesExactly(f: string, id: string)
    ensures MatchesSourceId(f, id) <==> Carries(f, id)
  {
    if MatchesSourceId(f, id) {
      MatchesCarries(f, id);
    }
    if directory, head, groups :| CarriesIn(f, id, directory, head, groups) {
      CarriesMatches(f, id, directory, head, groups);
    }
  }

  // ---- artifacts ----

  lemma AnswersExactly(db: Database, scope: set<nat>, storage: nat, view: Storage)
    ensures Answers(db, scope, storage, view) <==> Usable(db, scope, storage, view)
    ensures forall b :: b in Absent(db, scope, storage, view) <==> Lost(db, scope, storage, view, b)
  {
    forall b
      ensures b in RowsOf(db, scope, storage) <==> CheckedIn(db, scope, storage, b)
      ensures b in Absent(db, scope, storage, view) <==> Lost(db, scope, storage, view, b)
    {
    }
    if Absent(db, scope, storage, view) != {} {
      var b :| b in Absent(db, scope, storage, view);
      assert Lost(db, scope, storage, view, b);
    }
  }

  lemma MayTakeExactly(db: Database, view: Storage, a: nat, f: string)
    requires a in db.artifacts && view.scan.Some?
    ensures MayTake(db, view, a, f) <==> f in Candidates(db, view.scan.value, a)
  {
    CarriesExactly(f, db.artifacts[a].sourceId);
  }

  lemma TakesExactly(db: Database, scope: set<nat>, view: Storage, a: nat, f: string)
    requires a in db.artifacts && view.scan.Some? && Lost(db, scope, db.artifacts[a].storage, view, a)
    ensures Takes(db, scope, view, a, f)
            <==> Matched(db, Absent(db, scope, db.artifacts[a].storage, view), view.scan.value, a, f)
  {
    var storage, files := db.artifacts[a].storage, view.scan.value;
    var absent := Absent(db, scope, storage, view);
    AnswersExactly(db, scope, storage, view);
    forall b: nat, g | b in db.artifacts
      ensures MayTake(db, view, b, g) <==> g in Candidates(db, files, b)
    {
      MayTakeExactly(db, view, b, g);
    }
    if Takes(db, scope, view, a, f) {
      assert Candidates(db, files, a) == {f};
      assert Claimants(db, absent, files, f) == {a};
    }
    if Matched(db, absent, files, a, f) {
      assert f in {f} && MayTake(db, view, a, f);
      forall g | MayTake(db, view, a, g)
        ensures g == f
      {
        assert g in {f};
      }
      forall b | b != a && Lost(db, scope, storage, view, b)
        ensures !MayTake(db, view, b, f)
      {
        assert b !in Claimants(db, absent, files, f);
      }
    }
  }

  /**
   A check of a steady storage that answered leaves each checked artifact flagged as missing exactly when the
   path it then has does not exist, since the first check that found it lost. Its path changes exactly when the
   file is lost and one untracked listed file alone carries its id, which no other lost artifact of the storage
   may take; and then to that file. Of a storage that did not answer, and outside the scope, nothing changes.
   */
  lemma CheckOutcome(db: Database, scope: set<nat>, views: nat -> Storage, order: seq<nat>, now: nat, a: nat)
    requires TargetsExist(db) && Visits(order, scope) && a in db.artifacts && Steady(views(db.artifacts[a].storage))
    ensures a in Check(db, scope, views, order, now).artifacts
    ensures var (was, got) := (db.artifacts[a], Check(db, scope, views, order, now).artifacts[a]);
            var view := views(was.storage);
            if a in scope && Answers(db, scope, was.storage, view) then
              && (got.missingSince.Some? <==> view.exist(got.path) == No)
              && (got.missingSince.Some? ==>
                    got.missingSince == if was.missingSince.Some? then was.missingSince else Some(now))
              && (got.path != was.path
                  <==> view.exist(was.path) == No && exists f :: Takes(db, scope, view, a, f))
              && (got.path != was.path ==> Takes(db, scope, view, a, got.path))
              && (got != was ==> got == was.(path := got.path, missingSince := got.missingSince, version := now))
            else got == was
  {
    var was := db.artifacts[a];
    var view := views(was.storage);
    CheckSettles(db, scope, views, order, now);
    AnswersExactly(db, scope, was.storage, view);
    SteadyConfirms(db, scope, views, a);
    if a in scope && Usable(db, scope, was.storage, view) {
      DecisionShape(db, scope, views, a);
      if Lost(db, scope, was.storage, view, a) {
        forall f
          ensures Takes(db, scope, view, a, f)
                  <==> Matched(db, Absent(db, scope, was.storage, view), view.scan.value, a, f)
        {
          TakesExactly(db, scope, view, a, f);
        }
      }
    }
  }

  // ---- targets ----

  /** An artifact of the target was checked in a storage that answered. */
  ghost predicate Touched(db: Database, scope: set<nat>, views: nat -> Storage, t: nat) {
    exists a <- db.artifacts.Keys ::
      db.artifacts[a].target == t && a in scope
        && Answers(db, scope, db.artifacts[a].storage, views(db.artifacts[a].storage))
  }

  /**
   And each target of such an artifact has the status that its files call for: after a loss a downloaded one
   what the policy of its playlist says, without one a missing one is downloaded; every other keeps its status.
   */
  lemma TargetOutcome(db: Database, scope: set<nat>, views: nat -> Storage, order: seq<nat>, now: nat, t: nat)
    requires TargetsExist(db) && Visits(order, scope) && t in db.targets
    requires forall a <- db.artifacts.Keys :: Steady(views(db.artifacts[a].storage))
    ensures t in Check(db, scope, views, order, now).targets
    ensures var after := Check(db, scope, views, order, now);
            var (was, got) := (db.targets[t], after.targets[t]);
            var missing := exists a :: a in after.artifacts && after.artifacts[a].target == t
                                       && after.artifacts[a].missingSince.Some?;
            && got.status == (if !Touched(db, scope, views, t) then was.status
                              else if missing && was.status == TS.Downloaded then
                                (match was.policy
                                 case Redownload => TS.Pending
                                 case Ignore => TS.Ignored
                                 case Leave => TS.Missing)
                              else if !missing && was.status == TS.Missing then TS.Downloaded
                              else was.status)
            && got.policy == was.policy && got.version == if got.status != was.status then now else was.version
  {
    CheckRetargets(db, scope, views, order, now, t);
    forall a <- db.artifacts.Keys
      ensures Decided(db, scope, views, a).Some?
              <==> a in scope && Answers(db, scope, db.artifacts[a].storage, views(db.artifacts[a].storage))
    {
      AnswersExactly(db, scope, db.artifacts[a].storage, views(db.artifacts[a].storage));
      SteadyConfirms(db, scope, views, a);
    }
    assert SettledTarget(db, scope, views, t) <==> Touched(db, scope, views, t);
  }

  // ---- a database that changed in between ----

  /** The row is not as the snapshot has it, or the target the snapshot names is not. */
  ghost predicate Changed(db: Database, snapshot: Database, a: nat)
    requires a in db.artifacts
  {
    || a !in snapshot.artifacts
    || db.artifacts[a].path != snapshot.artifacts[a].path || db.artifacts[a].version != snapshot.artifacts[a].version
    || var t := snapshot.artifacts[a].target;
       || t !in db.targets || t !in snapshot.targets
       || db.targets[t].status != snapshot.targets[t].status || db.targets[t].version != snapshot.targets[t].version
  }

  /** Whatever was decided about an artifact that has changed since, its row is left as it is. */
  lemma ChangedIsLeft(
    db: Database, snapshot: Database, order: seq<(nat, Decision)>, now: nat, a: nat)
    requires a in db.artifacts && Changed(db, snapshot, a)
    ensures var after := Update(db, snapshot, order, now);
            a in after.artifacts && after.artifacts[a] == db.artifacts[a]
  {
    AppliedLeaves(db, snapshot, order, now, a);
  }

  lemma {:induction false} AppliedLeaves(
    db: Database, snapshot: Database, order: seq<(nat, Decision)>, now: nat, a: nat)
    requires a in db.artifacts && Changed(db, snapshot, a)
    ensures var after := ApplyAll(db, snapshot, order, now);
            after.targets == db.targets && a in after.artifacts && after.artifacts[a] == db.artifacts[a]
  {
    if order != [] {
      AppliedLeaves(db, snapshot, order[..|order| - 1], now, a);
    }
  }

  /**
   Of an unchanged one the decision is carried out: present clears the flag, a loss sets it unless it is set, and a
   relink takes the file, unless another artifact of the storage has its path by now.
   */
  lemma UnchangedIsSettled(db: Database, snapshot: Database, a: nat, decision: Decision, now: nat)
    requires a in db.artifacts && !Changed(db, snapshot, a)
    ensures var (was, got) := (db.artifacts[a], Update(db, snapshot, [(a, decision)], now).artifacts[a]);
            match decision
            case Present => got.path == was.path && got.missingSince == None
            case Gone =>
              && got.path == was.path
              && got.missingSince == if was.missingSince.Some? then was.missingSince else Some(now)
            case Relink(f) =>
              if exists b :: b != a && b in db.artifacts && db.artifacts[b].storage == was.storage
                             && db.artifacts[b].path == f
              then got == was
              else got.path == f && got.missingSince == None
  {
    var order := [(a, decision)];
    assert order[..|order| - 1] == [] && ApplyAll(db, snapshot, [], now) == db;
    assert ApplyAll(db, snapshot, order, now) == ApplyOne(db, snapshot, a, decision, now);
  }

  // ---- asking again, and linking by hand ----

  /**
   When the storage has changed since the decision: a file that is back is present, whatever was decided; a loss
   stands while the file is away, a relink while the file found is there; nothing else is written.
   */
  lemma AskedAgain(decision: Decision, path: string, again: Storage)
    ensures var r := Revalidate(decision, path, again);
            && (r == Some(Present) <==> again.exist(path) == Yes)
            && (r == Some(Gone) <==> again.exist(path) == No && decision == Gone)
            && forall f ::
                 (r == Some(Relink(f))
                  <==> again.exist(path) == No && decision == Relink(f) && again.exist(f) == Yes)
  {
  }

  /** A link by hand is accepted exactly for a missing artifact and an existing file nobody else of the storage has. */
  lemma LinkAcceptedExactly(db: Database, a: nat, f: string, exist: bool, now: nat)
    ensures ManualLink(db, a, f, exist, now).Ok?
            <==> a in db.artifacts && db.artifacts[a].missingSince.Some? && exist
                 && forall b :: b != a && b in db.artifacts && db.artifacts[b].storage == db.artifacts[a].storage
                                ==> db.artifacts[b].path != f
    ensures UndoManualLink(db, a, now).Ok? <==> a in db.artifacts && db.artifacts[a].previousPath.Some?
  {
  }

  /** What they leave: the artifact's own row, and its target's, each with a new version. */
  lemma LinkLeaves(db: Database, a: nat, f: string, now: nat)
    requires ManualLink(db, a, f, true, now).Ok? && db.artifacts[a].target in db.targets
    ensures var (was, t) := (db.artifacts[a], db.artifacts[a].target);
            var settled := forall b :: b != a && b in db.artifacts && db.artifacts[b].target == t
                                       ==> db.artifacts[b].missingSince == None;
            ManualLink(db, a, f, true, now).value
            == Database(db.artifacts[a := Artifact(was.storage, f, t, was.sourceId, None, Some(was.path), now)],
                        if settled then db.targets[t := Target(TS.Downloaded, db.targets[t].policy, now)]
                        else db.targets)
  {
    var row := db.artifacts[a];
    var linked :=
      db.(artifacts := db.artifacts[a := row.(path := f, missingSince := None, previousPath := Some(row.path),
      version := now)]);
    forall b | b in linked.artifacts
      ensures b != a ==> linked.artifacts[b] == db.artifacts[b]
    {
    }
  }

  lemma UndoLeaves(db: Database, a: nat, now: nat)
    requires UndoManualLink(db, a, now).Ok? && db.artifacts[a].target in db.targets
    ensures var (was, t) := (db.artifacts[a], db.artifacts[a].target);
            UndoManualLink(db, a, now).value
            == Database(
                 db.artifacts[a := Artifact(was.storage, was.previousPath.value, t, was.sourceId, Some(now), None,
                   now)],
                 db.targets[t := Target(TS.Missing, db.targets[t].policy, now)])
  {
  }
}
