/**
 The integrity check (src/sluicery/core/integrity.py): lost artifacts are matched to untracked
 files by the source id in the file name. Storage calls are answers given as parameters, and the
 database may change between the snapshot and the update.
 */
module Integrity {
  import opened Common
  import TS = TargetState

  datatype Policy = Leave | Redownload | Ignore

  datatype Artifact = Artifact(
    storage: nat, path: string, target: nat, sourceId: string, missingSince: Option<nat>, previousPath: Option<string>,
    version: nat)

  datatype Target = Target(status: TS.Status, policy: Policy, version: nat)

  datatype Database = Database(artifacts: map<nat, Artifact>, targets: map<nat, Target>)

  datatype Answer = Yes | No | Raises

  /** One storage's answers: existence per path, and what a scan lists, unless it fails. */
  datatype Storage = Storage(exist: string -> Answer, scan: Option<set<string>>)

  datatype Decision = Present | Relink(path: string) | Gone

  // ---- file names ----

  /** The last component of a path. */
  function Name(path: string): string {
    if path == "" then "" else if path[|path| - 1] == '/' then "" else Name(path[..|path| - 1]) + [path[|path| - 1]]
  }

  /** One or more groups of a dot and characters other than dots. */
  predicate IsExtensions(s: string) {
    |s| >= 2 && s[0] == '.' && s[1] != '.'
    && forall k :: 0 <= k < |s| && s[k] == '.' ==> k + 1 < |s| && s[k + 1] != '.'
  }

  /** The bracketed id directly before the extensions. */
  predicate MatchesSourceId(path: string, sourceId: string) {
    TaggedBeforeExtensions(Name(path), "[" + sourceId + "]")
  }

  predicate TaggedBeforeExtensions(name: string, tag: string) {
    || (|tag| <= |name| && name[..|tag|] == tag && IsExtensions(name[|tag|..]))
    || (name != "" && TaggedBeforeExtensions(name[1..], tag))
  }

  // ---- deciding ----

  function Tracked(db: Database, storage: nat): set<string> {
    set a | a in db.artifacts && db.artifacts[a].storage == storage :: db.artifacts[a].path
  }

  /** The rows checked in one storage. */
  function RowsOf(db: Database, scope: set<nat>, storage: nat): set<nat> {
    set a | a in scope && a in db.artifacts && db.artifacts[a].storage == storage
  }

  /** No answer of the first pass raised. */
  predicate FirstPassOk(db: Database, scope: set<nat>, storage: nat, view: Storage) {
    forall a <- RowsOf(db, scope, storage) :: view.exist(db.artifacts[a].path) != Raises
  }

  function Absent(db: Database, scope: set<nat>, storage: nat, view: Storage): set<nat> {
    set a | a in RowsOf(db, scope, storage) && view.exist(db.artifacts[a].path) == No
  }

  function Candidates(db: Database, files: set<string>, a: nat): set<string>
    requires a in db.artifacts
  {
    set f | f in files && f !in Tracked(db, db.artifacts[a].storage) && MatchesSourceId(f, db.artifacts[a].sourceId)
  }

  function Claimants(db: Database, absent: set<nat>, files: set<string>, f: string): set<nat> {
    set a | a in absent && a in db.artifacts && f in Candidates(db, files, a)
  }

  /** The only candidate, claimed by nobody else. */
  predicate Matched(db: Database, absent: set<nat>, files: set<string>, a: nat, f: string)
    requires a in db.artifacts
  {
    Candidates(db, files, a) == {f} && Claimants(db, absent, files, f) == {a}
  }

  /** The file an absent artifact is relinked to, if there is one. */
  function MatchOf(db: Database, absent: set<nat>, files: set<string>, a: nat): (r: Option<string>)
    requires a in db.artifacts
    ensures r.Some? ==> r.value in files && Matched(db, absent, files, a, r.value)
    ensures r == None ==> forall f :: !Matched(db, absent, files, a, f)
  {
    if exists f <- files :: Matched(db, absent, files, a, f) then
      (assert forall f, g :: Matched(db, absent, files, a, f) && Matched(db, absent, files, a, g) ==> f in {g};
       var f :| f in files && Matched(db, absent, files, a, f);
       Some(f))
    else
      assert forall f :: Matched(db, absent, files, a, f) ==> f in Candidates(db, files, a);
      None
  }

  /** Whether the storage gave the check what it needs. */
  predicate Usable(db: Database, scope: set<nat>, storage: nat, view: Storage) {
    FirstPassOk(db, scope, storage, view) && (Absent(db, scope, storage, view) != {} ==> view.scan.Some?)
  }

  /** The decision for one artifact of the scope; None leaves it alone. */
  function Decide(db: Database, scope: set<nat>, view: Storage, a: nat): Option<Decision>
    requires a in db.artifacts
  {
    var storage := db.artifacts[a].storage;
    var absent := Absent(db, scope, storage, view);
    if a !in scope || !Usable(db, scope, storage, view) then None
    else if a !in absent then Some(Present)
    else
      match MatchOf(db, absent, view.scan.value, a)
      case Some(f) => Some(Relink(f))
      case None => Some(Gone)
  }

  /** Asked again before anything is written. */
  function Revalidate(decision: Decision, path: string, again: Storage): Option<Decision> {
    match again.exist(path)
    case Raises => None
    case Yes => Some(Present)
    case No =>
      match decision
      case Gone => Some(Gone)
      case Present => None
      case Relink(f) => if again.exist(f) == Yes then Some(Relink(f)) else None
  }

  // ---- updating ----

  /**
   What is asked again of the rows: path and version of the artifact, status and version of the target
   seen. A version never repeats, so a row that passes still has the storage and the target seen, and
   the update may read them from it.
   */
  predicate Unchanged(db: Database, snapshot: Database, a: nat) {
    && a in db.artifacts && a in snapshot.artifacts
    && db.artifacts[a].path == snapshot.artifacts[a].path && db.artifacts[a].version == snapshot.artifacts[a].version
    && var t := snapshot.artifacts[a].target;
       && t in db.targets && t in snapshot.targets
       && db.targets[t].status == snapshot.targets[t].status && db.targets[t].version == snapshot.targets[t].version
  }

  predicate TrackedByOther(db: Database, a: nat, f: string)
    requires a in db.artifacts
  {
    exists b <- db.artifacts.Keys :: b != a && db.artifacts[b].storage == db.artifacts[a].storage
      && db.artifacts[b].path == f
  }

  /** The row after its decision. */
  function Settled(row: Artifact, decision: Decision, now: nat): Artifact {
    match decision
    case Present => row.(missingSince := None)
    case Gone => row.(missingSince := if row.missingSince.Some? then row.missingSince else Some(now))
    case Relink(f) => row.(path := f, missingSince := None)
  }

  /** A changed row gets a new version. */
  function Stamped(before: Artifact, after: Artifact, now: nat): Artifact {
    if after == before then before else after.(version := now)
  }

  predicate Applies(db: Database, snapshot: Database, a: nat, decision: Decision) {
    Unchanged(db, snapshot, a) && (decision.Relink? ==> !TrackedByOther(db, a, decision.path))
  }

  function ApplyOne(db: Database, snapshot: Database, a: nat, decision: Decision, now: nat): Database {
    if Applies(db, snapshot, a, decision) then
      db.(artifacts := db.artifacts[a := Stamped(db.artifacts[a], Settled(db.artifacts[a], decision, now), now)])
    else db
  }

  function ApplyAll(db: Database, snapshot: Database, order: seq<(nat, Decision)>, now: nat): Database {
    if order == [] then db
    else
      var before := ApplyAll(db, snapshot, order[..|order| - 1], now);
      ApplyOne(before, snapshot, order[|order| - 1].0, order[|order| - 1].1, now)
  }

  /** The targets whose artifacts were settled. */
  function AffectedTargets(db: Database, snapshot: Database, order: seq<(nat, Decision)>, now: nat): set<nat> {
    if order == [] then {}
    else
      var before := ApplyAll(db, snapshot, order[..|order| - 1], now);
      var (a, decision) := order[|order| - 1];
      AffectedTargets(db, snapshot, order[..|order| - 1], now)
      + if Applies(before, snapshot, a, decision) then {before.artifacts[a].target} else {}
  }

  predicate HasMissing(db: Database, t: nat) {
    exists a <- db.artifacts.Keys :: db.artifacts[a].target == t && db.artifacts[a].missingSince.Some?
  }

  function RetargetedRow(row: Target, missing: bool, now: nat): Target {
    var status :=
      if missing && row.status.Downloaded? then
        (match row.policy case Redownload => TS.Pending case Ignore => TS.Ignored case Leave => TS.Missing)
      else if !missing && row.status.Missing? then TS.Downloaded
      else row.status;
    if status == row.status then row else row.(status := status, version := now)
  }

  function Retargeted(db: Database, affected: set<nat>, now: nat): Database {
    db.(targets := map t | t in db.targets ::
      if t in affected then RetargetedRow(db.targets[t], HasMissing(db, t), now) else db.targets[t])
  }

  /** The second half of the check, on whatever the database has become. */
  function Update(db: Database, snapshot: Database, order: seq<(nat, Decision)>, now: nat): Database {
    Retargeted(ApplyAll(db, snapshot, order, now), AffectedTargets(db, snapshot, order, now), now)
  }

  class Checker {
    var db: Database

    constructor (db: Database)
      ensures this.db == db
    {
      this.db := db;
    }

    /** The second half of the check as it runs: the decisions in order, then the affected targets in any order. */
    method ApplyDecisions(snapshot: Database, order: seq<(nat, Decision)>, now: nat)
      modifies this
      ensures db == Update(old(db), snapshot, order, now)
    {
      var affected: set<nat> := {};
      for i := 0 to |order|
        invariant db == ApplyAll(old(db), snapshot, order[..i], now)
        invariant affected == AffectedTargets(old(db), snapshot, order[..i], now)
      {
        assert order[..i + 1][..i] == order[..i];
        var (a, decision) := order[i];
        if Unchanged(db, snapshot, a) {
          if !decision.Relink? || !TrackedByOther(db, a, decision.path) {
            affected := affected + {db.artifacts[a].target};
            db := db.(artifacts := db.artifacts[a := Stamped(db.artifacts[a], Settled(db.artifacts[a], decision, now),
              now)]);
          }
        }
      }
      assert order[..|order|] == order;
      ghost var settled := db;
      var left := affected;
      while left != {}
        invariant left <= affected
        invariant db.artifacts == settled.artifacts && db.targets.Keys == settled.targets.Keys
        invariant forall t <- settled.targets.Keys ::
            db.targets[t] == if t in affected - left then RetargetedRow(settled.targets[t], HasMissing(settled, t), now)
                             else settled.targets[t]
        decreases left
      {
        var t :| t in left;
        left := left - {t};
        if t in db.targets {
          db := db.(targets := db.targets[t := RetargetedRow(db.targets[t], HasMissing(db, t), now)]);
        }
      }
    }
  }

  // ---- no collisions, whatever happened in between ----

  ghost predicate Collide(db: Database, a: nat, b: nat) {
    && a != b && a in db.artifacts && b in db.artifacts
    && db.artifacts[a].storage == db.artifacts[b].storage && db.artifacts[a].path == db.artifacts[b].path
  }

  /**
   However the decisions came about and whatever the database has become since the snapshot, two
   artifacts of a storage share a path afterwards only if they did before.
   */
  lemma {:induction false} UpdateMakesNoCollision(
    db: Database, snapshot: Database, order: seq<(nat, Decision)>, now: nat, a: nat, b: nat)
    requires Collide(Update(db, snapshot, order, now), a, b)
    ensures Collide(db, a, b)
  {
    if order != [] {
      var init := order[..|order| - 1];
      var before := ApplyAll(db, snapshot, init, now);
      var (c, decision) := order[|order| - 1];
      if decision.Relink? && Applies(before, snapshot, c, decision) {
        assert !TrackedByOther(before, c, decision.path);
      }
      assert Collide(before, a, b);
      assert Collide(Update(db, snapshot, init, now), a, b);
      UpdateMakesNoCollision(db, snapshot, init, now, a, b);
    }
  }

  // ---- one check against a steady storage and database ----

  /** What a scan lists exists. */
  ghost predicate Steady(view: Storage) {
    view.scan.Some? ==> forall f <- view.scan.value :: view.exist(f) == Yes
  }

  function Decided(db: Database, scope: set<nat>, views: nat -> Storage, a: nat): Option<Decision>
    requires a in db.artifacts
  {
    var view := views(db.artifacts[a].storage);
    match Decide(db, scope, view, a)
    case None => None
    case Some(decision) => Revalidate(decision, db.artifacts[a].path, view)
  }

  /** A steady storage confirms every decision. */
  lemma SteadyConfirms(db: Database, scope: set<nat>, views: nat -> Storage, a: nat)
    requires a in db.artifacts && Steady(views(db.artifacts[a].storage))
    ensures Decided(db, scope, views, a) == Decide(db, scope, views(db.artifacts[a].storage), a)
  {
  }

  /** The decisions in the order in which the artifacts were visited. */
  function DecisionList(db: Database, scope: set<nat>, views: nat -> Storage, order: seq<nat>): seq<(nat, Decision)> {
    if order == [] then []
    else
      var a := order[|order| - 1];
      DecisionList(db, scope, views, order[..|order| - 1])
      + if a in db.artifacts && Decided(db, scope, views, a).Some? then [(a, Decided(db, scope, views, a).value)]
        else []
  }

  function Check(db: Database, scope: set<nat>, views: nat -> Storage, order: seq<nat>, now: nat): Database {
    Update(db, db, DecisionList(db, scope, views, order), now)
  }

  /** Each artifact visited once, and none of the scope left out. */
  ghost predicate Visits(order: seq<nat>, scope: set<nat>) {
    && (forall i, j :: 0 <= i < j < |order| ==> order[i] != order[j])
    && (forall a <- scope :: a in order)
  }

  ghost predicate TargetsExist(db: Database) { forall a <- db.artifacts.Keys :: db.artifacts[a].target in db.targets }

  // ---- the artifacts after it, row by row ----

  function SettledRow(db: Database, scope: set<nat>, views: nat -> Storage, a: nat, now: nat): Artifact
    requires a in db.artifacts
  {
    match Decided(db, scope, views, a)
    case None => db.artifacts[a]
    case Some(decision) => Stamped(db.artifacts[a], Settled(db.artifacts[a], decision, now), now)
  }

  /** The table when the artifacts visited so far are settled and the others untouched. */
  ghost predicate SettledSoFar(
    db: Database, after: Database, scope: set<nat>, views: nat -> Storage, order: seq<nat>, now: nat)
  {
    && after.targets == db.targets && after.artifacts.Keys == db.artifacts.Keys
    && forall a <- db.artifacts.Keys ::
         after.artifacts[a] == if a in order then SettledRow(db, scope, views, a, now) else db.artifacts[a]
  }

  /** Two artifacts of a storage are never relinked to one file, nor to a tracked one. */
  lemma RelinkIsFree(
    db: Database, after: Database, scope: set<nat>, views: nat -> Storage, order: seq<nat>, now: nat, a: nat, f: string)
    requires SettledSoFar(db, after, scope, views, order, now) && a in db.artifacts && a !in order
    requires Decided(db, scope, views, a) == Some(Relink(f))
    ensures !TrackedByOther(after, a, f)
  {
    var storage := db.artifacts[a].storage;
    forall b <- db.artifacts.Keys
      ensures b != a && db.artifacts[b].storage == storage ==> after.artifacts[b].path != f
    {
      if b != a && db.artifacts[b].storage == storage {
        RelinkIsUntracked(db, scope, views, a, f);
        assert db.artifacts[b].path in Tracked(db, storage);
        if Decided(db, scope, views, b) == Some(Relink(f)) {
          RelinkIsUntracked(db, scope, views, b, f);
        }
      }
    }
  }

  lemma RelinkIsUntracked(db: Database, scope: set<nat>, views: nat -> Storage, a: nat, f: string)
    requires a in db.artifacts && Decided(db, scope, views, a) == Some(Relink(f))
    ensures var storage := db.artifacts[a].storage;
            var view := views(storage);
            var absent := Absent(db, scope, storage, view);
            && Usable(db, scope, storage, view) && view.scan.Some? && f in view.scan.value && a in absent
            && f !in Tracked(db, storage) && Matched(db, absent, view.scan.value, a, f)
  {
    assert f in {f};
  }

  lemma {:induction false} ApplySettles(db: Database, scope: set<nat>, views: nat -> Storage, order: seq<nat>, now: nat)
    requires TargetsExist(db) && forall i, j :: 0 <= i < j < |order| ==> order[i] != order[j]
    ensures SettledSoFar(db, ApplyAll(db, db, DecisionList(db, scope, views, order), now), scope, views, order, now)
    ensures AffectedTargets(db, db, DecisionList(db, scope, views, order), now)
         == set a | a in order && a in db.artifacts && Decided(db, scope, views, a).Some? :: db.artifacts[a].target
  {
    if order != [] {
      var init, a := order[..|order| - 1], order[|order| - 1];
      ApplySettles(db, scope, views, init, now);
      var list, before := DecisionList(db, scope, views, init),
        ApplyAll(db, db, DecisionList(db, scope, views, init), now);
      assert order == init + [a];
      var full := DecisionList(db, scope, views, order);
      if a in db.artifacts && Decided(db, scope, views, a).Some? {
        var decision := Decided(db, scope, views, a).value;
        assert full == list + [(a, decision)] && full[..|full| - 1] == list;
        if decision.Relink? {
          RelinkIsFree(db, before, scope, views, init, now, a, decision.path);
        }
        assert Applies(before, db, a, decision);
      } else {
        assert full == list;
      }
    }
  }
}
