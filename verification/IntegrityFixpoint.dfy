/**
 A second integrity check against an unchanged storage changes nothing, and the other things the
 check and the manual operations promise.
 */
module IntegrityFixpoint {
  import opened Common
  import opened Integrity
  import TS = TargetState

  /** Artifacts as after a check, whatever became of the targets. */
  ghost predicate Checked(db: Database, after: Database, scope: set<nat>, views: nat -> Storage, now: nat) {
    && after.artifacts.Keys == db.artifacts.Keys
    && forall a <- db.artifacts.Keys :: after.artifacts[a] == SettledRow(db, scope, views, a, now)
  }

  lemma CheckSettles(db: Database, scope: set<nat>, views: nat -> Storage, order: seq<nat>, now: nat)
    requires TargetsExist(db) && Visits(order, scope)
    ensures Checked(db, Check(db, scope, views, order, now), scope, views, now)
  {
    ApplySettles(db, scope, views, order, now);
    forall a <- db.artifacts.Keys
      ensures a !in order ==> SettledRow(db, scope, views, a, now) == db.artifacts[a]
    {
      assert a !in order ==> a !in scope;
    }
  }

  /** Where an artifact is after a check. */
  lemma PathAfter(db: Database, after: Database, scope: set<nat>, views: nat -> Storage, now: nat, a: nat)
    requires Checked(db, after, scope, views, now) && a in db.artifacts
    ensures after.artifacts[a].storage == db.artifacts[a].storage
            && after.artifacts[a].sourceId == db.artifacts[a].sourceId
    ensures after.artifacts[a].target == db.artifacts[a].target
    ensures match Decided(db, scope, views, a)
            case Some(Relink(f)) => after.artifacts[a].path == f
            case _ => after.artifacts[a].path == db.artifacts[a].path
  {
  }

  /** A storage that gave no decision gives none again. */
  lemma UnusableStays(db: Database, after: Database, scope: set<nat>, views: nat -> Storage, now: nat, storage: nat)
    requires Checked(db, after, scope, views, now) && !Usable(db, scope, storage, views(storage))
    ensures !Usable(after, scope, storage, views(storage))
  {
    var view := views(storage);
    forall a <- db.artifacts.Keys
      ensures db.artifacts[a].storage == storage ==> after.artifacts[a] == db.artifacts[a]
    {
    }
    assert RowsOf(after, scope, storage) == RowsOf(db, scope, storage);
    assert Absent(after, scope, storage, view) == Absent(db, scope, storage, view);
  }

  /** What the storage says about the path of a checked artifact afterwards. */
  lemma ExistsAfter(db: Database, after: Database, scope: set<nat>, views: nat -> Storage, now: nat, a: nat)
    requires Checked(db, after, scope, views, now) && a in db.artifacts && a in scope
    requires var storage := db.artifacts[a].storage;
      Steady(views(storage)) && Usable(db, scope, storage, views(storage))
    ensures var view := views(db.artifacts[a].storage);
            && view.exist(after.artifacts[a].path) != Raises
            && (view.exist(after.artifacts[a].path) == No <==> Decided(db, scope, views, a) == Some(Gone))
            && (view.exist(after.artifacts[a].path) == No ==> view.exist(db.artifacts[a].path) == No)
  {
    PathAfter(db, after, scope, views, now, a);
    DecisionShape(db, scope, views, a);
  }

  /** The artifacts still absent are those that were not relinked. */
  lemma AbsentAfter(db: Database, after: Database, scope: set<nat>, views: nat -> Storage, now: nat, storage: nat)
    requires Checked(db, after, scope, views, now) && Steady(views(storage))
             && Usable(db, scope, storage, views(storage))
    ensures Usable(after, scope, storage, views(storage))
    ensures forall a <- db.artifacts.Keys :: db.artifacts[a].storage == storage && a in scope ==>
              (a in Absent(after, scope, storage, views(storage)) <==> Decided(db, scope, views, a) == Some(Gone))
    ensures Absent(after, scope, storage, views(storage)) <= Absent(db, scope, storage, views(storage))
  {
    var view := views(storage);
    SameRows(db, after, scope, views, now, storage);
    forall a <- RowsOf(db, scope, storage)
      ensures view.exist(after.artifacts[a].path) != Raises
      ensures view.exist(after.artifacts[a].path) == No <==> Decided(db, scope, views, a) == Some(Gone)
      ensures view.exist(after.artifacts[a].path) == No ==> view.exist(db.artifacts[a].path) == No
    {
      ExistsAfter(db, after, scope, views, now, a);
    }
  }

  lemma SameRows(db: Database, after: Database, scope: set<nat>, views: nat -> Storage, now: nat, storage: nat)
    requires Checked(db, after, scope, views, now)
    ensures RowsOf(after, scope, storage) == RowsOf(db, scope, storage)
  {
    forall a <- db.artifacts.Keys
      ensures after.artifacts[a].storage == db.artifacts[a].storage
    {
      PathAfter(db, after, scope, views, now, a);
    }
  }

  /** What a decision says about the artifact's own path. */
  lemma DecisionShape(db: Database, scope: set<nat>, views: nat -> Storage, a: nat)
    requires a in db.artifacts && a in scope
    requires Steady(views(db.artifacts[a].storage))
             && Usable(db, scope, db.artifacts[a].storage, views(db.artifacts[a].storage))
    ensures var view := views(db.artifacts[a].storage);
            match Decided(db, scope, views, a)
            case Some(Present) => view.exist(db.artifacts[a].path) == Yes
            case Some(Gone) => view.exist(db.artifacts[a].path) == No && view.scan.Some?
            case Some(Relink(f)) => view.exist(db.artifacts[a].path) == No && view.exist(f) == Yes
            case None => false
  {
    var storage := db.artifacts[a].storage;
    var view := views(storage);
    assert a in RowsOf(db, scope, storage);
    SteadyConfirms(db, scope, views, a);
    if a in Absent(db, scope, storage, view) {
      assert Absent(db, scope, storage, view) != {};
    }
  }

  /** A scanned file is tracked afterwards iff it was, or an artifact was relinked to it. */
  lemma TrackedAfter(
    db: Database, after: Database, scope: set<nat>, views: nat -> Storage, now: nat, storage: nat, f: string)
    requires Checked(db, after, scope, views, now) && Steady(views(storage))
             && Usable(db, scope, storage, views(storage))
    requires views(storage).scan.Some? && f in views(storage).scan.value
    ensures f in Tracked(db, storage) ==> f in Tracked(after, storage)
    ensures f in Tracked(after, storage) && f !in Tracked(db, storage) ==>
              exists b <- db.artifacts.Keys :: db.artifacts[b].storage == storage
                && Decided(db, scope, views, b) == Some(Relink(f))
  {
    if f in Tracked(db, storage) {
      var c :| c in db.artifacts && db.artifacts[c].storage == storage && db.artifacts[c].path == f;
      PathAfter(db, after, scope, views, now, c);
      if c in scope {
        DecisionShape(db, scope, views, c);
      }
      assert after.artifacts[c].path == f;
    } else if f in Tracked(after, storage) {
      var c :| c in after.artifacts && after.artifacts[c].storage == storage && after.artifacts[c].path == f;
      PathAfter(db, after, scope, views, now, c);
      assert db.artifacts[c].path in Tracked(db, storage);
    }
  }

  /** A file another artifact was relinked to was no candidate of one that stayed missing. */
  lemma RelinkedWasNoCandidate(
    db: Database, scope: set<nat>, views: nat -> Storage, storage: nat, x: nat, b: nat, f: string)
    requires Steady(views(storage)) && Usable(db, scope, storage, views(storage))
    requires x in scope && x in db.artifacts && db.artifacts[x].storage == storage
             && Decided(db, scope, views, x) == Some(Gone)
    requires b in db.artifacts && db.artifacts[b].storage == storage && Decided(db, scope, views, b) == Some(Relink(f))
    ensures views(storage).scan.Some? && Candidates(db, views(storage).scan.value, b) == {f}
    ensures f !in Candidates(db, views(storage).scan.value, x)
  {
    var view := views(storage);
    RelinkIsUntracked(db, scope, views, b, f);
    DecisionShape(db, scope, views, x);
    var files, absent := view.scan.value, Absent(db, scope, storage, view);
    assert x in absent;
    assert x !in Claimants(db, absent, files, f);
  }

  /** An artifact that stayed missing has the candidates it had: nothing it could have taken was taken. */
  lemma CandidatesAfter(
    db: Database, after: Database, scope: set<nat>, views: nat -> Storage, now: nat, storage: nat, x: nat)
    requires Checked(db, after, scope, views, now) && Steady(views(storage))
             && Usable(db, scope, storage, views(storage))
    requires views(storage).scan.Some? && x in scope && x in db.artifacts && db.artifacts[x].storage == storage
    requires Decided(db, scope, views, x) == Some(Gone)
    ensures Candidates(after, views(storage).scan.value, x) == Candidates(db, views(storage).scan.value, x)
  {
    var view := views(storage);
    var files, absent := view.scan.value, Absent(db, scope, storage, view);
    PathAfter(db, after, scope, views, now, x);
    DecisionShape(db, scope, views, x);
    assert x in absent;
    forall f <- files
      ensures f in Candidates(after, files, x) <==> f in Candidates(db, files, x)
    {
      TrackedAfter(db, after, scope, views, now, storage, f);
      if f in Tracked(after, storage) && f !in Tracked(db, storage) {
        var b :| b in db.artifacts.Keys && db.artifacts[b].storage == storage
          && Decided(db, scope, views, b) == Some(Relink(f));
        RelinkedWasNoCandidate(db, scope, views, storage, x, b, f);
      }
    }
  }

  /** And nobody else's claims on them changed. */
  lemma ClaimantsAfter(
    db: Database, after: Database, scope: set<nat>, views: nat -> Storage, now: nat, storage: nat, x: nat, f: string)
    requires Checked(db, after, scope, views, now) && Steady(views(storage))
             && Usable(db, scope, storage, views(storage))
    requires views(storage).scan.Some? && x in scope && x in db.artifacts && db.artifacts[x].storage == storage
    requires Decided(db, scope, views, x) == Some(Gone) && f in Candidates(db, views(storage).scan.value, x)
    ensures Claimants(after, Absent(after, scope, storage, views(storage)), views(storage).scan.value, f)
         == Claimants(db, Absent(db, scope, storage, views(storage)), views(storage).scan.value, f)
  {
    var view := views(storage);
    var files, absent, absent2 :=
      view.scan.value, Absent(db, scope, storage, view), Absent(after, scope, storage, view);
    AbsentAfter(db, after, scope, views, now, storage);
    DecisionShape(db, scope, views, x);
    assert x in Claimants(db, absent, files, f);
    forall y <- db.artifacts.Keys
      ensures y in absent2 && f in Candidates(after, files, y) <==> y in absent && f in Candidates(db, files, y)
    {
      if y in absent2 {
        CandidatesAfter(db, after, scope, views, now, storage, y);
      } else if y in absent {
        DecisionShape(db, scope, views, y);
        match Decided(db, scope, views, y) {
          case Some(Relink(g)) => RelinkedWasNoCandidate(db, scope, views, storage, x, y, g);
          case _ =>
        }
      }
    }
  }

  /** The second check decides: present stays present, relinked is present, missing stays missing. */
  lemma DecidedAgain(db: Database, after: Database, scope: set<nat>, views: nat -> Storage, now: nat, a: nat)
    requires Checked(db, after, scope, views, now) && a in db.artifacts && Steady(views(db.artifacts[a].storage))
    ensures Decided(after, scope, views, a)
         == match Decided(db, scope, views, a)
            case None => None
            case Some(Gone) => Some(Gone)
            case Some(_) => Some(Present)
  {
    var storage := db.artifacts[a].storage;
    var view := views(storage);
    PathAfter(db, after, scope, views, now, a);
    SteadyConfirms(after, scope, views, a);
    SteadyConfirms(db, scope, views, a);
    if a in scope {
      if !Usable(db, scope, storage, view) {
        UnusableStays(db, after, scope, views, now, storage);
      } else {
        AbsentAfter(db, after, scope, views, now, storage);
        DecisionShape(db, scope, views, a);
        if Decided(db, scope, views, a) == Some(Gone) {
          GoneAgain(db, after, scope, views, now, a);
        }
      }
    }
  }

  lemma GoneAgain(db: Database, after: Database, scope: set<nat>, views: nat -> Storage, now: nat, a: nat)
    requires Checked(db, after, scope, views, now) && a in db.artifacts && Steady(views(db.artifacts[a].storage))
    requires a in scope && Usable(db, scope, db.artifacts[a].storage, views(db.artifacts[a].storage))
    requires Decided(db, scope, views, a) == Some(Gone)
    ensures Decide(after, scope, views(db.artifacts[a].storage), a) == Some(Gone)
  {
    var storage := db.artifacts[a].storage;
    var view := views(storage);
    PathAfter(db, after, scope, views, now, a);
    AbsentAfter(db, after, scope, views, now, storage);
    DecisionShape(db, scope, views, a);
    SteadyConfirms(db, scope, views, a);
    var files, absent, absent2 :=
      view.scan.value, Absent(db, scope, storage, view), Absent(after, scope, storage, view);
    CandidatesAfter(db, after, scope, views, now, storage, a);
    forall f: string
      ensures !Matched(after, absent2, files, a, f)
    {
      if Candidates(after, files, a) == {f} {
        assert f in Candidates(db, files, a);
        ClaimantsAfter(db, after, scope, views, now, storage, a, f);
        assert !Matched(db, absent, files, a, f);
      }
    }
  }

  /** So no artifact row changes. */
  lemma ArtifactsFixed(
    db: Database, after: Database, scope: set<nat>, views: nat -> Storage, now: nat, now2: nat, a: nat)
    requires Checked(db, after, scope, views, now) && a in db.artifacts && Steady(views(db.artifacts[a].storage))
    ensures SettledRow(after, scope, views, a, now2) == after.artifacts[a]
  {
    DecidedAgain(db, after, scope, views, now, a);
  }

  /** The target rows after a check. */
  lemma CheckRetargets(db: Database, scope: set<nat>, views: nat -> Storage, order: seq<nat>, now: nat, t: nat)
    requires TargetsExist(db) && Visits(order, scope) && t in db.targets
    ensures var after := Check(db, scope, views, order, now);
            && t in after.targets
            && after.targets[t] == if SettledTarget(db, scope, views, t)
               then RetargetedRow(db.targets[t], HasMissing(after, t), now)
                                   else db.targets[t]
  {
    ApplySettles(db, scope, views, order, now);
    var list := DecisionList(db, scope, views, order);
    var applied := ApplyAll(db, db, list, now);
    var after := Check(db, scope, views, order, now);
    assert HasMissing(after, t) == HasMissing(applied, t);
    if SettledTarget(db, scope, views, t) {
      var a :| a in db.artifacts.Keys && db.artifacts[a].target == t && Decided(db, scope, views, a).Some?;
      assert a in scope && a in order;
    }
  }

  /** Some artifact of this target was decided. */
  ghost predicate SettledTarget(db: Database, scope: set<nat>, views: nat -> Storage, t: nat) {
    exists a <- db.artifacts.Keys :: db.artifacts[a].target == t && Decided(db, scope, views, a).Some?
  }

  /**
   The fixpoint: checking again with the storages answering as before, in any order and at any
   time, changes no artifact row and no target row.
   */
  lemma CheckTwice(
    db: Database, scope: set<nat>, views: nat -> Storage, order: seq<nat>, order2: seq<nat>, now: nat, now2: nat)
    requires TargetsExist(db) && Visits(order, scope) && Visits(order2, scope)
    requires forall a <- db.artifacts.Keys :: Steady(views(db.artifacts[a].storage))
    ensures var once := Check(db, scope, views, order, now);
            Check(once, scope, views, order2, now2) == once
  {
    var once := Check(db, scope, views, order, now);
    CheckSettles(db, scope, views, order, now);
    KeysStay(db, scope, views, order, now);
    assert TargetsExist(once) by {
      forall a <- once.artifacts.Keys
        ensures once.artifacts[a].target in once.targets
      {
        PathAfter(db, once, scope, views, now, a);
      }
    }
    var twice := Check(once, scope, views, order2, now2);
    CheckSettles(once, scope, views, order2, now2);
    KeysStay(once, scope, views, order2, now2);
    forall a <- once.artifacts.Keys
      ensures twice.artifacts[a] == once.artifacts[a]
    {
      ArtifactsFixed(db, once, scope, views, now, now2, a);
    }
    assert twice.artifacts == once.artifacts;
    forall t <- once.targets.Keys
      ensures twice.targets[t] == once.targets[t]
    {
      TargetFixed(db, once, scope, views, order, order2, now, now2, t);
    }
    assert twice.targets == once.targets;
  }

  lemma KeysStay(db: Database, scope: set<nat>, views: nat -> Storage, order: seq<nat>, now: nat)
    requires TargetsExist(db) && Visits(order, scope)
    ensures Check(db, scope, views, order, now).targets.Keys == db.targets.Keys
  {
    ApplySettles(db, scope, views, order, now);
  }

  lemma TargetFixed(
    db: Database, once: Database, scope: set<nat>, views: nat -> Storage, order: seq<nat>, order2: seq<nat>, now: nat,
    now2: nat, t: nat)
    requires TargetsExist(db) && TargetsExist(once) && Visits(order, scope) && Visits(order2, scope)
    requires forall a <- db.artifacts.Keys :: Steady(views(db.artifacts[a].storage))
    requires once == Check(db, scope, views, order, now) && t in db.targets && t in once.targets
    requires Check(once, scope, views, order2, now2).artifacts == once.artifacts
    ensures var twice := Check(once, scope, views, order2, now2);
      t in twice.targets && twice.targets[t] == once.targets[t]
  {
    CheckRetargets(db, scope, views, order, now, t);
    CheckRetargets(once, scope, views, order2, now2, t);
    var twice := Check(once, scope, views, order2, now2);
    assert HasMissing(twice, t) == HasMissing(once, t);
    RetargetedTwice(db.targets[t], HasMissing(once, t), now, now2);
    if SettledTarget(once, scope, views, t) {
      SettledBefore(db, once, scope, views, order, now, t);
    }
  }

  lemma RetargetedTwice(row: Target, missing: bool, now: nat, now2: nat)
    ensures RetargetedRow(RetargetedRow(row, missing, now), missing, now2) == RetargetedRow(row, missing, now)
  {
  }

  /** A target settled by the second check was settled by the first. */
  lemma SettledBefore(
    db: Database, once: Database, scope: set<nat>, views: nat -> Storage, order: seq<nat>, now: nat, t: nat)
    requires TargetsExist(db) && Visits(order, scope) && once == Check(db, scope, views, order, now)
    requires forall a <- db.artifacts.Keys :: Steady(views(db.artifacts[a].storage))
    requires SettledTarget(once, scope, views, t)
    ensures SettledTarget(db, scope, views, t)
  {
    CheckSettles(db, scope, views, order, now);
    var a :| a in once.artifacts.Keys && once.artifacts[a].target == t && Decided(once, scope, views, a).Some?;
    PathAfter(db, once, scope, views, now, a);
    DecidedAgain(db, once, scope, views, now, a);
  }

  /**
   A storage whose first pass or scan fails leaves its artifacts untouched, even if other storages
   are settled and the storage changes its answers later.
   */
  lemma FailedStorageUntouched(db: Database, scope: set<nat>, views: nat -> Storage, order: seq<nat>, now: nat, a: nat)
    requires TargetsExist(db) && Visits(order, scope) && a in db.artifacts
    requires var storage := db.artifacts[a].storage;
             || !FirstPassOk(db, scope, storage, views(storage))
             || (Absent(db, scope, storage, views(storage)) != {} && views(storage).scan == None)
    ensures var after := Check(db, scope, views, order, now);
      a in after.artifacts && after.artifacts[a] == db.artifacts[a]
  {
    CheckSettles(db, scope, views, order, now);
  }

  /**
   Targets follow their artifacts: after a check a target whose artifacts were settled is never
   downloaded with a file missing, nor missing with none missing, and the playlist's policy decides
   what a loss means; other targets stay.
   */
  lemma TargetsFollow(db: Database, scope: set<nat>, views: nat -> Storage, order: seq<nat>, now: nat, t: nat)
    requires TargetsExist(db) && Visits(order, scope) && t in db.targets
    ensures var after := Check(db, scope, views, order, now);
            t in after.targets && var (was, got) := (db.targets[t], after.targets[t]);
            && (!SettledTarget(db, scope, views, t) ==> got == was)
            && (SettledTarget(db, scope, views, t) && got.status.Downloaded? ==> !HasMissing(after, t))
            && (SettledTarget(db, scope, views, t) && got.status.Missing? ==> HasMissing(after, t))
            && (SettledTarget(db, scope, views, t) && was.status.Downloaded? && HasMissing(after, t) ==>
                  match was.policy
                  case Redownload => got.status.Pending?
                  case Ignore => got.status.Ignored?
                  case Leave => got.status.Missing?)
            && (!was.status.Downloaded? && !was.status.Missing? ==> got == was)
  {
    CheckRetargets(db, scope, views, order, now, t);
  }

  // ---- file names ----

  ghost predicate Splits(name: string, head: string, tag: string, extensions: string) {
    name == head + tag + extensions && IsExtensions(extensions)
  }

  lemma {:induction false} TagFound(name: string, tag: string) returns (head: string, extensions: string)
    requires TaggedBeforeExtensions(name, tag)
    ensures Splits(name, head, tag, extensions)
  {
    if |tag| <= |name| && name[..|tag|] == tag && IsExtensions(name[|tag|..]) {
      head, extensions := "", name[|tag|..];
    } else {
      head, extensions := TagFound(name[1..], tag);
      head := [name[0]] + head;
    }
  }

  lemma {:induction false} TagMatches(name: string, head: string, tag: string, extensions: string)
    requires Splits(name, head, tag, extensions)
    ensures TaggedBeforeExtensions(name, tag)
    decreases |head|
  {
    if head == "" {
      assert name[..|tag|] == tag && name[|tag|..] == extensions;
    } else {
      assert name[1..] == head[1..] + tag + extensions;
      TagMatches(name[1..], head[1..], tag, extensions);
    }
  }

  ghost predicate TaggedName(name: string, tag: string) {
    exists head, extensions :: Splits(name, head, tag, extensions)
  }

  lemma TagExactly(name: string, tag: string)
    ensures TaggedBeforeExtensions(name, tag) <==> TaggedName(name, tag)
  {
    if TaggedBeforeExtensions(name, tag) {
      var head, extensions := TagFound(name, tag);
    }
    if TaggedName(name, tag) {
      var head, extensions :| Splits(name, head, tag, extensions);
      TagMatches(name, head, tag, extensions);
    }
  }

  /** A file matches a source id exactly when its name is some text, the id in brackets, and then only extensions. */
  lemma MatchesExactly(path: string, sourceId: string)
    ensures MatchesSourceId(path, sourceId) <==> TaggedName(Name(path), "[" + sourceId + "]")
  {
    TagExactly(Name(path), "[" + sourceId + "]");
  }

  // ---- linking by hand ----

  datatype LinkError = NoArtifact | NotMissing | AlreadyTracked | NoSuchFile | NothingToUndo

  /** Points a missing artifact at an untracked file. */
  function ManualLink(db: Database, a: nat, f: string, exist: bool, now: nat): Result<Database, LinkError> {
    if a !in db.artifacts then Err(NoArtifact)
    else if db.artifacts[a].missingSince == None then Err(NotMissing)
    else if TrackedByOther(db, a, f) then Err(AlreadyTracked)
    else if !exist then Err(NoSuchFile)
    else
      var row := db.artifacts[a];
      var linked :=
        db.(artifacts := db.artifacts[a := row.(path := f, missingSince := None, previousPath := Some(row.path),
        version := now)]);
      if row.target in db.targets && !HasMissing(linked, row.target) then
        Ok(linked.(targets := db.targets[row.target := db.targets[row.target].(status := TS.Downloaded,
          version := now)]))
      else Ok(linked)
  }

  /** Puts the previous path back; no file is moved and no other row is looked at. */
  function UndoManualLink(db: Database, a: nat, now: nat): Result<Database, LinkError> {
    if a !in db.artifacts then Err(NoArtifact)
    else if db.artifacts[a].previousPath == None then Err(NothingToUndo)
    else
      var row := db.artifacts[a];
      var undone := db.(artifacts := db.artifacts[a :=
                                                  row.(path := row.previousPath.value, previousPath := None,
                                                    missingSince := Some(now), version := now)]);
      if row.target in db.targets then
        Ok(undone.(targets := db.targets[row.target := db.targets[row.target].(status := TS.Missing, version := now)]))
      else Ok(undone)
  }

  /** Linking by hand creates no collision. */
  lemma ManualLinkCollidesNothing(db: Database, a: nat, f: string, exist: bool, now: nat, x: nat, y: nat)
    requires ManualLink(db, a, f, exist, now).Ok? && Collide(ManualLink(db, a, f, exist, now).value, x, y)
    ensures Collide(db, x, y)
  {
    assert !TrackedByOther(db, a, f);
  }

  /**
   A link that succeeds leaves the target downloaded exactly when none of its files is missing any more, or it
   was before.
   */
  lemma ManualLinkSettles(db: Database, a: nat, f: string, exist: bool, now: nat)
    requires ManualLink(db, a, f, exist, now).Ok? && db.artifacts[a].target in db.targets
    ensures exist && db.artifacts[a].missingSince.Some?
    ensures var after := ManualLink(db, a, f, exist, now).value;
            var t := db.artifacts[a].target;
            && after.artifacts.Keys == db.artifacts.Keys && after.targets.Keys == db.targets.Keys
            && after.artifacts[a].path == f && after.artifacts[a].missingSince == None
            && (after.targets[t].status.Downloaded? <==> !HasMissing(after, t) || db.targets[t].status.Downloaded?)
            && (forall b <- db.artifacts.Keys :: b != a ==> after.artifacts[b] == db.artifacts[b])
            && forall u <- db.targets.Keys :: u != t ==> after.targets[u] == db.targets[u]
  {
    var row := db.artifacts[a];
    var linked :=
      db.(artifacts := db.artifacts[a := row.(path := f, missingSince := None, previousPath := Some(row.path),
      version := now)]);
    assert HasMissing(ManualLink(db, a, f, exist, now).value, row.target) == HasMissing(linked, row.target);
  }

  /** Undoing a link does, exactly when another artifact of the storage has taken the previous path meanwhile. */
  lemma UndoCollidesExactly(db: Database, a: nat, now: nat)
    requires UndoManualLink(db, a, now).Ok?
    ensures (exists x, y :: Collide(UndoManualLink(db, a, now).value, x, y) && !Collide(db, x, y))
            <==> exists b <- db.artifacts.Keys ::
                   b != a && db.artifacts[b].storage == db.artifacts[a].storage
                   && db.artifacts[b].path == db.artifacts[a].previousPath.value
                      && db.artifacts[b].path != db.artifacts[a].path
  {
    var after := UndoManualLink(db, a, now).value;
    var previous := db.artifacts[a].previousPath.value;
    if b :| b in db.artifacts && b != a && db.artifacts[b].storage == db.artifacts[a].storage
            && db.artifacts[b].path == previous && db.artifacts[b].path != db.artifacts[a].path {
      assert Collide(after, a, b) && !Collide(db, a, b);
    }
    if x, y :| Collide(after, x, y) && !Collide(db, x, y) {
      assert x == a || y == a;
      var b := if x == a then y else x;
      assert after.artifacts[b] == db.artifacts[b];
    }
  }

  /**
   It happens: of two missing artifacts of one storage the first is linked to an untracked file, the second to
   the path the first one left, and then the first link is undone.
   */
  lemma UndoCollides(db: Database, a: nat, b: nat, f: string, now: nat)
    requires a in db.artifacts && b in db.artifacts && a != b && db.artifacts[a].storage == db.artifacts[b].storage
    requires db.artifacts[a].missingSince.Some? && db.artifacts[b].missingSince.Some?
    requires (forall x, y :: !Collide(db, x, y)) && !TrackedByOther(db, a, f) && f != db.artifacts[a].path
    ensures var path := db.artifacts[a].path;
            var first := ManualLink(db, a, f, true, now);
            && first.Ok?
            && var second := ManualLink(first.value, b, path, true, now + 1);
               && second.Ok?
               && var undone := UndoManualLink(second.value, a, now + 2);
                  undone.Ok? && Collide(undone.value, a, b)
    ensures var path := db.artifacts[a].path;
            var second := ManualLink(ManualLink(db, a, f, true, now).value, b, path, true, now + 1).value;
            forall x, y :: !Collide(second, x, y)
  {
    var path := db.artifacts[a].path;
    var first := ManualLink(db, a, f, true, now).value;
    forall x | x in db.artifacts && x != a && db.artifacts[x].storage == db.artifacts[a].storage
      ensures db.artifacts[x].path != path
    {
      assert !Collide(db, x, a);
    }
    assert !TrackedByOther(first, b, path);
    var second := ManualLink(first, b, path, true, now + 1).value;
    forall x, y
      ensures !Collide(second, x, y)
    {
      if Collide(second, x, y) {
        ManualLinkCollidesNothing(first, b, path, true, now + 1, x, y);
        ManualLinkCollidesNothing(db, a, f, true, now, x, y);
      }
    }
  }

  /** Undo takes a link back: the artifact has its path again and is missing as before. */
  lemma UndoInvertsLink(db: Database, a: nat, f: string, now: nat, now2: nat)
    requires ManualLink(db, a, f, true, now).Ok?
    ensures var linked := ManualLink(db, a, f, true, now).value;
            var undone := UndoManualLink(linked, a, now2);
            && undone.Ok? && undone.value.artifacts.Keys == db.artifacts.Keys
            && undone.value.artifacts[a].path == db.artifacts[a].path && undone.value.artifacts[a].missingSince.Some?
            && forall b <- db.artifacts.Keys :: b != a ==> undone.value.artifacts[b] == db.artifacts[b]
  {
  }
}
