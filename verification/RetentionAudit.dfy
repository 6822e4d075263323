/**
 Executing a retention plan: the two-phase audit log, the quarantining delete and the rows
 (src/sluicery/core/retention.py, storage/local.py), and the two scanners that read such a log
 (core/retention.py and tasks/worker.py).
 */
module RetentionAudit {
  import opened Common
  import Retention

  datatype Candidate = Candidate(artifact: nat, target: nat, storage: nat, path: string, quarantine: string,
    identity: File)

  /** What an inspection sees of a file. */
  type File = nat

  datatype Event = DeleteIntent | Deleted | UnknownEvent

  /** A line of the log as a scanner sees it; a record's line is garbage when it is torn or its path breaks lines. */
  datatype Line = Record(event: Event, artifact: nat, storage: nat, path: string) | Blank | Garbage

  // ---- writing ----

  /** The characters JSON leaves alone and the scanners split lines at. */
  predicate BreaksLine(c: char) { c == '\U{85}' || c == '\U{2028}' || c == '\U{2029}' }

  predicate OneLine(path: string) { forall c <- path :: !BreaksLine(c) }

  /** The lines one written record reads back as. */
  function Rendered(event: Event, c: Candidate): seq<Line> {
    if OneLine(c.path) then [Record(event, c.artifact, c.storage, c.path)] else [Garbage, Garbage]
  }

  /** The log after the first k candidates are through. */
  function ClosedLog(cs: seq<Candidate>, k: nat): seq<Line>
    requires k <= |cs|
  {
    if k == 0 then [] else ClosedLog(cs, k - 1) + Rendered(DeleteIntent, cs[k - 1]) + Rendered(Deleted, cs[k - 1])
  }

  /**
   Every log an execution of these candidates can leave: closed pairs, perhaps an open intent, perhaps a torn
   line.
   */
  function LogOf(cs: seq<Candidate>, k: nat, open: bool, torn: bool): seq<Line>
    requires k <= |cs| && (open ==> k < |cs|)
  {
    ClosedLog(cs, k) + (if open then Rendered(DeleteIntent, cs[k]) else []) + (if torn then [Garbage] else [])
  }

  lemma ClosedIsLog(cs: seq<Candidate>, k: nat)
    requires k <= |cs|
    ensures LogOf(cs, k, false, false) == ClosedLog(cs, k)
  {
  }

  // ---- the worker's scanner ----

  /** Open keys after a log; None when a line is not a known record. */
  function PendingKeys(log: seq<Line>): Option<set<(nat, string)>> {
    if log == [] then Some({})
    else
      match (PendingKeys(log[..|log| - 1]), log[|log| - 1])
      case (Some(open), Record(DeleteIntent, artifact, _, path)) => Some(open + {(artifact, path)})
      case (Some(open), Record(Deleted, artifact, _, path)) => Some(open - {(artifact, path)})
      case _ => None
  }

  /** The worker may remove the log. */
  method NoUnfinishedIntent(log: seq<Line>, size: nat) returns (ok: bool)
    ensures ok == WorkerAccepts(log, size)
  {
    if size > 1048576 {
      return false;
    }
    var pending: set<(nat, string)> := {};
    for i := 0 to |log|
      invariant PendingKeys(log[..i]) == Some(pending)
    {
      assert log[..i + 1][..i] == log[..i];
      match log[i] {
        case Record(event, artifact, storage, path) =>
          if event == DeleteIntent {
            pending := pending + {(artifact, path)};
          } else if event == Deleted {
            pending := pending - {(artifact, path)};
          } else {
            UnknownFrom(log, i + 1, |log|);
            assert log[..|log|] == log;
            return false;
          }
        case _ =>
          UnknownFrom(log, i + 1, |log|);
          assert log[..|log|] == log;
          return false;
      }
    }
    assert log[..|log|] == log;
    ok := pending == {};
  }

  lemma {:induction false} UnknownFrom(log: seq<Line>, i: nat, n: nat)
    requires i <= n <= |log| && PendingKeys(log[..i]) == None
    ensures PendingKeys(log[..n]) == None
  {
    if i < n {
      UnknownFrom(log, i, n - 1);
      assert log[..n][..n - 1] == log[..n - 1];
    }
  }

  predicate WorkerAccepts(log: seq<Line>, size: nat) { size <= 1048576 && PendingKeys(log) == Some({}) }

  // ---- retention's own scanner ----

  /** Every intent has its completion somewhere in the log, whatever the order. */
  predicate RetentionAccepts(log: seq<Line>, size: nat) {
    && size <= 1048576 && Garbage !in log
    && forall k :: 0 <= k < |log| && log[k].Record? && log[k].event == DeleteIntent ==>
         Record(Deleted, log[k].artifact, log[k].storage, log[k].path) in log
  }

  // ---- on what an execution writes, they agree ----

  ghost predicate DistinctArtifacts(cs: seq<Candidate>) {
    forall i, j :: 0 <= i < j < |cs| ==> cs[i].artifact != cs[j].artifact
  }

  ghost predicate AllOneLine(cs: seq<Candidate>, k: nat) {
    forall i :: 0 <= i < k && i < |cs| ==> OneLine(cs[i].path)
  }

  /** Even places hold intents, odd ones their completions. */
  lemma {:induction false} ClosedLogRecords(cs: seq<Candidate>, k: nat)
    requires k <= |cs| && AllOneLine(cs, k)
    ensures |ClosedLog(cs, k)| == 2 * k
    ensures forall p :: 0 <= p < |ClosedLog(cs, k)| ==>
              var c := cs[p / 2];
              ClosedLog(cs, k)[p] == Record(if p % 2 == 0 then DeleteIntent else Deleted, c.artifact, c.storage, c.path)
  {
    if k > 0 {
      ClosedLogRecords(cs, k - 1);
    }
  }

  lemma PendingSnoc(log: seq<Line>, line: Line)
    ensures PendingKeys(log + [line]) ==
            match (PendingKeys(log), line)
            case (Some(open), Record(DeleteIntent, artifact, _, path)) => Some(open + {(artifact, path)})
            case (Some(open), Record(Deleted, artifact, _, path)) => Some(open - {(artifact, path)})
            case _ => None
  {
    assert (log + [line])[..|log|] == log;
  }

  lemma {:induction false} ClosedLogPending(cs: seq<Candidate>, k: nat)
    requires k <= |cs| && AllOneLine(cs, k)
    ensures PendingKeys(ClosedLog(cs, k)) == Some({})
  {
    if k > 0 {
      ClosedLogPending(cs, k - 1);
      var before := ClosedLog(cs, k - 1);
      var (intent, closed) := (Rendered(DeleteIntent, cs[k - 1])[0], Rendered(Deleted, cs[k - 1])[0]);
      PendingSnoc(before, intent);
      PendingSnoc(before + [intent], closed);
      assert ClosedLog(cs, k) == before + [intent] + [closed];
      assert {} + {(cs[k - 1].artifact, cs[k - 1].path)} - {(cs[k - 1].artifact, cs[k - 1].path)} == {};
    }
  }

  /** At most one intent of such a log is open, and it is the last record. */
  lemma OpenIntentIsLast(cs: seq<Candidate>, k: nat, open: bool)
    requires k <= |cs| && (open ==> k < |cs|) && AllOneLine(cs, |cs|)
    ensures PendingKeys(LogOf(cs, k, open, false)) == Some(if open then {(cs[k].artifact, cs[k].path)} else {})
    ensures var log := LogOf(cs, k, open, false);
            open ==> log != [] && log[|log| - 1] == Record(DeleteIntent, cs[k].artifact, cs[k].storage, cs[k].path)
  {
    ClosedLogPending(cs, k);
    var before := ClosedLog(cs, k);
    if open {
      PendingSnoc(before, Rendered(DeleteIntent, cs[k])[0]);
      assert LogOf(cs, k, open, false) == before + [Rendered(DeleteIntent, cs[k])[0]];
      assert {} + {(cs[k].artifact, cs[k].path)} == {(cs[k].artifact, cs[k].path)};
    } else {
      assert LogOf(cs, k, open, false) == before;
    }
  }

  /** A log with a line that is no record is refused by both. */
  lemma {:induction false} GarbageRefused(log: seq<Line>, i: nat, size: nat)
    requires i < |log| && log[i] == Garbage
    ensures PendingKeys(log) == None && !WorkerAccepts(log, size) && !RetentionAccepts(log, size)
  {
    if i < |log| - 1 {
      GarbageRefused(log[..|log| - 1], i, size);
    }
  }

  lemma {:induction false} BrokenPathIsGarbage(cs: seq<Candidate>, k: nat, i: nat) returns (at: nat)
    requires i < k <= |cs| && !OneLine(cs[i].path)
    ensures at < |ClosedLog(cs, k)| && ClosedLog(cs, k)[at] == Garbage
  {
    if i == k - 1 {
      at := |ClosedLog(cs, k - 1)|;
    } else {
      at := BrokenPathIsGarbage(cs, k - 1, i);
    }
  }

  /**
   On every log an execution can leave behind, at any crash point, the two scanners agree; and they
   accept exactly the complete, untorn logs within the limit whose paths do not break lines.
   */
  lemma ScannersAgree(cs: seq<Candidate>, k: nat, open: bool, torn: bool, size: nat)
    requires DistinctArtifacts(cs) && k <= |cs| && (open ==> k < |cs|)
    ensures WorkerAccepts(LogOf(cs, k, open, torn), size) <==> RetentionAccepts(LogOf(cs, k, open, torn), size)
    ensures WorkerAccepts(LogOf(cs, k, open, torn), size) <==> !open && !torn && size <= 1048576 && AllOneLine(cs, k)
  {
    var log := LogOf(cs, k, open, torn);
    if torn {
      GarbageRefused(log, |log| - 1, size);
    } else if !AllOneLine(cs, k) {
      var i :| 0 <= i < k && !OneLine(cs[i].path);
      var at := BrokenPathIsGarbage(cs, k, i);
      GarbageRefused(log, at, size);
    } else if open && !OneLine(cs[k].path) {
      GarbageRefused(log, |ClosedLog(cs, k)|, size);
    } else {
      CleanLogsAgree(cs, k, open, size);
    }
  }

  /** So of the logs of executions that came to their end a scanner refuses the long ones and those with such a path. */
  lemma FinishedLogAccepted(cs: seq<Candidate>, size: nat)
    requires DistinctArtifacts(cs)
    ensures WorkerAccepts(LogOf(cs, |cs|, false, false), size)
            <==> size <= 1024 * 1024
                 && forall i, c :: 0 <= i < |cs| && c in cs[i].path
                                   ==> c != '\U{85}' && c != '\U{2028}' && c != '\U{2029}'
  {
    ScannersAgree(cs, |cs|, false, false, size);
  }

  /** In a log of closed pairs every intent is completed. */
  lemma ClosedLogComplete(cs: seq<Candidate>, k: nat, p: nat)
    requires k <= |cs| && AllOneLine(cs, k) && p < |ClosedLog(cs, k)|
    ensures var line := ClosedLog(cs, k)[p];
            && line.Record? && p / 2 < k && line.artifact == cs[p / 2].artifact
            && (line.event == DeleteIntent
               ==> Record(Deleted, line.artifact, line.storage, line.path) in ClosedLog(cs, k))
  {
    ClosedLogRecords(cs, k);
    if p % 2 == 0 {
      assert ClosedLog(cs, k)[p + 1] in ClosedLog(cs, k);
    }
  }

  lemma CleanLogsAgree(cs: seq<Candidate>, k: nat, open: bool, size: nat)
    requires DistinctArtifacts(cs) && k <= |cs| && (open ==> k < |cs| && OneLine(cs[k].path)) && AllOneLine(cs, k)
    ensures var log := LogOf(cs, k, open, false);
            && (WorkerAccepts(log, size) <==> !open && size <= 1048576)
            && (RetentionAccepts(log, size) <==> !open && size <= 1048576)
  {
    ClosedLogPending(cs, k);
    var closed := ClosedLog(cs, k);
    forall p | 0 <= p < |closed|
      ensures closed[p].Record? && p / 2 < k && closed[p].artifact == cs[p / 2].artifact
      ensures closed[p].event == DeleteIntent
              ==> Record(Deleted, closed[p].artifact, closed[p].storage, closed[p].path) in closed
    {
      ClosedLogComplete(cs, k, p);
    }
    if open {
      OpenLogRefused(cs, k, size);
    } else {
      assert LogOf(cs, k, open, false) == closed;
    }
  }

  lemma OpenLogRefused(cs: seq<Candidate>, k: nat, size: nat)
    requires DistinctArtifacts(cs) && k < |cs| && OneLine(cs[k].path) && AllOneLine(cs, k)
    ensures var log := LogOf(cs, k, true, false); !WorkerAccepts(log, size) && !RetentionAccepts(log, size)
  {
    var log, closed := LogOf(cs, k, true, false), ClosedLog(cs, k);
    var intent := Record(DeleteIntent, cs[k].artifact, cs[k].storage, cs[k].path);
    assert log == closed + [intent];
    ClosedLogPending(cs, k);
    PendingSnoc(closed, intent);
    assert (cs[k].artifact, cs[k].path) in {} + {(cs[k].artifact, cs[k].path)};
    assert log[|closed|] == intent;
    forall p | 0 <= p < |log|
      ensures log[p] != Record(Deleted, cs[k].artifact, cs[k].storage, cs[k].path)
    {
      if p < |closed| {
        ClosedLogComplete(cs, k, p);
      }
    }
  }

  /** On other logs they differ: only the worker cares about the order. */
  lemma ScannersDifferElsewhere(artifact: nat, storage: nat, path: string)
    ensures var log := [Record(Deleted, artifact, storage, path), Record(DeleteIntent, artifact, storage, path)];
            RetentionAccepts(log, 0) && !WorkerAccepts(log, 0)
  {
    var first, second := Record(Deleted, artifact, storage, path), Record(DeleteIntent, artifact, storage, path);
    PendingSnoc([], first);
    PendingSnoc([first], second);
    assert [first] + [second] == [first, second] && [] + [first] == [first];
    assert {} - {(artifact, path)} + {(artifact, path)} == {(artifact, path)};
    assert (artifact, path) in {(artifact, path)};
  }

  // ---- deleting ----

  /** A storage and a path below its root. */
  type Location = (nat, string)

  /** The files of all storages. */
  type Files = map<Location, File>

  datatype DeleteError = QuarantineConflict | DeleteFailed | IdentityChanged | IdentityChangedQuarantined

  /** The directory part of a path. */
  function Parent(path: string): string {
    if path == "" then "" else if path[|path| - 1] == '/' then path[..|path| - 1] else Parent(path[..|path| - 1])
  }

  /** What stands before the last separator; nothing where there is none. */
  lemma {:induction false} ParentExactly(directory: string, name: string)
    requires forall k :: 0 <= k < |name| ==> name[k] != '/'
    ensures Parent(directory + "/" + name) == directory && Parent(name) == ""
    decreases |name|
  {
    var path := directory + "/" + name;
    if name == "" {
      assert path == directory + "/" && path[|path| - 1] == '/' && path[..|path| - 1] == directory;
    } else {
      var init := name[..|name| - 1];
      assert path[|path| - 1] == name[|name| - 1] && path[..|path| - 1] == directory + "/" + init;
      ParentExactly(directory, init);
    }
  }

  /** A rename that refuses an existing target. */
  function RenameNoReplace(files: Files, source: Location, target: Location): Option<Files> {
    if source !in files || target in files then None else Some((files - {source})[target := files[source]])
  }

  /** How a deletion ends; Died leaves the file where the quarantining rename put it. */
  datatype Deletion = Unlinked | Kept(error: DeleteError) | Died

  /** Nobody else touches the files. */
  ghost predicate Undisturbed(meddle: Files -> Files) { forall files :: meddle(files) == files }

  /**
   Deletes through a quarantine name of the same storage; meddle is what happens to the files between the
   rename and the inspection, dies says that the process ends there, and unlinks that the unlink works.
   */
  method DeleteFile(
    files: Files, storage: nat, path: string, quarantine: string, expected: File, meddle: Files -> Files, dies: bool,
    unlinks: bool)
    returns (after: Files, r: Deletion, ghost held: Files)
    ensures Undisturbed(meddle) ==>
              && (r.Died? ==> RenameNoReplace(files, (storage, path), (storage, quarantine)) == Some(after))
              && (r.Kept? ==> after == files)
              && (r.Unlinked? ==> (storage, path) in files && after == files - {(storage, path)})
    ensures Undisturbed(meddle) ==>
              (r.Unlinked? <==>
                !dies && unlinks && Parent(quarantine) == Parent(path) && (storage, quarantine) !in files
                && (storage, path) in files && files[(storage, path)] == expected)
    ensures var there := (storage, quarantine);
            r.Unlinked? ==> there in held && held[there] == expected && after == held - {there}
    ensures !r.Unlinked? ==> after.Values == held.Values
    ensures forall l <- held.Keys :: l != (storage, quarantine) ==> l in after && after[l] == held[l]
    ensures var (here, there) := ((storage, path), (storage, quarantine));
            held == files
            || (here in files && there !in files && held == meddle((files - {here})[there := files[here]]))
  {
    var here, there := (storage, path), (storage, quarantine);
    held := files;
    if Parent(quarantine) != Parent(path) || there in files {
      return files, Kept(QuarantineConflict), files;
    }
    var renamed := RenameNoReplace(files, here, there);
    if renamed == None {
      return files, Kept(DeleteFailed), files;
    }
    var current := meddle(renamed.value);
    held := current;
    if dies {
      return current, Died, held;
    }
    if there !in current {
      return current, Kept(DeleteFailed), held;
    }
    if current[there] != expected {
      var restored := RenameNoReplace(current, there, here);
      if restored == None {
        return current, Kept(IdentityChangedQuarantined), held;
      }
      RestoreKeepsValues(current, there, here);
      return restored.value, Kept(IdentityChanged), held;
    }
    if !unlinks {
      // the unlink raised: the entry goes back unless somebody took its place
      var restored := RenameNoReplace(current, there, here);
      if restored.Some? {
        RestoreKeepsValues(current, there, here);
        return restored.value, Kept(DeleteFailed), held;
      }
      return current, Kept(DeleteFailed), held;
    }
    after := current - {there};
    r := Unlinked;
  }

  lemma RestoreKeepsValues(files: Files, source: Location, target: Location)
    requires RenameNoReplace(files, source, target).Some?
    ensures RenameNoReplace(files, source, target).value.Values == files.Values
  {
    var after := RenameNoReplace(files, source, target).value;
    forall v <- files.Values
      ensures v in after.Values
    {
      var p :| p in files && files[p] == v;
      assert after[if p == source then target else p] == v;
    }
    forall v <- after.Values
      ensures v in files.Values
    {
      var p :| p in after && after[p] == v;
      assert files[if p == target then source else p] == v;
    }
  }

  // ---- the rows ----

  datatype ArtifactRow = ArtifactRow(target: nat, storage: nat, path: string)

  /** Whether a target is still downloaded, and the artifact rows. */
  datatype Rows = Rows(artifacts: map<nat, ArtifactRow>, downloaded: map<nat, bool>)

  /** The rows a candidate was planned from are as they were. */
  predicate Matches(rows: Rows, c: Candidate) {
    && c.artifact in rows.artifacts && rows.artifacts[c.artifact] == ArtifactRow(c.target, c.storage, c.path)
    && c.target in rows.downloaded && rows.downloaded[c.target]
  }

  /** The transaction after a deletion: the artifact row goes, the target is ignored from now on. */
  function Forget(rows: Rows, c: Candidate): Rows {
    Rows(rows.artifacts - {c.artifact}, rows.downloaded[c.target := false])
  }

  /** The rows after the first k candidates; None once one of them no longer matches. */
  function Forgotten(rows: Rows, cs: seq<Candidate>, k: nat): Option<Rows>
    requires k <= |cs|
  {
    if k == 0 then Some(rows)
    else
      match Forgotten(rows, cs, k - 1)
      case Some(before) => if Matches(before, cs[k - 1]) then Some(Forget(before, cs[k - 1])) else None
      case None => None
  }

  /**
   The transaction goes through exactly while the artifact is the planned target's, at the planned storage and path,
   and that target is downloaded; then the artifact is gone and the target no longer is, and nothing else changes.
   */
  lemma TurnExactly(rows: Rows, cs: seq<Candidate>, k: nat, before: Rows)
    requires k < |cs| && Forgotten(rows, cs, k) == Some(before)
    ensures var c, after := cs[k], Forgotten(rows, cs, k + 1);
            && (after.Some?
                <==> && c.artifact in before.artifacts && before.artifacts[c.artifact].target == c.target
                     && before.artifacts[c.artifact].storage == c.storage
                     && before.artifacts[c.artifact].path == c.path
                     && c.target in before.downloaded && before.downloaded[c.target])
            && (after.Some? ==>
                  && after.value.artifacts == before.artifacts - {c.artifact}
                  && after.value.downloaded == before.downloaded[c.target := false])
  {
  }

  lemma ForgottenNext(rows: Rows, cs: seq<Candidate>, k: nat, now: Rows)
    requires k < |cs| && Forgotten(rows, cs, k) == Some(now) && Matches(now, cs[k])
    ensures Forgotten(rows, cs, k + 1) == Some(Forget(now, cs[k]))
  {
  }

  /** Exactly the artifacts of the first k candidates are gone. */
  lemma {:induction false} ForgottenArtifacts(rows: Rows, cs: seq<Candidate>, k: nat)
    requires k <= |cs| && Forgotten(rows, cs, k).Some?
    ensures var after := Forgotten(rows, cs, k).value;
            && (forall a <- after.artifacts.Keys :: a in rows.artifacts && after.artifacts[a] == rows.artifacts[a])
            && (forall a <- rows.artifacts.Keys :: a in after.artifacts || exists i :: 0 <= i < k
                                                                             && cs[i].artifact == a)
            && (forall i :: 0 <= i < k ==> cs[i].artifact !in after.artifacts)
  {
    if k > 0 {
      ForgottenArtifacts(rows, cs, k - 1);
    }
  }

  /** Exactly their targets are not downloaded any more, and these differ. */
  lemma {:induction false} ForgottenTargets(rows: Rows, cs: seq<Candidate>, k: nat)
    requires k <= |cs| && Forgotten(rows, cs, k).Some?
    ensures var after := Forgotten(rows, cs, k).value;
            && (forall i :: 0 <= i < k ==> cs[i].target in after.downloaded && !after.downloaded[cs[i].target])
            && (forall t <- rows.downloaded.Keys :: t in after.downloaded
                                                  && (after.downloaded[t] == rows.downloaded[t]
                                                     || exists i :: 0 <= i < k && cs[i].target == t))
    ensures forall i, j :: 0 <= i < j < k ==> cs[i].target != cs[j].target
  {
    if k > 0 {
      ForgottenTargets(rows, cs, k - 1);
      assert forall i :: 0 <= i < k - 1 ==> cs[i].target != cs[k - 1].target;
    }
  }

  /** A plan whose rows match at the start. */
  ghost predicate MatchesAtStart(rows: Rows, cs: seq<Candidate>) {
    (forall i :: 0 <= i < |cs| ==> Matches(rows, cs[i])) && DistinctArtifacts(cs)
  }

  /** After earlier deletions a candidate still matches exactly when none of them was of its target. */
  lemma MatchesLater(rows: Rows, cs: seq<Candidate>, k: nat)
    requires MatchesAtStart(rows, cs) && k < |cs| && Forgotten(rows, cs, k).Some?
    ensures Matches(Forgotten(rows, cs, k).value, cs[k]) <==> forall i :: 0 <= i < k ==> cs[i].target != cs[k].target
  {
    var before := Forgotten(rows, cs, k).value;
    ForgottenArtifacts(rows, cs, k);
    ForgottenTargets(rows, cs, k);
    assert Matches(rows, cs[k]);
    assert cs[k].artifact in before.artifacts by {
      assert forall i :: 0 <= i < k ==> cs[i].artifact != cs[k].artifact;
    }
  }

  ghost predicate DistinctTargets(cs: seq<Candidate>, k: nat) {
    forall i, j :: 0 <= i < j < k && j < |cs| ==> cs[i].target != cs[j].target
  }

  /**
   With rows nobody else changes, a confirmed plan can be carried through to the end exactly when no
   two of its artifacts belong to one target: the first deletion ignores the target, and the next
   check of the same target then stops the execution.
   */
  lemma {:induction false} CompletesExactly(rows: Rows, cs: seq<Candidate>, k: nat)
    requires MatchesAtStart(rows, cs) && k <= |cs|
    ensures Forgotten(rows, cs, k).Some? <==> DistinctTargets(cs, k)
  {
    if k > 0 {
      CompletesExactly(rows, cs, k - 1);
      if Forgotten(rows, cs, k - 1).Some? {
        MatchesLater(rows, cs, k - 1);
      }
    }
  }

  // ---- the execution ----

  /** Where the process ends during a candidate's turn, if it does. */
  datatype Death = Survives | BeforeDeleting | InQuarantine | BeforeClosing

  /**
   What happens to one candidate's turn: where it dies, what others do, and whether its row still matches at the
   end.
   */
  datatype Luck = Luck(
    intentTorn: bool, death: Death, meddle: Files -> Files, unlinks: bool, closeTorn: bool, rowsChanged: bool)

  /** The candidates carry the rows of the plan, in order. */
  ghost predicate Snapshots(plan: Retention.Plan, cs: seq<Candidate>) {
    |cs| == |plan.candidates|
    && forall k :: 0 <= k < |cs| ==>
         var row := plan.candidates[k];
         cs[k].artifact == row.artifact && cs[k].target == row.target && cs[k].storage == row.storage
           && cs[k].path == row.path
  }

  function Place(c: Candidate): Location { (c.storage, c.path) }

  /** The files without those of the first k candidates. */
  function Remaining(files: Files, cs: seq<Candidate>, k: nat): Files
    requires k <= |cs|
  {
    if k == 0 then files else Remaining(files, cs, k - 1) - {Place(cs[k - 1])}
  }

  /** Exactly the files of the other locations remain, unchanged. */
  lemma {:induction false} RemainingExactly(files: Files, cs: seq<Candidate>, k: nat, l: Location)
    requires k <= |cs|
    ensures l in Remaining(files, cs, k) <==> l in files && forall i :: 0 <= i < k ==> Place(cs[i]) != l
    ensures l in Remaining(files, cs, k) ==> Remaining(files, cs, k)[l] == files[l]
  {
    if k > 0 {
      RemainingExactly(files, cs, k - 1, l);
    }
  }

  /** The first k candidates' files were there with their planned identities. */
  ghost predicate Identified(files: Files, cs: seq<Candidate>, k: nat) {
    forall i :: 0 <= i < k && i < |cs| ==> Place(cs[i]) in files && files[Place(cs[i])] == cs[i].identity
  }

  /**
   Of the k files unlinked each was the planned one, and all others are as before, save the next in its
   quarantine.
   */
  ghost predicate OnlyThoseGone(before: Files, after: Files, cs: seq<Candidate>, k: nat, open: bool) {
    && k <= |cs| && Identified(before, cs, k)
    && (after == Remaining(before, cs, k)
        || (open && k < |cs|
            && RenameNoReplace(Remaining(before, cs, k), Place(cs[k]), (cs[k].storage, cs[k].quarantine))
               == Some(after)))
  }

  /** What was unlinked are the first candidates' files, each with its planned identity. */
  ghost predicate Planned(cs: seq<Candidate>, unlinked: seq<File>) {
    |unlinked| <= |cs| && forall i :: 0 <= i < |unlinked| ==> unlinked[i] == cs[i].identity
  }

  lemma PlannedMore(cs: seq<Candidate>, unlinked: seq<File>, taken: seq<File>)
    requires Planned(cs, unlinked) && |unlinked| < |cs| && |taken| <= 1
    requires forall i :: 0 <= i < |taken| ==> taken[i] == cs[|unlinked|].identity
    ensures Planned(cs, unlinked + taken)
  {
  }

  /** One turn of a candidate nobody interferes with: its file is gone, as before, or in its quarantine. */
  ghost predicate Turn(before: Files, after: Files, c: Candidate, gone: bool, open: bool) {
    if gone then Place(c) in before && before[Place(c)] == c.identity && after == before - {Place(c)}
    else after == before || (open && RenameNoReplace(before, Place(c), (c.storage, c.quarantine)) == Some(after))
  }

  /** Nobody else touches the files during any turn. */
  ghost predicate Alone(luck: nat -> Luck) { forall k :: Undisturbed(luck(k).meddle) }

  /** If nobody else touches the files in any turn, exactly the first k candidates' are gone. */
  ghost predicate GoneIfAlone(luck: nat -> Luck, before: Files, after: Files, cs: seq<Candidate>, k: nat, open: bool) {
    Alone(luck) ==> OnlyThoseGone(before, after, cs, k, open)
  }

  lemma TurnIfAlone(
    luck: nat -> Luck, files: Files, before: Files, after: Files, cs: seq<Candidate>, k: nat, gone: bool, open: bool)
    requires k < |cs| && GoneIfAlone(luck, files, before, cs, k, false)
    requires Undisturbed(luck(k).meddle) ==> Turn(before, after, cs[k], gone, open)
    ensures GoneIfAlone(luck, files, after, cs, if gone then k + 1 else k, open)
    ensures gone ==> GoneIfAlone(luck, files, after, cs, k + 1, false)
  {
    if Alone(luck) {
      TurnTaken(files, before, after, cs, k, gone, open);
    }
  }

  lemma TurnTaken(files: Files, before: Files, after: Files, cs: seq<Candidate>, k: nat, gone: bool, open: bool)
    requires k < |cs| && OnlyThoseGone(files, before, cs, k, false) && Turn(before, after, cs[k], gone, open)
    ensures OnlyThoseGone(files, after, cs, if gone then k + 1 else k, open)
    ensures gone ==> OnlyThoseGone(files, after, cs, k + 1, false)
  {
    RemainingExactly(files, cs, k, Place(cs[k]));
  }

  class Executor {
    var files: Files
    var rows: Rows
    var log: seq<Line>

    constructor (files: Files, rows: Rows)
      ensures this.files == files && this.rows == rows && log == []
    {
      this.files, this.rows, log := files, rows, [];
    }

    /**
     Deletes the candidates one by one. Wherever it stops, its log is one of those the scanners agree
     on; each closed pair stands for a file that was unlinked with its expected identity; and the rows
     are those of the deletions that were counted. If nobody else touches the files, exactly the unlinked
     ones are gone, and at most one other file is away, in the quarantine its open intent names.
     */
    method ExecuteRetention(cs: seq<Candidate>, luck: nat -> Luck)
      returns (deleted: nat, closed: nat, open: bool, torn: bool, ghost unlinked: seq<File>)
      requires log == []
      modifies this
      ensures closed <= |cs| && (open ==> closed < |cs|) && deleted <= closed <= deleted + 1
      ensures log == LogOf(cs, closed, open, torn)
      ensures closed <= |unlinked| <= closed + (if open then 1 else 0)
      ensures Planned(cs, unlinked)
      ensures Forgotten(old(rows), cs, deleted) == Some(rows)
      ensures GoneIfAlone(luck, old(files), files, cs, |unlinked|, open)
    {
      deleted, closed, open, torn, unlinked := 0, 0, false, false, [];
      for k := 0 to |cs|
        invariant deleted == closed == k && !open && !torn
        invariant log == ClosedLog(cs, k) && |unlinked| == k
        invariant Planned(cs, unlinked)
        invariant Forgotten(old(rows), cs, k) == Some(rows)
        invariant GoneIfAlone(luck, old(files), files, cs, k, false)
      {
        var c, l := cs[k], luck(k);
        if !Matches(rows, c) {
          ClosedIsLog(cs, k);
          return;
        }
        ghost var before := files;
        ghost var taken;
        closed, open, torn, taken := DeleteOne(cs, k, l);
        TurnIfAlone(luck, old(files), before, files, cs, k, |taken| == 1, open);
        PlannedMore(cs, unlinked, taken);
        unlinked := unlinked + taken;
        if open || torn || l.rowsChanged {
          return;
        }
        ForgottenNext(old(rows), cs, k, rows);
        rows := Forget(rows, c);
        deleted := k + 1;
      }
      ClosedIsLog(cs, |cs|);
    }

    /**
     A confirmed plan as it is started: refused, with nothing changed, when it is not deletable, empty,
     or one of its rows has changed; otherwise executed.
     */
    method RetainConfirmed(plan: Retention.Plan, cs: seq<Candidate>, luck: nat -> Luck)
      returns (refused: bool, deleted: nat, ghost unlinked: seq<File>)
      requires log == [] && Snapshots(plan, cs)
      modifies this
      ensures refused <==> !plan.Deletable() || cs == [] || exists c <- cs :: !Matches(old(rows), c)
      ensures refused ==> rows == old(rows) && files == old(files) && log == [] && unlinked == []
      ensures deleted <= |unlinked| <= |plan.candidates|
      ensures forall items, policy, limit, today, unsafe, rows0 ::
                !refused && Retention.BuildPlan(rows0, items, policy, limit, today, unsafe) == Some(plan)
                ==> |unlinked| <= limit && 2 * |unlinked| <= |rows0|
      ensures Alone(luck) ==> exists open :: OnlyThoseGone(old(files), files, cs, |unlinked|, open)
      ensures Planned(cs, unlinked)
      ensures deleted <= |cs| && Forgotten(old(rows), cs, deleted) == Some(rows)
    {
      refused, deleted, unlinked := true, 0, [];
      assert OnlyThoseGone(files, files, cs, 0, false);
      if !plan.Deletable() || |cs| == 0 {
        return;
      }
      for k := 0 to |cs|
        invariant forall i :: 0 <= i < k ==> Matches(rows, cs[i])
      {
        if !Matches(rows, cs[k]) {
          assert cs[k] in cs;
          return;
        }
      }
      refused := false;
      forall items, policy, limit, today, unsafe, rows0
        | Retention.BuildPlan(rows0, items, policy, limit, today, unsafe) == Some(plan)
        ensures |plan.candidates| <= limit && 2 * |plan.candidates| <= |rows0|
      {
        Retention.GuardsHold(rows0, items, policy, limit, today, unsafe);
      }
      var closed, open, torn;
      deleted, closed, open, torn, unlinked := ExecuteRetention(cs, luck);
    }

    /** One candidate from its intent to its closing record. */
    method DeleteOne(
      cs: seq<Candidate>, k: nat, l: Luck) returns (closed: nat, open: bool, torn: bool, ghost unlinked: seq<File>)
      requires k < |cs| && log == ClosedLog(cs, k)
      modifies this`log, this`files
      ensures closed == (if open || torn then k else k + 1) && log == LogOf(cs, closed, open, torn)
      ensures !open && !torn ==> log == ClosedLog(cs, k + 1)
      ensures |unlinked| <= 1 && (!open && !torn ==> |unlinked| == 1) && (!open && torn ==> unlinked == [])
      ensures forall i :: 0 <= i < |unlinked| ==> unlinked[i] == cs[k].identity
      ensures Undisturbed(l.meddle) ==> Turn(old(files), files, cs[k], |unlinked| == 1, open)
    {
      var c := cs[k];
      closed, open, torn, unlinked := k, false, false, [];
      if l.intentTorn {
        log, torn := log + [Garbage], true;
        assert log == LogOf(cs, k, false, true);
        return;
      }
      log, open := log + Rendered(DeleteIntent, c), true;
      assert log == LogOf(cs, k, true, false);
      if l.death.BeforeDeleting? {
        return;
      }
      var r; ghost var held;
      files, r, held :=
        DeleteFile(files, c.storage, c.path, c.quarantine, c.identity, l.meddle, l.death.InQuarantine?, l.unlinks);
      if !r.Unlinked? {
        return;
      }
      unlinked := [held[(c.storage, c.quarantine)]];
      if l.death.BeforeClosing? {
        return;
      }
      if l.closeTorn {
        log, torn := log + [Garbage], true;
        assert log == LogOf(cs, k, true, true);
        return;
      }
      log, open, closed := log + Rendered(Deleted, c), false, k + 1;
      assert log == LogOf(cs, k + 1, false, false);
    }
  }
}
