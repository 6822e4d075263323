/**
 The executor in imperative form: methods over the database and the storage, with a loop over
 the candidates. Every run of it is a run of the step system, so everything proved there holds
 of it.
 */
module FolderMoveExec {
  import opened Common
  import opened FolderPlan
  import opened FolderMove

  /** What the environment does to one call: answers, raises, or kills the process. */
  datatype Fate = Proceeds | Raises | Dies

  /** One candidate's luck: before its intent, at its commit, at the storage, before and at its record. */
  datatype Luck = Luck(before: Fate, intent: Fate, storage: MoveOutcome, between: Fate, record: Fate)

  datatype Outcome = NotStarted | Moved | FailedRecorded | Died

  class Store {
    var world: World

    constructor (w: World)
      ensures world == w
    {
      world := w;
    }

    /** The exception handler: the run becomes FAILED and keeps the intent held in memory. */
    method RecordFailed(run: nat, plan: Plan, moved: nat, intent: Option<Candidate>)
      requires run < |world.runs|
      modifies this
      ensures System(world, {plan}, Idle)
           == Apply(System(old(world), {plan}, Active(run, plan, moved, Raised(intent))), RecordFailure)
    {
      var failed :=
        world.runs[run].(status := Failed, stats := Some(RunStats(plan, moved, intent, Some("folder_move_failed"))));
      world := world.(runs := world.runs[run := failed]);
    }

    /** Persists the intent of the next candidate, unless its rows changed. */
    method WriteIntent(run: nat, plan: Plan, moved: nat, reply: Fate) returns (intent: Option<Candidate>, raised: bool)
      requires run < |world.runs| && moved < |plan.candidates|
      modifies this
      ensures System(world, {plan}, Active(run, plan, moved, if raised then Raised(intent) else Intended))
           == Apply(System(old(world), {plan}, Active(run, plan, moved, Ready)), PersistIntent(reply == Proceeds))
      ensures !raised ==> intent == Some(plan.candidates[moved])
      ensures |world.runs| == |old(world).runs|
    {
      var c := plan.candidates[moved];
      if !PlaylistMatches(world, plan) || !CandidateRowsMatch(world, c) {
        return None, true;
      }
      intent := Some(c);
      world := world.(runs := world.runs[run := world.runs[run].(stats := Some(RunStats(plan, moved, intent, None)))]);
      raised := reply != Proceeds;
    }

    /** Moves the file of the next candidate, or checks that it has moved. */
    method MoveNext(run: nat, plan: Plan, moved: nat, storage: MoveOutcome) returns (raised: bool)
      requires run < |world.runs| && moved < |plan.candidates| && plan.candidates[moved].identity.Some?
      modifies this
      ensures System(world, {plan},
              Active(run, plan, moved, if raised then Raised(Some(plan.candidates[moved])) else Relocated))
           == Apply(System(old(world), {plan}, Active(run, plan, moved, Intended)), Relocate(storage))
    {
      var (tree, ok) := MoveFile(world.tree, plan.candidates[moved], storage);
      world := world.(tree := tree);
      raised := !ok;
    }

    /** Records the next candidate at its destination and clears the intent. */
    method RecordMove(run: nat, plan: Plan, moved: nat, reply: Fate) returns (raised: bool)
      requires run < |world.runs| && moved < |plan.candidates|
      modifies this
      ensures System(world, {plan}, if raised then Active(run, plan, moved, Raised(Some(plan.candidates[moved])))
                                    else Active(run, plan, moved + 1, Ready))
           == Apply(System(old(world), {plan}, Active(run, plan, moved, Relocated)), Commit(reply == Proceeds))
    {
      var c := plan.candidates[moved];
      if !CandidateRowsMatch(world, c) {
        return true;
      }
      var row := world.catalog.artifacts[c.artifactId].(path := c.destination, updatedAt := world.clock + 1);
      world := World(
        world.catalog.(artifacts := world.catalog.artifacts[c.artifactId := row]),
        world.runs[run := world.runs[run].(stats := Some(RunStats(plan, moved + 1, None, None)))],
        world.tree, world.clock + 1);
      raised := reply != Proceeds;
    }

    /** Renames the playlist folder and closes the run. */
    method CloseRun(run: nat, plan: Plan, reply: Fate) returns (raised: bool)
      requires run < |world.runs|
      modifies this
      ensures System(world, {plan}, if raised then Active(run, plan, |plan.candidates|, Raised(None)) else Idle)
           == Apply(System(old(world), {plan}, Active(run, plan, |plan.candidates|, Ready)), Finish(reply == Proceeds))
      ensures !raised ==> world.catalog.playlist.folderName == plan.newName
    {
      if !PlaylistMatches(world, plan) {
        return true;
      }
      var closed := world.runs[run].(status := Succeeded, stats := Some(RunStats(plan, |plan.candidates|, None, None)));
      world := World(
        world.catalog.(playlist := world.catalog.playlist.(folderName := plan.newName, updatedAt := world.clock + 1)),
        world.runs[run := closed], world.tree, world.clock + 1);
      raised := reply != Proceeds;
    }

    /** The part of the loop body that follows a persisted intent. */
    method MoveAndRecord(run: nat, plan: Plan, moved: nat, l: Luck) returns (fate: Fate, ghost steps: seq<Step>)
      requires run < |world.runs| && moved < |plan.candidates| && plan.candidates[moved].identity.Some?
      modifies this
      ensures Execute(System(old(world), {plan}, Active(run, plan, moved, Intended)), steps).world == world
      ensures var s := Execute(System(old(world), {plan}, Active(run, plan, moved, Intended)), steps);
              && s.plans == {plan}
              && (fate == Proceeds ==> s.process == Active(run, plan, moved + 1, Ready))
              && (fate == Raises ==> s.process == Active(run, plan, moved, Raised(Some(plan.candidates[moved]))))
      ensures |world.runs| == |old(world).runs| && forall step <- steps :: !step.Preview?
    {
      ghost var s := System(world, {plan}, Active(run, plan, moved, Intended));
      var raised := MoveNext(run, plan, moved, l.storage);
      ExecuteOne(s, Relocate(l.storage));
      steps := [Relocate(l.storage)];
      if raised {
        return Raises, steps;
      }
      if l.between == Dies {
        return Dies, steps;
      }
      if l.between == Raises {
        ExecuteSnoc(s, steps, Raise(true));
        return Raises, steps + [Raise(true)];
      }
      raised := RecordMove(run, plan, moved, l.record);
      ExecuteSnoc(s, steps, Commit(l.record == Proceeds));
      steps := steps + [Commit(l.record == Proceeds)];
      fate := if !raised then Proceeds else if l.record == Dies then Dies else Raises;
    }

    /** One pass of the loop body: whether it went through, raised with an intent in memory, or died. */
    method TreatNext(run: nat, plan: Plan, moved: nat, l: Luck)
      returns (intent: Option<Candidate>, fate: Fate, ghost steps: seq<Step>)
      requires run < |world.runs| && moved < |plan.candidates| && plan.candidates[moved].identity.Some?
      modifies this
      ensures var s := Execute(System(old(world), {plan}, Active(run, plan, moved, Ready)), steps);
              && world == s.world && s.plans == {plan}
              && (fate == Proceeds ==> s.process == Active(run, plan, moved + 1, Ready))
              && (fate == Raises ==> s.process == Active(run, plan, moved, Raised(intent)))
      ensures |world.runs| == |old(world).runs| && forall step <- steps :: !step.Preview?
    {
      ghost var s := System(world, {plan}, Active(run, plan, moved, Ready));
      steps := [];
      if l.before == Dies {
        return None, Dies, steps;
      }
      if l.before == Raises {
        ExecuteOne(s, Raise(false));
        return None, Raises, [Raise(false)];
      }
      var raised;
      intent, raised := WriteIntent(run, plan, moved, l.intent);
      ExecuteOne(s, PersistIntent(l.intent == Proceeds));
      steps := [PersistIntent(l.intent == Proceeds)];
      if raised {
        return intent, if l.intent == Dies then Dies else Raises, steps;
      }
      ghost var rest;
      fate, rest := MoveAndRecord(run, plan, moved, l);
      ExecuteConcat(s, steps, rest);
      steps := steps + rest;
    }

    /** Moves every candidate of a confirmed plan, stopping at the first exception or at the end of the process. */
    method ExecuteFolderMove(plan: Plan, othersActive: bool, luck: nat -> Luck, finish: Fate)
      returns (outcome: Outcome, ghost steps: seq<Step>)
      modifies this
      ensures var s := Execute(System(old(world), {plan}, Idle), steps);
              && world == s.world
              && (outcome == Died || s.process == Idle)
              && (outcome == Moved ==> world.catalog.playlist.folderName == plan.newName)
              && (outcome == NotStarted ==> world == old(world))
      ensures forall step <- steps :: !step.Preview?
    {
      ghost var start := System(world, {plan}, Idle);
      steps := [];
      var begun := StartRun(world, plan, othersActive);
      if begun == None {
        return NotStarted, [];
      }
      assert forall c <- plan.candidates :: c.identity.Some?;
      world := begun.value;
      steps := [Step.Start(plan, othersActive)];
      ExecuteOne(start, Step.Start(plan, othersActive));
      var run := |world.runs| - 1;
      for moved := 0 to |plan.candidates|
        invariant run < |world.runs|
        invariant Execute(start, steps) == System(world, {plan}, Active(run, plan, moved, Ready))
        invariant forall step <- steps :: !step.Preview?
      {
        assert plan.candidates[moved] in plan.candidates;
        var intent, fate; ghost var taken;
        intent, fate, taken := TreatNext(run, plan, moved, luck(moved));
        ExecuteConcat(start, steps, taken);
        steps := steps + taken;
        if fate == Dies {
          return Died, steps;
        }
        if fate == Raises {
          RecordFailed(run, plan, moved, intent);
          ExecuteSnoc(start, steps, RecordFailure);
          return FailedRecorded, steps + [RecordFailure];
        }
      }
      var raised := CloseRun(run, plan, finish);
      ExecuteSnoc(start, steps, Finish(finish == Proceeds));
      steps := steps + [Finish(finish == Proceeds)];
      if !raised {
        return Moved, steps;
      }
      if finish == Dies {
        return Died, steps;
      }
      RecordFailed(run, plan, |plan.candidates|, None);
      ExecuteSnoc(start, steps, RecordFailure);
      steps := steps + [RecordFailure];
      outcome := FailedRecorded;
    }
  }

  lemma ExecuteSnoc(s: System, steps: seq<Step>, step: Step)
    ensures Execute(s, steps + [step]) == Apply(Execute(s, steps), step)
  {
    assert (steps + [step])[..|steps|] == steps;
  }
}
