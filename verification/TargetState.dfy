/**
 Target states (src/sluicery/core/target_state.py): the allowed moves, the walk of a handler
 through the stages, and what a finished task makes of its target.
 */
module TargetState {
  import opened Common

  datatype Status =
    | Pending | Queued | Downloading | Processing | Downloaded
    | Failed | Unavailable | Blocked | Missing | Ignored

  datatype TaskStatus =
    | TaskPending | TaskQueued | TaskRunning | TaskSucceeded | TaskFailed | TaskUnavailable | TaskBlocked
      | TaskCancelled

  datatype Target = Target(status: Status, retries: nat, error: Option<string>, blockedReason: Option<string>)

  datatype MoveError = TargetMissing | Invalid | Conflict

  /** The ordinary edges of the transition table. */
  function Normal(from: Status): set<Status> {
    match from
    case Pending => {Queued}
    case Queued => {Downloading}
    case Downloading => {Processing}
    case Processing => {Downloaded}
    case Failed => {Pending}
    case Blocked => {Pending}
    case Downloaded => {Missing}
    case Unavailable => {}
    case Missing => {Pending}
    case Ignored => {}
  }

  /** Reachable from anywhere. */
  const ANYWHERE: set<Status> := {Failed, Unavailable, Blocked, Ignored}

  predicate Allowed(from: Status, to: Status) { to in Normal(from) || to in ANYWHERE }

  /** Those an unfinished pipeline leaves a target in. */
  const ACTIVE: set<Status> := {Pending, Queued, Downloading, Processing, Blocked}

  /** The stages in their order. */
  function Stage(s: Status): Option<nat> {
    match s
    case Pending => Some(0)
    case Queued => Some(1)
    case Downloading => Some(2)
    case Processing => Some(3)
    case Downloaded => Some(4)
    case _ => None
  }

  function AtStage(k: nat): Status
    requires k < 5
  {
    if k == 0 then Pending else if k == 1 then Queued else if k == 2 then Downloading else if k == 3 then Processing
      else Downloaded
  }

  // ---- the walk ----

  /** The statuses a walk passes through, ending at the requested one; None where sluicery rejects it. */
  function Walk(from: Status, to: Status): Option<seq<Status>> {
    if from == to then Some([])
    else if Stage(to) == None then None
    else if from.Failed? || from.Blocked? then
      // back to pending first, and only then is the order compared
      Some([Pending] + Stages(0, Stage(to).value))
    else if Stage(from) == None || Stage(from).value > Stage(to).value then None
    else Some(Stages(Stage(from).value, Stage(to).value))
  }

  function Stages(first: nat, last: nat): (r: seq<Status>)
    requires last < 5
    ensures |r| == if first < last then last - first else 0
    ensures forall k :: 0 <= k < |r| ==> r[k] == AtStage(first + 1 + k)
  {
    if first >= last then [] else Stages(first, last - 1) + [AtStage(last)]
  }

  /** The status before step k of a walk. */
  function Passed(from: Status, path: seq<Status>, k: nat): Status
    requires k <= |path|
  {
    if k == 0 then from else path[k - 1]
  }

  /**
   A walk uses only allowed ordinary edges, omits no stage (each step from a stage is to the next
   one) and ends where it was asked to.
   */
  lemma WalkAllowed(from: Status, to: Status, k: nat)
    requires Walk(from, to).Some? && k < |Walk(from, to).value|
    ensures var path := Walk(from, to).value;
            && path[k] in Normal(Passed(from, path, k))
            && path[|path| - 1] == to
            && (Stage(Passed(from, path, k)).Some? ==> Stage(path[k]) == Some(Stage(Passed(from, path, k)).value + 1))
  {
    var path := Walk(from, to).value;
    var first := if from.Failed? || from.Blocked? then 0 else Stage(from).value;
    var stages := Stages(first, Stage(to).value);
    assert path == stages || path == [Pending] + stages;
    assert stages != [] ==> stages[|stages| - 1] == AtStage(first + |stages|);
    assert Stage(AtStage(Stage(to).value)) == Stage(to) && AtStage(Stage(to).value) == to;
  }

  /** A walk is rejected exactly for a destination that is no stage, an origin outside the stages, or a step back. */
  lemma WalkRejected(from: Status, to: Status)
    ensures Walk(from, to) == None <==>
            from != to
            && (Stage(to) == None
                || (!from.Failed? && !from.Blocked? && (Stage(from) == None || Stage(from).value > Stage(to).value)))
  {
  }

  // ---- rows ----

  /** The conditional update every change goes through. */
  function CompareAndSet(
    t: Target, expected: set<Status>, to: Status, error: Option<string>, reason: Option<string>,
      countRetry: bool): Target
  {
    if t.status in expected then Target(to, t.retries + (if countRetry then 1 else 0), error, reason) else t
  }

  class Row {
    var target: Target

    constructor (t: Target)
      ensures target == t
    {
      target := t;
    }

    method CompareAndSetStatus(
      expected: set<Status>, to: Status, error: Option<string>, reason: Option<string>, countRetry: bool)
      returns (changed: bool)
      modifies this
      ensures target == CompareAndSet(old(target), expected, to, error, reason, countRetry)
      ensures changed == (old(target).status in expected)
    {
      changed := target.status in expected;
      if changed {
        target := Target(to, target.retries + (if countRetry then 1 else 0), error, reason);
      }
    }

    /** One checked move. */
    method Transition(to: Status, error: Option<string>, reason: Option<string>) returns (r: Result<(), MoveError>)
      modifies this
      ensures r.Ok? <==> Allowed(old(target).status, to)
      ensures r.Ok? ==> target == Target(to, old(target).retries, error, reason)
      ensures r.Err? ==> r.error == Invalid && target == old(target)
    {
      if !(to in Normal(target.status) || to in ANYWHERE) {
        return Err(Invalid);
      }
      var current := target.status;
      var _ := CompareAndSetStatus({current}, to, error, reason, false);
      r := Ok(());
    }

    /**
     Walks to the requested stage one transition at a time. The trace holds every status taken on
     the way; a rejected request leaves the row alone, except that none is rejected half way.
     */
    method Advance(to: Status) returns (r: Result<bool, MoveError>, ghost trace: seq<Status>)
      modifies this
      ensures r.Ok? <==> Walk(old(target).status, to).Some?
      ensures r.Ok? ==> trace == Walk(old(target).status, to).value && r.value == (old(target).status != to)
      ensures r.Ok? ==> target.status == to && target.retries == old(target).retries
      ensures r.Err? ==> target == old(target) && trace == []
    {
      trace := [];
      var current := target.status;
      if current == to {
        return Ok(false), [];
      }
      if Stage(to) == None {
        return Err(Invalid), [];
      }
      if current.Failed? || current.Blocked? {
        var moved := Transition(Pending, None, None);
        trace := [Pending];
        current := Pending;
      }
      if Stage(current) == None || Stage(current).value > Stage(to).value {
        return Err(Invalid), [];
      }
      ghost var before := trace;
      var first := Stage(current).value;
      assert AtStage(first) == current;
      for k := first to Stage(to).value
        invariant target.status == AtStage(k) && target.retries == old(target).retries
        invariant trace == before + Stages(first, k)
      {
        var moved := Transition(AtStage(k + 1), None, None);
        trace := trace + [AtStage(k + 1)];
      }
      assert AtStage(Stage(to).value) == to;
      r := Ok(true);
    }

    /** What the worker's finished task makes of its target. */
    method SyncAfterTask(task: TaskStatus, error: Option<string>, failedAttempt: bool) returns (changed: bool)
      modifies this
      ensures target == Synced(old(target), task, error, failedAttempt)
    {
      if task.TaskUnavailable? {
        var message := if error.Some? && error.value != "" then error else Some("attempts exhausted");
        if failedAttempt {
          changed := CompareAndSetStatus({Failed}, Unavailable, message, None, false);
          if changed {
            return;
          }
        }
        changed := CompareAndSetStatus(ACTIVE, Unavailable, message, None, failedAttempt);
      } else if task.TaskCancelled? {
        var message := if error.Some? && error.value != "" then error else Some("cancelled");
        changed := CompareAndSetStatus(ACTIVE, Failed, message, None, false);
      } else if task.TaskBlocked? {
        changed := CompareAndSetStatus(ACTIVE - {Blocked}, Blocked, error, error, false);
      } else if task.TaskPending? && failedAttempt {
        changed := CompareAndSetStatus(ACTIVE - {Blocked}, Failed, error, None, true);
      } else {
        changed := false;
      }
    }
  }

  /** The target after its task settled. */
  function Synced(t: Target, task: TaskStatus, error: Option<string>, failedAttempt: bool): Target {
    match task
    case TaskUnavailable =>
      var message := if error.Some? && error.value != "" then error else Some("attempts exhausted");
      if failedAttempt && t.status.Failed? then CompareAndSet(t, {Failed}, Unavailable, message, None, false)
      else CompareAndSet(t, ACTIVE, Unavailable, message, None, failedAttempt)
    case TaskCancelled =>
      CompareAndSet(t, ACTIVE, Failed, if error.Some? && error.value != "" then error
        else Some("cancelled"), None, false)
    case TaskBlocked => CompareAndSet(t, ACTIVE - {Blocked}, Blocked, error, error, false)
    case TaskPending => if failedAttempt then CompareAndSet(t, ACTIVE - {Blocked}, Failed, error, None, true) else t
    case _ => t
  }

  /**
   A settled task moves its target only along allowed edges, leaves finished targets alone, counts
   at most one retry, and counts it only for a failed attempt.
   */
  lemma SyncedIsAllowed(t: Target, task: TaskStatus, error: Option<string>, failedAttempt: bool)
    ensures var after := Synced(t, task, error, failedAttempt);
            && (after != t ==> Allowed(t.status, after.status))
            && (t.status in {Downloaded, Missing, Ignored, Unavailable} ==> after == t)
            && t.retries <= after.retries <= t.retries + (if failedAttempt then 1 else 0)
            && (after.retries > t.retries ==> t.status in ACTIVE)
  {
  }

  /** Settling the same outcome again changes nothing: retries are not counted twice. */
  lemma SyncedOnce(t: Target, task: TaskStatus, error: Option<string>, failedAttempt: bool)
    ensures var once := Synced(t, task, error, failedAttempt);
            Synced(once, task, error, failedAttempt) == once
  {
  }

  // ---- the moves themselves ----

  const ORDER: seq<Status> := [Pending, Queued, Downloading, Processing, Downloaded]

  /**
   Moves never skip a stage: forward only to the next one, a download can only be lost, what failed, was blocked or
   was lost starts over, what is unavailable or ignored stays so, and the four holding statuses are open to all.
   */
  lemma EdgesExactly(from: Status, to: Status)
    ensures Allowed(from, to)
            <==> || (exists k :: 0 <= k < 4 && from == ORDER[k] && to == ORDER[k + 1])
                 || (from == Downloaded && to == Missing)
                 || (to == Pending && (from == Failed || from == Blocked || from == Missing))
                 || to == Failed || to == Unavailable || to == Blocked || to == Ignored
  {
    assert ORDER[0] == Pending && ORDER[1] == Queued && ORDER[2] == Downloading && ORDER[3] == Processing;
    assert ORDER[4] == Downloaded;
    if from != Downloaded && Stage(from).Some? && Allowed(from, to) {
      var k := Stage(from).value;
      assert from == ORDER[k] && (to !in ANYWHERE ==> to == ORDER[k + 1]);
    }
  }

  /** A walk to stage j passes through all stages up to it: from stage i on, or from the first after a failure. */
  lemma WalkExactly(from: Status, i: nat, j: nat)
    requires i < 5 && j < 5
    ensures Walk(ORDER[i], ORDER[j]) == if i <= j then Some(ORDER[i + 1..j + 1]) else None
    ensures from == Failed || from == Blocked ==> Walk(from, ORDER[j]) == Some(ORDER[..j + 1])
    ensures from == Unavailable || from == Missing || from == Ignored ==> Walk(from, ORDER[j]) == None
    ensures from !in ORDER ==> Walk(ORDER[i], from) == None
  {
    AtOrder(i);
    AtOrder(j);
    StagesAre(i, j);
    StagesAre(0, j);
    assert [Pending] + ORDER[1..j + 1] == ORDER[..j + 1];
    assert i > j ==> Stages(i, j) == [];
  }

  lemma AtOrder(k: nat)
    requires k < 5
    ensures AtStage(k) == ORDER[k] && Stage(ORDER[k]) == Some(k)
  {
  }

  lemma StagesAre(first: nat, last: nat)
    requires last < 5
    ensures first <= last ==> Stages(first, last) == ORDER[first + 1..last + 1]
  {
    forall k | first < k <= last
      ensures AtStage(k) == ORDER[k]
    {
      AtOrder(k);
    }
  }

  /**
   Which outcome moves which target where: only a target the pipeline still works on is moved, save that a failed
   one becomes unavailable with its last attempt; a retry is counted with the failed attempt that moves it.
   */
  lemma SyncedExactly(t: Target, task: TaskStatus, error: Option<string>, failedAttempt: bool)
    ensures var after := Synced(t, task, error, failedAttempt);
            var stage := t.status == Pending || t.status == Queued || t.status == Downloading || t.status == Processing;
            var active := stage || t.status == Blocked;
            var given := error.Some? && error.value != "";
            var moved := || (task == TaskUnavailable && (active || (failedAttempt && t.status == Failed)))
                         || (task == TaskCancelled && active) || (task == TaskBlocked && stage)
                         || (task == TaskPending && failedAttempt && stage);
            && (!moved ==> after == t)
            && (moved ==> after.status == (if task == TaskUnavailable then Unavailable
                                           else if task == TaskBlocked then Blocked else Failed))
            && after.retries == t.retries
                                + (if failedAttempt
                                  && ((task == TaskUnavailable && active) || (task == TaskPending && stage))
                                   then 1 else 0)
            && (moved && (given || task == TaskBlocked || task == TaskPending) ==> after.error == error)
            && (moved && !given && (task == TaskUnavailable || task == TaskCancelled) ==> after.error.Some?)
            && (moved ==> after.blockedReason == if task == TaskBlocked then error else None)
  {
  }
}
