/**
 The repository object: each method is sluicery's conditional UPDATE on the table it holds,
 and the methods that loop are proved against what they must leave behind.
 */
module TaskRepository {
  import opened Common
  import opened TaskQueue

  datatype ClaimError = BadConcurrency

  // ---- what the loops must leave behind ----

  function CancelEach(rows: Rows, ids: seq<nat>, now: real): Rows {
    if ids == [] then rows else CancelDescendants(CancelEach(rows, ids[..|ids| - 1], now), ids[|ids| - 1], now)
  }

  function StaleIds(rows: Rows, n: nat, staleBefore: real): (r: seq<nat>)
    requires n <= |rows|
    ensures forall k :: 0 <= k < |r| ==> r[k] < n && Stale(rows[r[k]], staleBefore)
    ensures forall i, j :: 0 <= i < j < |r| ==> r[i] < r[j]
    ensures forall id: nat :: id < n && Stale(rows[id], staleBefore) ==> id in r
  {
    if n == 0 then []
    else StaleIds(rows, n - 1, staleBefore) + if Stale(rows[n - 1], staleBefore) then [n - 1] else []
  }

  /** Those of the listed tasks that used their last attempt. */
  function LastAttempts(rows: Rows, ids: seq<nat>): (r: seq<nat>)
    ensures forall id :: id in r <==> id in ids && Exhausted(rows, id)
  {
    if ids == [] then []
    else
      var id := ids[|ids| - 1];
      LastAttempts(rows, ids[..|ids| - 1]) + if Exhausted(rows, id) then [id] else []
  }

  predicate Exhausted(rows: Rows, id: nat) { id < |rows| && rows[id].attempts + 1 >= rows[id].maxAttempts }

  lemma LastAttemptsNext(rows: Rows, ids: seq<nat>, i: nat)
    requires i < |ids|
    ensures LastAttempts(rows, ids[..i + 1]) == LastAttempts(rows, ids[..i]) + if Exhausted(rows, ids[i]) then [ids[i]]
            else []
  {
    assert ids[..i + 1][..i] == ids[..i];
  }

  /** Everything that waits under t. */
  function AllUnder(rows: Rows, t: nat): set<nat> { set x: nat | x < |rows| && Under(rows, t, x) }

  /** The tasks of rows0 that have become Dropped. */
  ghost predicate DroppedExactly(rows0: Rows, rows: Rows, done: set<nat>, now: real) {
    && |rows| == |rows0|
    && forall x: nat :: x < |rows| ==> rows[x] == if x in done then Dropped(rows0[x], now) else rows0[x]
  }

  lemma DroppedAllUnder(rows0: Rows, rows: Rows, t: nat, now: real)
    requires DroppedExactly(rows0, rows, AllUnder(rows0, t), now)
    ensures rows == CancelDescendants(rows0, t, now)
  {
  }

  /** A waiting task, not dropped yet, that depends on a frontier task. */
  ghost predicate WaitsAt(rows0: Rows, done: set<nat>, frontier: seq<nat>, x: nat) {
    x < |rows0| && x !in done && rows0[x].status.Waiting() && rows0[x].dependsOn.Some?
      && rows0[x].dependsOn.value in frontier
  }

  /** What hangs under t and is not dropped yet hangs below the frontier, or below another such task. */
  ghost predicate FrontierCovers(rows0: Rows, under: set<nat>, t: nat, done: set<nat>, frontier: seq<nat>) {
    forall x :: x in under && x !in done && x < |rows0| && rows0[x].dependsOn.Some? ==>
      rows0[x].dependsOn.value in frontier || (rows0[x].dependsOn.value != t && rows0[x].dependsOn.value !in done)
  }

  /** At the start the frontier is t alone. */
  lemma FrontierStarts(rows0: Rows, t: nat)
    ensures FrontierCovers(rows0, AllUnder(rows0, t), t, {}, [t])
  {
  }

  lemma {:induction false} NothingLeftUnder(rows0: Rows, t: nat, done: set<nat>, frontier: seq<nat>, x: nat)
    requires EdgesBackward(rows0) && Under(rows0, t, x) && FrontierCovers(rows0, AllUnder(rows0, t), t, done, frontier)
    requires forall y: nat :: y < |rows0| ==> !WaitsAt(rows0, done, frontier, y)
    ensures x in done
    decreases x
  {
    assert !WaitsAt(rows0, done, frontier, x);
    assert x in AllUnder(rows0, t);
    if x !in done {
      NothingLeftUnder(rows0, t, done, frontier, rows0[x].dependsOn.value);
    }
  }

  lemma NothingLeft(rows0: Rows, t: nat, done: set<nat>, frontier: seq<nat>)
    requires EdgesBackward(rows0) && FrontierCovers(rows0, AllUnder(rows0, t), t, done, frontier)
    requires done <= AllUnder(rows0, t)
    requires forall y: nat :: y < |rows0| ==> !WaitsAt(rows0, done, frontier, y)
    ensures done == AllUnder(rows0, t)
  {
    forall x | x in AllUnder(rows0, t)
      ensures x in done
    {
      NothingLeftUnder(rows0, t, done, frontier, x);
    }
  }

  function Elements(s: seq<nat>): set<nat> { set x | x in s }

  /** The children of a round hang under t too. */
  lemma RoundUnder(rows0: Rows, t: nat, done: set<nat>, frontier: seq<nat>, children: seq<nat>)
    requires EdgesBackward(rows0) && forall x :: x in children ==> WaitsAt(rows0, done, frontier, x)
    requires forall f :: f in frontier ==> f == t || f in AllUnder(rows0, t)
    ensures Elements(children) <= AllUnder(rows0, t)
  {
    forall x | x in children
      ensures Under(rows0, t, x)
    {
      assert WaitsAt(rows0, done, frontier, x);
      assert rows0[x].dependsOn.value == t || Under(rows0, t, rows0[x].dependsOn.value);
    }
  }

  /** The rest now hangs below the children. */
  lemma RoundCovers(rows0: Rows, t: nat, done: set<nat>, frontier: seq<nat>, children: seq<nat>)
    requires FrontierCovers(rows0, AllUnder(rows0, t), t, done, frontier)
    requires forall x: nat :: x < |rows0| ==> (x in children <==> WaitsAt(rows0, done, frontier, x))
    ensures FrontierCovers(rows0, AllUnder(rows0, t), t, done + Elements(children), children)
  {
    forall x | x in AllUnder(rows0, t) && x !in done + Elements(children)
      ensures var p := rows0[x].dependsOn.value; p in children || (p != t && p !in done + Elements(children))
    {
      assert Under(rows0, t, x);
      assert !WaitsAt(rows0, done, frontier, x);
    }
  }

  /** They are new, so the tasks left to drop become fewer. */
  lemma RoundCount(done: set<nat>, children: seq<nat>, n: nat)
    requires forall i, j :: 0 <= i < j < |children| ==> children[i] < children[j]
    requires forall x :: x in done ==> x < n
    requires forall x :: x in children ==> x < n && x !in done
    ensures |done + Elements(children)| == |done| + |children| <= n
  {
    ElementsOfDistinct(children);
    assert done !! Elements(children);
    BoundedSet(done + Elements(children), n);
  }

  /** What waits now is what waited at first and is not dropped. */
  lemma ChildrenWaitAt(rows0: Rows, rows: Rows, done: set<nat>, now: real, frontier: seq<nat>, children: seq<nat>)
    requires DroppedExactly(rows0, rows, done, now)
    requires forall x :: x in children <==> WaitsAt(rows, {}, frontier, x)
    ensures forall x :: x in children <==> WaitsAt(rows0, done, frontier, x)
  {
    forall x: nat | x < |rows|
      ensures WaitsAt(rows, {}, frontier, x) <==> WaitsAt(rows0, done, frontier, x)
    {
    }
  }

  /** The search so far: only tasks under t are dropped, and the frontier covers the others. */
  ghost predicate Searching(rows0: Rows, t: nat, done: set<nat>, frontier: seq<nat>) {
    && done <= AllUnder(rows0, t)
    && (forall f :: f in frontier ==> f == t || f in done)
    && FrontierCovers(rows0, AllUnder(rows0, t), t, done, frontier)
  }

  lemma OneRound(rows0: Rows, rows: Rows, t: nat, done: set<nat>, now: real, frontier: seq<nat>, children: seq<nat>)
    requires EdgesBackward(rows0) && DroppedExactly(rows0, rows, done, now) && Searching(rows0, t, done, frontier)
    requires forall x :: x in children <==> WaitsAt(rows, {}, frontier, x)
    requires forall i, j :: 0 <= i < j < |children| ==> children[i] < children[j]
    ensures Searching(rows0, t, done + Elements(children), children)
    ensures |done + Elements(children)| == |done| + |children| <= |rows0|
    ensures children == [] ==> done == AllUnder(rows0, t)
  {
    ChildrenWaitAt(rows0, rows, done, now, frontier, children);
    RoundUnder(rows0, t, done, frontier, children);
    RoundCovers(rows0, t, done, frontier, children);
    RoundCount(done, children, |rows0|);
    if children == [] {
      NothingLeft(rows0, t, done, frontier);
    }
  }

  lemma DropMore(rows0: Rows, before: Rows, after: Rows, done: set<nat>, children: seq<nat>, now: real)
    requires DroppedExactly(rows0, before, done, now) && done !! Elements(children)
    requires |after| == |before|
    requires forall x: nat :: x < |after| ==> after[x] == if x in children then Dropped(before[x], now) else before[x]
    ensures DroppedExactly(rows0, after, done + Elements(children), now)
  {
  }

  class TaskRepository {
    var rows: Rows

    constructor ()
      ensures rows == []
    {
      rows := [];
    }

    /** Inserts one unconstrained task. */
    method Enqueue(kind: Kind, workerClass: WorkerClass, run: Option<nat>, maxAttempts: int) returns (id: nat)
      modifies this
      ensures id == |old(rows)| && rows == Chain(old(rows), [(kind, workerClass)], run, maxAttempts)
    {
      id := |rows|;
      assert [(kind, workerClass)][..0] == [];
      rows := rows + [NewTask(kind, workerClass, None, run, maxAttempts)];
    }

    /** Inserts the steps of one target's pipeline, each depending on the one before. */
    method EnqueuePipeline(steps: seq<(Kind, WorkerClass)>, run: Option<nat>, maxAttempts: int) returns (ids: seq<nat>)
      modifies this
      ensures rows == Chain(old(rows), steps, run, maxAttempts)
      ensures |ids| == |steps| && forall k :: 0 <= k < |steps| ==> ids[k] == |old(rows)| + k
    {
      ids := [];
      var dependency: Option<nat> := None;
      for k := 0 to |steps|
        invariant |ids| == k && |rows| == |old(rows)| + k
        invariant rows == Chain(old(rows), steps[..k], run, maxAttempts)
        invariant dependency == if k == 0 then None else Some(|rows| - 1)
        invariant forall j :: 0 <= j < k ==> ids[j] == |old(rows)| + j
      {
        assert steps[..k + 1][..k] == steps[..k];
        var (kind, workerClass) := steps[k];
        var id := |rows|;
        rows := rows + [NewTask(kind, workerClass, dependency, run, maxAttempts)];
        ids := ids + [id];
        dependency := Some(id);
      }
      assert steps[..|steps|] == steps;
    }

    method ClaimNext(workerClass: WorkerClass, worker: string, now: real, limit: Option<int>)
      returns (r: Result<Option<nat>, ClaimError>)
      modifies this
      ensures r.Err? <==> limit.Some? && limit.value < 1
      ensures r.Err? ==> rows == old(rows)
      ensures r.Ok? ==> rows == Claim(old(rows), workerClass, worker, now, limit)
      ensures r == Ok(None) <==> r.Ok? && forall id: nat :: !Eligible(old(rows), id, workerClass, now, limit)
      ensures r.Ok? && r.value.Some? ==>
                && Eligible(old(rows), r.value.value, workerClass, now, limit)
                && Owns(rows, r.value.value, worker)
                && forall id: nat :: Eligible(old(rows), id, workerClass, now, limit) && id != r.value.value
                                     ==> Before(old(rows), r.value.value, id)
    {
      if limit.Some? && limit.value < 1 {
        return Err(BadConcurrency);
      }
      var candidate := BestBelow(rows, |rows|, workerClass, now, limit);
      BestIsFirst(rows, |rows|, workerClass, now, limit);
      if candidate == None {
        return Ok(None);
      }
      rows := rows[candidate.value := Claimed(rows[candidate.value], worker, now)];
      r := Ok(candidate);
    }

    /** None when the row is no longer this worker's; otherwise whether a cancel was asked for. */
    method Heartbeat(id: nat, worker: string, now: real) returns (cancel: Option<bool>)
      modifies this
      ensures rows == Beat(old(rows), id, worker, now)
      ensures cancel == if Owns(old(rows), id, worker) then Some(old(rows)[id].cancelRequested) else None
    {
      if !Owns(rows, id, worker) {
        return None;
      }
      cancel := Some(rows[id].cancelRequested);
      rows := rows[id := rows[id].(heartbeatAt := Some(now))];
    }

    method MarkSucceeded(id: nat, worker: string, now: real) returns (changed: bool)
      modifies this
      ensures changed == Owns(old(rows), id, worker)
      ensures rows == Finish(old(rows), id, worker, Succeeded, now)
    {
      changed := Owns(rows, id, worker);
      if changed {
        rows := rows[id := Finished(rows[id], Succeeded, now)];
      }
    }

    /** Closing a task as unavailable, failed or cancelled drops everything that waits behind it. */
    method MarkDead(id: nat, worker: string, status: Status, now: real) returns (changed: bool)
      requires EdgesBackward(rows) && status.Dead()
      modifies this
      ensures changed == Owns(old(rows), id, worker)
      ensures rows == if changed then CancelDescendants(Finish(old(rows), id, worker, status, now), id, now)
              else old(rows)
    {
      changed := Owns(rows, id, worker);
      if changed {
        rows := rows[id := Finished(rows[id], status, now)];
        var _ := CancelDescendantsOf(id, now);
      }
    }

    method MarkFailedForRetry(id: nat, worker: string, delay: real, now: real) returns (status: Option<Status>)
      requires EdgesBackward(rows)
      modifies this
      ensures status.Some? == Owns(old(rows), id, worker)
      ensures var after := FailForRetry(old(rows), id, worker, delay, now);
              && (status.Some? ==> status.value == after[id].status)
              && rows == if status.Some? && status.value.Dead() then CancelDescendants(after, id, now) else after
    {
      if !Owns(rows, id, worker) {
        return None;
      }
      rows := rows[id := FailedOnce(rows[id], delay, now)];
      status := Some(rows[id].status);
      if status.value.Unavailable? || status.value.Cancelled? {
        var _ := CancelDescendantsOf(id, now);
      }
    }

    method MarkBlocked(id: nat, worker: string, delay: real, now: real) returns (changed: bool)
      requires EdgesBackward(rows)
      modifies this
      ensures changed == Owns(old(rows), id, worker)
      ensures var after := Block(old(rows), id, worker, delay, now);
              rows == if changed && after[id].status.Cancelled? then CancelDescendants(after, id, now) else after
    {
      changed := Owns(rows, id, worker);
      if changed {
        rows := rows[id := Held(rows[id], delay, now)];
        if rows[id].status.Cancelled? {
          var _ := CancelDescendantsOf(id, now);
        }
      }
    }

    method ReleaseForShutdown(id: nat, worker: string, now: real) returns (changed: bool)
      modifies this
      ensures changed == Owns(old(rows), id, worker) && rows == Release(old(rows), id, worker, now)
    {
      changed := Owns(rows, id, worker);
      if changed {
        rows := rows[id := Released(rows[id], now)];
      }
    }

    method AskCancel(id: nat, now: real) returns (changed: bool)
      requires EdgesBackward(rows)
      modifies this
      ensures changed == (id < |old(rows)| && old(rows)[id].status.Live())
      ensures var after := RequestCancel(old(rows), id, now);
              rows == if changed && after[id].status.Cancelled? then CancelDescendants(after, id, now) else after
    {
      changed := id < |rows| && rows[id].status.Live();
      if changed {
        rows := rows[id := CancelAsked(rows[id], now)];
        if rows[id].status.Cancelled? {
          var _ := CancelDescendantsOf(id, now);
        }
      }
    }

    method RetryTask(id: nat, now: real) returns (changed: bool)
      modifies this
      ensures changed == (id < |old(rows)| && !old(rows)[id].status.Running?)
      ensures rows == Retry(old(rows), id, now)
    {
      changed := id < |rows| && !rows[id].status.Running?;
      if changed {
        rows := rows[id := Renewed(rows[id], now)];
      }
    }

    /**
     Breadth first below t: each round drops the waiting children of the last one. Exactly the tasks
     that wait under t through waiting tasks are dropped, and they are counted.
     */
    method CancelDescendantsOf(t: nat, now: real) returns (total: nat)
      requires EdgesBackward(rows)
      modifies this
      ensures rows == CancelDescendants(old(rows), t, now)
      ensures total == |AllUnder(old(rows), t)|
    {
      ghost var rows0 := rows;
      ghost var done: set<nat> := {};
      var frontier := [t];
      total := 0;
      FrontierStarts(rows, t);
      while frontier != []
        invariant DroppedExactly(rows0, rows, done, now) && total == |done| <= |rows0|
        invariant Searching(rows0, t, done, frontier) && frontier != []
        decreases |rows0| - |done|
      {
        var children := WaitingChildren(frontier);
        ghost var before := rows;
        OneRound(rows0, rows, t, done, now, frontier, children);
        if children == [] {
          break;
        }
        assert done !! Elements(children) by {
          ChildrenWaitAt(rows0, rows, done, now, frontier, children);
        }
        var count := Drop(children, now);
        DropMore(rows0, before, rows, done, children, now);
        total := total + count;
        done := done + Elements(children);
        frontier := children;
      }
      DroppedAllUnder(rows0, rows, t, now);
    }

    /** The waiting tasks that depend on one of these. */
    method WaitingChildren(parents: seq<nat>) returns (ids: seq<nat>)
      ensures forall x :: x in ids <==> WaitsAt(rows, {}, parents, x)
      ensures forall i, j :: 0 <= i < j < |ids| ==> ids[i] < ids[j]
    {
      ids := [];
      for x := 0 to |rows|
        invariant forall y :: y in ids <==>
                    0 <= y < x && rows[y].status.Waiting() && rows[y].dependsOn.Some?
                      && rows[y].dependsOn.value in parents
        invariant forall i, j :: 0 <= i < j < |ids| ==> ids[i] < ids[j]
        invariant forall i :: 0 <= i < |ids| ==> ids[i] < x
      {
        if rows[x].status.Waiting() && rows[x].dependsOn.Some? && rows[x].dependsOn.value in parents {
          ids := ids + [x];
        }
      }
    }

    /** Drops these waiting tasks and counts them. */
    method Drop(ids: seq<nat>, now: real) returns (count: nat)
      requires forall i, j :: 0 <= i < j < |ids| ==> ids[i] < ids[j]
      requires forall x :: x in ids ==> x < |rows| && rows[x].status.Waiting()
      modifies this
      ensures |rows| == |old(rows)| && count == |ids|
      ensures forall x :: 0 <= x < |rows| ==> rows[x] == if x in ids then Dropped(old(rows)[x], now) else old(rows)[x]
    {
      count := 0;
      for i := 0 to |ids|
        invariant |rows| == |old(rows)| && count == i
        invariant forall x :: 0 <= x < |rows|
                    ==> rows[x] == if x in ids[..i] then Dropped(old(rows)[x], now) else old(rows)[x]
      {
        assert ids[i] in ids && ids[i] !in ids[..i];
        rows := rows[ids[i] := Dropped(rows[ids[i]], now)];
        count := count + 1;
      }
    }

    /** Returns every stale running task to the queue or closes it, then drops what waits behind the closed ones. */
    method RecoverStaleTasks(staleBefore: real, now: real) returns (recovered: seq<nat>)
      requires EdgesBackward(rows)
      modifies this
      ensures recovered == StaleIds(old(rows), |old(rows)|, staleBefore)
      ensures rows == CancelEach(RecoverStale(old(rows), staleBefore, now), LastAttempts(old(rows), recovered), now)
    {
      var terminal;
      recovered, terminal := ReapStale(staleBefore, now);
      ghost var rows1 := rows;
      for i := 0 to |terminal|
        invariant rows == CancelEach(rows1, terminal[..i], now) && EdgesBackward(rows)
      {
        assert terminal[..i + 1][..i] == terminal[..i];
        var _ := CancelDescendantsOf(terminal[i], now);
      }
      assert terminal[..|terminal|] == terminal;
    }

    /** The reaper's own transaction, with the condition checked again at each update. */
    method ReapStale(staleBefore: real, now: real) returns (recovered: seq<nat>, terminal: seq<nat>)
      requires EdgesBackward(rows)
      modifies this
      ensures recovered == StaleIds(old(rows), |old(rows)|, staleBefore)
      ensures terminal == LastAttempts(old(rows), recovered)
      ensures rows == RecoverStale(old(rows), staleBefore, now) && EdgesBackward(rows)
    {
      ghost var rows0 := rows;
      var candidates := StaleIds(rows, |rows|, staleBefore);
      recovered, terminal := [], [];
      for i := 0 to |candidates|
        invariant recovered == candidates[..i] && terminal == LastAttempts(rows0, candidates[..i])
        invariant ReapedExactly(rows0, rows, candidates, i, now)
      {
        var id := candidates[i];
        ReapedNext(rows0, rows, candidates, i, now);
        LastAttemptsNext(rows0, candidates, i);
        if Stale(rows[id], staleBefore) {
          if Exhausted(rows, id) {
            terminal := terminal + [id];
          }
          rows := rows[id := Reaped(rows[id], now)];
          recovered := recovered + [id];
        }
        assert candidates[..i + 1] == candidates[..i] + [id];
      }
      assert candidates[..|candidates|] == candidates;
      ReapedAll(rows0, rows, candidates, staleBefore, now);
    }
  }

  /** The first i candidates are reaped, and nothing else. */
  ghost predicate ReapedExactly(rows0: Rows, rows: Rows, candidates: seq<nat>, i: nat, now: real)
    requires i <= |candidates|
  {
    && |rows| == |rows0|
    && (forall k :: 0 <= k < |candidates| ==>
          candidates[k] < |rows| && rows[candidates[k]] == if k < i then Reaped(rows0[candidates[k]], now)
            else rows0[candidates[k]])
    && (forall x: nat :: x < |rows| && x !in candidates ==> rows[x] == rows0[x])
  }

  lemma ReapedNext(rows0: Rows, rows: Rows, candidates: seq<nat>, i: nat, now: real)
    requires i < |candidates| && ReapedExactly(rows0, rows, candidates, i, now)
    requires forall j, k :: 0 <= j < k < |candidates| ==> candidates[j] < candidates[k]
    ensures candidates[i] < |rows| && rows[candidates[i]] == rows0[candidates[i]]
    ensures ReapedExactly(rows0, rows[candidates[i] := Reaped(rows[candidates[i]], now)], candidates, i + 1, now)
  {
  }

  lemma ReapedAll(rows0: Rows, rows: Rows, candidates: seq<nat>, staleBefore: real, now: real)
    requires candidates == StaleIds(rows0, |rows0|, staleBefore)
    requires ReapedExactly(rows0, rows, candidates, |candidates|, now)
    requires EdgesBackward(rows0)
    ensures rows == RecoverStale(rows0, staleBefore, now) && EdgesBackward(rows)
  {
    var after := RecoverStale(rows0, staleBefore, now);
    forall x: nat | x < |rows|
      ensures rows[x] == after[x]
    {
      if x in candidates {
        var k :| 0 <= k < |candidates| && candidates[k] == x;
        assert Stale(rows0[x], staleBefore);
      }
    }
  }

  lemma {:induction false} ElementsOfDistinct(s: seq<nat>)
    requires forall i, j :: 0 <= i < j < |s| ==> s[i] < s[j]
    ensures |Elements(s)| == |s|
  {
    if s != [] {
      var init, last := s[..|s| - 1], s[|s| - 1];
      ElementsOfDistinct(init);
      assert forall i :: 0 <= i < |init| ==> init[i] != last;
      assert s == init + [last];
      assert Elements(s) == Elements(init) + {last};
    }
  }

  lemma {:induction false} BoundedSet(s: set<nat>, n: nat)
    requires forall x :: x in s ==> x < n
    ensures |s| <= n
  {
    if n > 0 {
      BoundedSet(s - {n - 1}, n - 1);
    } else {
      assert s == {};
    }
  }
}
