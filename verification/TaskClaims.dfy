/**
 Which task a worker gets, said of the task rows (src/sluicery/db/repositories/task.py).
 */
module TaskClaims {
  import opened Common
  import opened TaskQueue

  /** Task x may be given to a worker of this class now. */
  ghost predicate Claimable(rows: Rows, x: nat, workerClass: WorkerClass, now: real) {
    && x < |rows| && rows[x].workerClass == workerClass && !rows[x].cancelRequested
    && (rows[x].status == Pending || rows[x].status == Queued || rows[x].status == Blocked)
    && (rows[x].availableAt.Some? ==> rows[x].availableAt.value <= now)
    && (rows[x].status == Blocked ==> rows[x].blockedUntil.Some?)
    && (rows[x].blockedUntil.Some? ==> rows[x].blockedUntil.value <= now)
    && (rows[x].dependsOn.Some?
       ==> rows[x].dependsOn.value < |rows| && rows[rows[x].dependsOn.value].status == Succeeded)
  }

  function Downloads(rows: Rows): set<nat> {
    set x: nat | x < |rows| && rows[x].kind == Download && rows[x].status == Running
  }

  /** A network worker gets no further download once as many run as the limit says. */
  ghost predicate HeldBack(rows: Rows, x: nat, workerClass: WorkerClass, limit: Option<int>)
    requires x < |rows|
  {
    workerClass == Network && rows[x].kind == Download && limit.Some? && |Downloads(rows)| >= limit.value
  }

  /** x comes before y: greater priority, then an earlier schedule, none being the earliest, then the smaller id. */
  ghost predicate Ahead(rows: Rows, x: nat, y: nat)
    requires x < |rows| && y < |rows|
  {
    || rows[x].priority > rows[y].priority
    || (rows[x].priority == rows[y].priority
        && (|| (rows[x].scheduledAt == None && rows[y].scheduledAt.Some?)
            || (rows[x].scheduledAt.Some? && rows[y].scheduledAt.Some?
                && rows[x].scheduledAt.value < rows[y].scheduledAt.value)
            || (rows[x].scheduledAt == rows[y].scheduledAt && x < y)))
  }

  lemma {:induction false} DownloadCount(rows: Rows)
    ensures RunningDownloads(rows) == |Downloads(rows)|
  {
    if rows != [] {
      var init := rows[..|rows| - 1];
      DownloadCount(init);
      var last := |rows| - 1;
      assert Downloads(rows)
          == Downloads(init) + if rows[last].kind == Download && rows[last].status == Running then {last} else {};
    }
  }

  lemma EligibleExactly(rows: Rows, x: nat, workerClass: WorkerClass, now: real, limit: Option<int>)
    ensures Eligible(rows, x, workerClass, now, limit)
            <==> Claimable(rows, x, workerClass, now) && !HeldBack(rows, x, workerClass, limit)
  {
    DownloadCount(rows);
  }

  /**
   The task claimed is the first one that may be given out, and it then runs under the worker's name, started and
   seen now, with no wait left; no other row changes.
   */
  lemma ClaimExactly(
    rows: Rows, workerClass: WorkerClass, worker: string, now: real, limit: Option<int>, x: nat)
    requires Claimable(rows, x, workerClass, now) && !HeldBack(rows, x, workerClass, limit)
    ensures var after := Claim(rows, workerClass, worker, now, limit);
            exists best: nat ::
              && Claimable(rows, best, workerClass, now) && !HeldBack(rows, best, workerClass, limit)
              && (best == x || Ahead(rows, best, x))
              && |after| == |rows| && (forall y :: 0 <= y < |rows| && y != best ==> after[y] == rows[y])
              && after[best].status == Running && after[best].worker == Some(worker)
              && after[best].startedAt == after[best].heartbeatAt == Some(now) && after[best].finishedAt == None
              && after[best].availableAt == after[best].blockedUntil == None
              && after[best].attempts == rows[best].attempts && after[best].dependsOn == rows[best].dependsOn
              && after[best].run == rows[best].run && !after[best].cancelRequested
  {
    EligibleExactly(rows, x, workerClass, now, limit);
    ClaimTakesFirst(rows, workerClass, worker, now, limit);
    var best: nat :| Eligible(rows, best, workerClass, now, limit)
      && (forall id: nat :: Eligible(rows, id, workerClass, now, limit) && id != best ==> Before(rows, best, id))
      && Claim(rows, workerClass, worker, now, limit) == rows[best := Claimed(rows[best], worker, now)];
    EligibleExactly(rows, best, workerClass, now, limit);
    assert best == x || Ahead(rows, best, x);
  }

  /** And where nothing may be given out, nothing changes. */
  lemma NothingToClaim(rows: Rows, workerClass: WorkerClass, worker: string, now: real, limit: Option<int>)
    requires forall x: nat :: Claimable(rows, x, workerClass, now) ==> HeldBack(rows, x, workerClass, limit)
    ensures Claim(rows, workerClass, worker, now, limit) == rows
  {
    forall x: nat
      ensures !Eligible(rows, x, workerClass, now, limit)
    {
      EligibleExactly(rows, x, workerClass, now, limit);
    }
    ClaimTakesFirst(rows, workerClass, worker, now, limit);
  }
}
