/**
 The delay after a failed attempt (src/sluicery/tasks/queue.py) and what the queue makes of it.
 Floating point is taken as real arithmetic.
 */
module Backoff {
  import opened Common
  import opened TaskQueue
  import opened TaskSafety

  datatype BackoffError = BadAttempt

  function Power(n: nat): (r: real)
    ensures r >= 1.0
  {
    if n == 0 then 1.0 else 2.0 * Power(n - 1)
  }

  function Min(a: real, b: real): real { if a <= b then a else b }

  function Max(a: real, b: real): real { if a >= b then a else b }

  /** base doubled with each attempt, up to the limit. */
  function Exponential(attempt: int, base: real, limit: real): real
    requires attempt >= 1
  {
    Min(limit, base * Power(attempt - 1))
  }

  function Jittered(e: real, limit: real, fraction: real): real {
    e + Room(e, limit) * fraction
  }

  function RetryDelay(attempt: int, base: real, limit: real, fraction: real): Result<real, BackoffError> {
    if attempt < 1 then Err(BadAttempt) else Ok(Jittered(Exponential(attempt, base, limit), limit, fraction))
  }

  /** What the worker's configuration and the random source guarantee. */
  predicate Configured(base: real, limit: real, fraction: real) {
    0.0 <= base && 0.0 <= limit && 0.0 <= fraction <= 1.0
  }

  lemma ScaledDown(x: real, fraction: real)
    requires 0.0 <= x && 0.0 <= fraction <= 1.0
    ensures 0.0 <= x * fraction <= x
  {
  }

  lemma ScaledOrder(x: real, y: real, k: real)
    requires x <= y && 0.0 <= k
    ensures x * k <= y * k
  {
  }

  lemma JitterBounds(e: real, limit: real, fraction: real)
    requires 0.0 <= e <= limit && 0.0 <= fraction <= 1.0
    ensures e <= Jittered(e, limit, fraction) <= limit
  {
    RoomBounds(Room(e, limit), e, limit, fraction);
  }

  lemma RoomBounds(room: real, e: real, limit: real, fraction: real)
    requires 0.0 <= room <= limit - e && 0.0 <= fraction <= 1.0
    ensures e <= e + room * fraction <= limit
  {
    ScaledDown(room, fraction);
  }

  /** The delay is at least the capped exponential and never above the cap. */
  lemma DelayBounds(attempt: int, base: real, limit: real, fraction: real)
    requires Configured(base, limit, fraction)
    ensures RetryDelay(attempt, base, limit, fraction).Ok? <==> attempt >= 1
    ensures attempt >= 1
            ==> Exponential(attempt, base, limit) <= RetryDelay(attempt, base, limit, fraction).value <= limit
  {
    if attempt >= 1 {
      ExponentialOrder(Power(attempt - 1), Power(attempt - 1), base, limit);
      JitterBounds(Exponential(attempt, base, limit), limit, fraction);
    }
  }

  lemma Distribute(x: real, y: real, k: real)
    ensures (x + y) * k == x * k + y * k
  {
  }

  function Room(e: real, limit: real): real { Max(0.0, Min(e * 0.1, limit - e)) }

  /** Room for jitter shrinks by at most the growth of the delay. */
  lemma RoomShrinks(d: real, e: real, limit: real)
    requires 0.0 <= d <= e <= limit
    ensures 0.0 <= Room(e, limit) && Room(d, limit) <= Room(e, limit) + (e - d)
  {
  }

  /** So jitter keeps the order of the delays it is added to. */
  lemma JitterKeepsOrder(d: real, e: real, limit: real, fraction: real)
    requires 0.0 <= d <= e <= limit && 0.0 <= fraction <= 1.0
    ensures Jittered(d, limit, fraction) <= Jittered(e, limit, fraction)
  {
    RoomShrinks(d, e, limit);
    JitterOrder(d, e, Room(d, limit), Room(e, limit), fraction);
  }

  lemma JitterOrder(d: real, e: real, r: real, s: real, fraction: real)
    requires d <= e && r <= s + (e - d) && 0.0 <= fraction <= 1.0
    ensures d + r * fraction <= e + s * fraction
  {
    var g := e - d;
    ScaledOrder(r, s + g, fraction);
    Distribute(s, g, fraction);
    ScaledDown(g, fraction);
    Slack(d, e, g, r * fraction, s * fraction, g * fraction);
  }

  lemma Slack(d: real, e: real, g: real, x: real, y: real, z: real)
    requires x <= y + z && z <= g && g == e - d
    ensures d + x <= e + y
  {
  }

  lemma {:induction false} PowerGrows(m: nat, n: nat)
    requires m <= n
    ensures Power(m) <= Power(n)
  {
    if m < n {
      PowerGrows(m, n - 1);
    }
  }

  /** With one random fraction, a later failure never waits less. */
  lemma DelayGrows(m: int, n: int, base: real, limit: real, fraction: real)
    requires Configured(base, limit, fraction) && 1 <= m <= n
    ensures RetryDelay(m, base, limit, fraction).value <= RetryDelay(n, base, limit, fraction).value
  {
    PowerGrows(m - 1, n - 1);
    ExponentialOrder(Power(m - 1), Power(n - 1), base, limit);
    JitterKeepsOrder(Exponential(m, base, limit), Exponential(n, base, limit), limit, fraction);
  }

  lemma ExponentialOrder(x: real, y: real, base: real, limit: real)
    requires 0.0 <= x <= y && 0.0 <= base && 0.0 <= limit
    ensures 0.0 <= Min(limit, base * x) <= Min(limit, base * y) <= limit
  {
    ScaledOrder(x, y, base);
    ScaledOrder(0.0, x, base);
  }

  /** Without jitter the delay is the base after the first failure, then twice as long each time, up to the limit. */
  lemma DelayDoubles(attempt: int, base: real, limit: real)
    requires Configured(base, limit, 0.0) && attempt >= 1
    ensures RetryDelay(1, base, limit, 0.0) == Ok(if base <= limit then base else limit)
    ensures var d := RetryDelay(attempt, base, limit, 0.0);
            d.Ok? && RetryDelay(attempt + 1, base, limit, 0.0)
                     == Ok(if 2.0 * d.value <= limit then 2.0 * d.value else limit)
  {
    var power := Power(attempt - 1);
    Unjittered(1, base, limit);
    Unjittered(attempt, base, limit);
    Unjittered(attempt + 1, base, limit);
    assert Power(attempt) == 2.0 * power && Power(0) == 1.0;
    Doubled(base, power);
    ScaledOrder(0.0, power, base);
  }

  lemma Unjittered(attempt: int, base: real, limit: real)
    requires attempt >= 1
    ensures RetryDelay(attempt, base, limit, 0.0) == Ok(Exponential(attempt, base, limit))
  {
    NoJitter(Room(Exponential(attempt, base, limit), limit));
  }

  /** Jitter adds the random fraction of a tenth of that, or of what is left below the limit. */
  lemma DelayJitters(attempt: int, base: real, limit: real, fraction: real, d: real, room: real)
    requires Configured(base, limit, fraction) && attempt >= 1 && RetryDelay(attempt, base, limit, 0.0) == Ok(d)
    requires room == if d + d * 0.1 <= limit then d * 0.1 else limit - d
    ensures RetryDelay(attempt, base, limit, fraction) == Ok(d + room * fraction)
  {
    Unjittered(attempt, base, limit);
    ExponentialOrder(Power(attempt - 1), Power(attempt - 1), base, limit);
    JitterOf(d, limit, fraction, room);
  }

  lemma JitterOf(d: real, limit: real, fraction: real, room: real)
    requires Room(d, limit) == room
    ensures Jittered(d, limit, fraction) == d + room * fraction
  {
  }

  lemma NoJitter(room: real)
    ensures room * 0.0 == 0.0
  {
  }

  lemma Doubled(base: real, power: real)
    ensures base * (2.0 * power) == 2.0 * (base * power)
  {
  }

  lemma ClaimsBeforeLater(steps: seq<Step>, a: real, b: real)
    requires ClaimsBefore(steps, a) && a <= b
    ensures ClaimsBefore(steps, b)
  {
  }

  lemma FailureWaitsFor(rows: Rows, owed: set<nat>, id: nat, worker: string, now: real, delay: real, steps: seq<Step>)
    requires Owns(rows, id, worker) && !rows[id].cancelRequested && rows[id].attempts + 1 < rows[id].maxAttempts
    requires NeverAddressed(Queue(FailForRetry(rows, id, worker, delay, now), owed), steps, id)
             && ClaimsBefore(steps, now + delay)
    ensures var after := Execute(Queue(FailForRetry(rows, id, worker, delay, now), owed), steps).rows;
            id < |after| && after[id] == FailedOnce(rows[id], delay, now) && !after[id].status.Running?
  {
    WaitsUntilDue(Queue(FailForRetry(rows, id, worker, delay, now), owed), steps, id, now + delay);
  }

  /**
   A failure that leaves attempts keeps the task from every worker until its delay is over: for
   every run of the queue in which nobody cancels or retries it and no claim is made later.
   */
  lemma FailureWaits(
    rows: Rows, owed: set<nat>, id: nat, worker: string, now: real, base: real, limit: real, fraction: real,
    steps: seq<Step>)
    requires Owns(rows, id, worker) && !rows[id].cancelRequested && rows[id].attempts + 1 < rows[id].maxAttempts
    requires Configured(base, limit, fraction)
    requires var delay := RetryDelay(rows[id].attempts + 1, base, limit, fraction).value;
             && NeverAddressed(Queue(FailForRetry(rows, id, worker, delay, now), owed), steps, id)
             && ClaimsBefore(steps, now + Exponential(rows[id].attempts + 1, base, limit))
    ensures var delay := RetryDelay(rows[id].attempts + 1, base, limit, fraction).value;
            var after := Execute(Queue(FailForRetry(rows, id, worker, delay, now), owed), steps).rows;
            id < |after| && after[id] == FailedOnce(rows[id], delay, now) && !after[id].status.Running?
  {
    var delay := RetryDelay(rows[id].attempts + 1, base, limit, fraction).value;
    DelayBounds(rows[id].attempts + 1, base, limit, fraction);
    ClaimsBeforeLater(steps, now + Exponential(rows[id].attempts + 1, base, limit), now + delay);
    FailureWaitsFor(rows, owed, id, worker, now, delay, steps);
  }
}
