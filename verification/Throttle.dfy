/**
 The throttler that keeps progress writes to the database rare (src/sluicery/tasks/progress.py).
 The clock and the percentages are real numbers.
 */
module Throttle {
  import opened Common

  datatype Memory = Memory(lastWrite: Option<real>, lastPercent: Option<real>)

  datatype Call = Call(now: real, percent: Option<real>, final: bool)

  predicate Elapsed(m: Memory, call: Call, interval: real) {
    m.lastWrite == None || call.now - m.lastWrite.value >= interval
  }

  predicate Advanced(m: Memory, call: Call, step: real) {
    call.percent.Some? && (m.lastPercent == None || call.percent.value - m.lastPercent.value >= step)
  }

  predicate Writes(m: Memory, call: Call, interval: real, step: real) {
    call.final || Elapsed(m, call, interval) || Advanced(m, call, step)
  }

  function After(m: Memory, call: Call, interval: real, step: real): Memory {
    if !Writes(m, call, interval, step) then m
    else Memory(Some(call.now), if call.percent.Some? then call.percent else m.lastPercent)
  }

  class ProgressThrottler {
    const interval: real
    const step: real
    var lastWrite: Option<real>
    var lastPercent: Option<real>

    constructor (interval: real, step: real)
      ensures this.interval == interval && this.step == step && lastWrite == None && lastPercent == None
    {
      this.interval, this.step := interval, step;
      lastWrite, lastPercent := None, None;
    }

    method ShouldWrite(percent: Option<real>, final: bool, now: real) returns (r: bool)
      modifies this
      ensures r == Writes(Memory(old(lastWrite), old(lastPercent)), Call(now, percent, final), interval, step)
      ensures Memory(lastWrite, lastPercent)
           == After(Memory(old(lastWrite), old(lastPercent)), Call(now, percent, final), interval, step)
    {
      var elapsed := lastWrite == None || now - lastWrite.value >= interval;
      var advanced := percent.Some? && (lastPercent == None || percent.value - lastPercent.value >= step);
      if !(final || elapsed || advanced) {
        return false;
      }
      lastWrite := Some(now);
      if percent.Some? {
        lastPercent := percent;
      }
      r := true;
    }
  }

  // ---- any sequence of calls ----

  function Remembered(calls: seq<Call>, interval: real, step: real): Memory {
    if calls == [] then Memory(None, None)
    else After(Remembered(calls[..|calls| - 1], interval, step), calls[|calls| - 1], interval, step)
  }

  /** The writes that were not forced by a final call. */
  function Count(calls: seq<Call>, interval: real, step: real): nat {
    if calls == [] then 0
    else
      var call := calls[|calls| - 1];
      Count(calls[..|calls| - 1], interval, step)
      + if !call.final && Writes(Remembered(calls[..|calls| - 1], interval, step), call, interval, step) then 1 else 0
  }

  /** A monotone clock and percentages between 0 and 100 that never fall. */
  ghost predicate Orderly(calls: seq<Call>) {
    && (forall i, j :: 0 <= i < j < |calls| ==> calls[i].now <= calls[j].now)
    && (forall i, j :: 0 <= i < j < |calls| && calls[i].percent.Some? && calls[j].percent.Some?
                       ==> calls[i].percent.value <= calls[j].percent.value)
    && (forall i :: 0 <= i < |calls| && calls[i].percent.Some? ==> 0.0 <= calls[i].percent.value <= 100.0)
  }

  lemma {:induction false} RememberedCalls(calls: seq<Call>, interval: real, step: real)
    ensures var m := Remembered(calls, interval, step);
            && (m.lastWrite.Some? ==> exists i :: 0 <= i < |calls| && calls[i].now == m.lastWrite.value)
            && (m.lastPercent.Some? ==> exists i :: 0 <= i < |calls| && calls[i].percent == m.lastPercent)
  {
    if calls != [] {
      var init, last := calls[..|calls| - 1], calls[|calls| - 1];
      RememberedCalls(init, interval, step);
      var m := Remembered(init, interval, step);
      if m.lastWrite.Some? {
        var i :| 0 <= i < |init| && init[i].now == m.lastWrite.value;
        assert calls[i].now == m.lastWrite.value;
      }
      if m.lastPercent.Some? {
        var i :| 0 <= i < |init| && init[i].percent == m.lastPercent;
        assert calls[i].percent == m.lastPercent;
      }
    }
  }

  /** Division spelled as a function, so that only its laws are used. */
  function Ratio(x: real, unit: real): (r: real)
    requires unit > 0.0
  {
    x / unit
  }

  lemma RatioGrows(x: real, y: real, unit: real)
    requires unit > 0.0 && x <= y
    ensures Ratio(x, unit) <= Ratio(y, unit)
    ensures y - x >= unit ==> Ratio(x, unit) + 1.0 <= Ratio(y, unit)
  {
    assert (y - x) / unit == y / unit - x / unit;
    if y - x >= unit {
      WholeUnit(y - x, unit);
    }
  }

  lemma WholeUnit(d: real, unit: real)
    requires d >= unit > 0.0
    ensures d / unit >= 1.0
  {
    var q := d / unit;
    assert d == q * unit;
    AtLeastOne(q, unit, d);
  }

  lemma AtLeastOne(q: real, unit: real, d: real)
    requires d >= unit > 0.0 && d == q * unit
    ensures q >= 1.0
  {
    Scaled(1.0 - q, unit);
  }

  lemma Scaled(gap: real, unit: real)
    requires unit > 0.0
    ensures gap > 0.0 ==> gap * unit > 0.0
    ensures gap * unit == unit - (1.0 - gap) * unit
  {
  }

  /** What has been paid for by time that passed and percent that was gained. */
  function Paid(m: Memory, start: real, interval: real, step: real): real
    requires interval > 0.0 && step > 0.0
  {
    (if m.lastWrite.Some? then 1.0 + Ratio(m.lastWrite.value - start, interval) else 0.0)
    + (if m.lastPercent.Some? then 1.0 + Ratio(m.lastPercent.value, step) else 0.0)
  }

  /** Each write that is not final is paid for. */
  lemma WritePaid(m: Memory, call: Call, start: real, interval: real, step: real)
    requires interval > 0.0 && step > 0.0 && start <= call.now
    requires m.lastWrite.Some? ==> start <= m.lastWrite.value <= call.now
    requires call.percent.Some? ==> 0.0 <= call.percent.value
    requires call.percent.Some? && m.lastPercent.Some? ==> m.lastPercent.value <= call.percent.value
    ensures Paid(After(m, call, interval, step), start, interval, step)
         >= Paid(m, start, interval, step) + if !call.final && Writes(m, call, interval, step) then 1.0 else 0.0
  {
    if m.lastWrite.Some? {
      RatioGrows(m.lastWrite.value - start, call.now - start, interval);
    } else {
      RatioGrows(0.0, call.now - start, interval);
    }
    if call.percent.Some? {
      RatioGrows(if m.lastPercent.Some? then m.lastPercent.value else 0.0, call.percent.value, step);
    }
  }

  lemma {:induction false} CountPaid(calls: seq<Call>, interval: real, step: real)
    requires interval > 0.0 && step > 0.0 && Orderly(calls) && calls != []
    ensures Count(calls, interval, step) as real <= Paid(Remembered(calls, interval, step), calls[0].now, interval,
            step)
  {
    var init, last := calls[..|calls| - 1], calls[|calls| - 1];
    var m := Remembered(init, interval, step);
    RememberedCalls(init, interval, step);
    if init != [] {
      CountPaid(init, interval, step);
    }
    WritePaid(m, last, calls[0].now, interval, step);
  }

  /**
   For every orderly sequence of calls, final ones interleaved at will, the writes that were not
   final number at most 2, plus one per interval of the time spanned, plus one per step of 100 %.
   */
  lemma AmortisedBound(calls: seq<Call>, interval: real, step: real)
    requires interval > 0.0 && step > 0.0 && Orderly(calls) && calls != []
    ensures Count(calls, interval, step) as real
         <= 2.0 + Ratio(calls[|calls| - 1].now - calls[0].now, interval) + Ratio(100.0, step)
  {
    var m := Remembered(calls, interval, step);
    CountPaid(calls, interval, step);
    RememberedCalls(calls, interval, step);
    var span := calls[|calls| - 1].now - calls[0].now;
    RatioGrows(0.0, span, interval);
    RatioGrows(0.0, 100.0, step);
    if m.lastWrite.Some? {
      RatioGrows(m.lastWrite.value - calls[0].now, span, interval);
    }
    if m.lastPercent.Some? {
      RatioGrows(m.lastPercent.value, 100.0, step);
    }
  }

  // ---- which calls are written ----

  /** The decision about the k-th call of a sequence. */
  predicate Written(calls: seq<Call>, interval: real, step: real, k: nat)
    requires k < |calls|
  {
    Writes(Remembered(calls[..k], interval, step), calls[k], interval, step)
  }

  /** Call j is the last one written before call k, of all or of those with a percentage. */
  ghost predicate LastWritten(calls: seq<Call>, interval: real, step: real, j: nat, k: nat, withPercent: bool)
    requires k <= |calls|
  {
    && j < k && Written(calls, interval, step, j) && (withPercent ==> calls[j].percent.Some?)
    && forall i :: j < i < k && (withPercent ==> calls[i].percent.Some?) ==> !Written(calls, interval, step, i)
  }

  /** Nothing was written before call k, of all or of those with a percentage. */
  ghost predicate NoneWritten(calls: seq<Call>, interval: real, step: real, k: nat, withPercent: bool)
    requires k <= |calls|
  {
    forall j :: 0 <= j < k && (withPercent ==> calls[j].percent.Some?) ==> !Written(calls, interval, step, j)
  }

  /** One call later the last one written is that call, if it is written, or the same. */
  lemma LastWrittenNext(calls: seq<Call>, interval: real, step: real, k: nat, withPercent: bool)
    requires k < |calls|
    ensures var taken := Written(calls, interval, step, k) && (withPercent ==> calls[k].percent.Some?);
            && (taken ==> LastWritten(calls, interval, step, k, k + 1, withPercent))
            && (!taken && NoneWritten(calls, interval, step, k, withPercent)
                ==> NoneWritten(calls, interval, step, k + 1, withPercent))
            && forall j: nat :: !taken && LastWritten(calls, interval, step, j, k, withPercent)
                                ==> LastWritten(calls, interval, step, j, k + 1, withPercent)
  {
  }

  lemma RememberedNext(calls: seq<Call>, interval: real, step: real, k: nat)
    requires k < |calls|
    ensures var (m, call) := (Remembered(calls[..k], interval, step), calls[k]);
            Remembered(calls[..k + 1], interval, step)
            == if !Written(calls, interval, step, k) then m
               else Memory(Some(call.now), if call.percent.Some? then call.percent else m.lastPercent)
  {
    assert calls[..k + 1][..k] == calls[..k];
  }

  lemma {:induction false} LastWriteExactly(calls: seq<Call>, interval: real, step: real, k: nat)
    requires k <= |calls|
    ensures var m := Remembered(calls[..k], interval, step);
            && (m.lastWrite == None ==> NoneWritten(calls, interval, step, k, false))
            && (m.lastWrite.Some? ==>
                  exists j: nat :: LastWritten(calls, interval, step, j, k, false) && m.lastWrite == Some(calls[j].now))
  {
    if k > 0 {
      LastWriteExactly(calls, interval, step, k - 1);
      RememberedNext(calls, interval, step, k - 1);
      LastWrittenNext(calls, interval, step, k - 1, false);
    }
  }

  lemma {:induction false} LastPercentExactly(calls: seq<Call>, interval: real, step: real, k: nat)
    requires k <= |calls|
    ensures var m := Remembered(calls[..k], interval, step);
            && (m.lastPercent == None ==> NoneWritten(calls, interval, step, k, true))
            && (m.lastPercent.Some? ==>
                  exists j: nat :: LastWritten(calls, interval, step, j, k, true) && m.lastPercent == calls[j].percent)
  {
    if k > 0 {
      LastPercentExactly(calls, interval, step, k - 1);
      RememberedNext(calls, interval, step, k - 1);
      LastWrittenNext(calls, interval, step, k - 1, true);
    }
  }

  /**
   A call is written exactly when it is final, or an interval has passed since the last one written, or its
   percentage is a step above that of the last one written with a percentage; the first of either kind always is.
   */
  lemma WrittenExactly(calls: seq<Call>, interval: real, step: real, k: nat)
    requires k < |calls|
    ensures Written(calls, interval, step, k)
            <==> || calls[k].final
                 || (forall j: nat :: LastWritten(calls, interval, step, j, k, false)
                                 ==> calls[k].now >= calls[j].now + interval)
                 || (calls[k].percent.Some?
                     && forall j: nat :: LastWritten(calls, interval, step, j, k, true)
                                    ==> calls[k].percent.value >= calls[j].percent.value + step)
  {
    LastWriteExactly(calls, interval, step, k);
    LastPercentExactly(calls, interval, step, k);
    forall i: nat, j: nat, withPercent | LastWritten(calls, interval, step, i, k, withPercent)
      && LastWritten(calls, interval, step, j, k, withPercent)
      ensures i == j
    {
    }
  }

  /** The calls that were written without being final. */
  ghost function Unforced(calls: seq<Call>, interval: real, step: real, n: nat): set<nat>
    requires n <= |calls|
  {
    set k: nat | k < n && !calls[k].final && Written(calls, interval, step, k)
  }

  lemma UnforcedNext(calls: seq<Call>, interval: real, step: real, n: nat)
    requires n < |calls|
    ensures |Unforced(calls, interval, step, n + 1)|
         == |Unforced(calls, interval, step, n)|
            + if !calls[n].final && Written(calls, interval, step, n) then 1 else 0
  {
    assert Unforced(calls, interval, step, n + 1)
        == Unforced(calls, interval, step, n)
           + if !calls[n].final && Written(calls, interval, step, n) then {n} else {};
  }

  /** The writes counted are those. */
  lemma {:induction false} CountIsWritten(calls: seq<Call>, interval: real, step: real, n: nat)
    requires n <= |calls|
    ensures Count(calls[..n], interval, step) == |Unforced(calls, interval, step, n)|
  {
    if n > 0 {
      CountIsWritten(calls, interval, step, n - 1);
      UnforcedNext(calls, interval, step, n - 1);
      assert calls[..n][..n - 1] == calls[..n - 1];
    }
  }
}
