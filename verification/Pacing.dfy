/** The transfer budget: a limiter that schedules callbacks one after another. */
module Pacing {
  function Max(a: real, b: real): real {
    if a >= b then a else b
  }

  /** A callback reports `bytes` transferred; `now` is the clock read under the limiter's lock. */
  datatype Call = Call(now: real, bytes: int)

  predicate Charged(rate: real, call: Call) {
    rate > 0.0 && call.bytes > 0
  }

  /** Where a call is scheduled to begin, given where the previous one ends. */
  function StartPoint(next: real, call: Call): real {
    Max(call.now, next)
  }

  function Reserve(rate: real, next: real, call: Call): real {
    if Charged(rate, call) then StartPoint(next, call) + call.bytes as real / rate else next
  }

  /** The bytes that take `time` under a budget of `rate` bytes a second. */
  function Budget(rate: real, time: real): real {
    rate * time
  }

  lemma QuotientPositive(x: real, rate: real)
    requires x > 0.0 && rate > 0.0
    ensures x / rate > 0.0 && Budget(rate, x / rate) == x
  {
  }

  class RateLimiter {
    const bytesPerSecond: real
    var nextAllowed: real

    constructor (mibPerSecond: real, now: real)
      ensures bytesPerSecond == mibPerSecond * 1024.0 * 1024.0 && nextAllowed == now
    {
      bytesPerSecond := mibPerSecond * 1024.0 * 1024.0;
      nextAllowed := now;
    }

    /** The body under the lock; the caller sleeps for `delay` afterwards. */
    method Consume(call: Call) returns (delay: real)
      modifies this
      ensures nextAllowed == Reserve(bytesPerSecond, old(nextAllowed), call)
      ensures delay == if Charged(bytesPerSecond, call) then nextAllowed - call.now else 0.0
      ensures Charged(bytesPerSecond, call) ==> delay > 0.0 && nextAllowed > old(nextAllowed)
    {
      if bytesPerSecond <= 0.0 || call.bytes <= 0 {
        return 0.0;
      }
      QuotientPositive(call.bytes as real, bytesPerSecond);
      var start := Max(call.now, nextAllowed);
      nextAllowed := start + call.bytes as real / bytesPerSecond;
      delay := nextAllowed - call.now;
    }
  }

  /** The limiter's field after the calls, in lock order. */
  function NextAllowed(rate: real, t0: real, calls: seq<Call>): real {
    if calls == [] then t0
    else Reserve(rate, NextAllowed(rate, t0, calls[..|calls| - 1]), calls[|calls| - 1])
  }

  /** Every byte reported to a limiter that limits anything. */
  function ChargedBytes(rate: real, call: Call): nat {
    if rate > 0.0 && call.bytes > 0 then call.bytes else 0
  }

  /** Return times are possible when no charged call returns before its scheduled end. */
  predicate Waited(rate: real, t0: real, calls: seq<Call>, returned: seq<real>) {
    |returned| == |calls| &&
    forall k :: 0 <= k < |calls| && Charged(rate, calls[k]) ==> returned[k] >= NextAllowed(rate, t0, calls[..k + 1])
  }

  /** Which calls a sum counts: the `k`-th call of the history, given the calls before it. */
  datatype Selection = ReturnedBy(returned: seq<real>, t: real) | StartedIn(from: real, to: real)

  /** Whether the last call of the history is counted. */
  predicate Counted(rate: real, t0: real, calls: seq<Call>, selection: Selection)
    requires calls != []
    requires selection.ReturnedBy? ==> |selection.returned| >= |calls|
  {
    match selection
    case ReturnedBy(returned, t) => returned[|calls| - 1] <= t
    case StartedIn(from, to) =>
      from <= StartPoint(NextAllowed(rate, t0, calls[..|calls| - 1]), calls[|calls| - 1]) <= to
  }

  function Bytes(rate: real, t0: real, calls: seq<Call>, selection: Selection): nat
    requires selection.ReturnedBy? ==> |selection.returned| >= |calls|
  {
    if calls == [] then 0
    else
      var n := |calls| - 1;
      Bytes(rate, t0, calls[..n], selection) +
      if Counted(rate, t0, calls, selection) then ChargedBytes(rate, calls[n]) else 0
  }

  /** The time a call takes of the budget. */
  function Share(rate: real, call: Call): real {
    if Charged(rate, call) then call.bytes as real / rate else 0.0
  }

  /** `Bytes`, measured in time. */
  function Time(rate: real, t0: real, calls: seq<Call>, selection: Selection): real
    requires selection.ReturnedBy? ==> |selection.returned| >= |calls|
  {
    if calls == [] then 0.0
    else
      var n := |calls| - 1;
      Time(rate, t0, calls[..n], selection) +
      if Counted(rate, t0, calls, selection) then Share(rate, calls[n]) else 0.0
  }

  lemma BudgetAdds(rate: real, x: real, y: real)
    ensures Budget(rate, x + y) == Budget(rate, x) + Budget(rate, y)
  {
  }

  lemma BudgetOrder(rate: real, x: real, y: real)
    requires rate > 0.0 && x <= y
    ensures Budget(rate, x) <= Budget(rate, y)
  {
  }

  lemma ShareFacts(rate: real, call: Call)
    ensures Share(rate, call) >= 0.0
    ensures Charged(rate, call) ==> Share(rate, call) > 0.0
    ensures rate > 0.0 ==> Budget(rate, Share(rate, call)) == ChargedBytes(rate, call) as real
  {
    if Charged(rate, call) {
      QuotientPositive(call.bytes as real, rate);
    }
  }

  lemma BytesStep(rate: real, bytes: nat, time: real, call: Call)
    requires rate > 0.0 && bytes as real == Budget(rate, time)
    ensures (bytes + ChargedBytes(rate, call)) as real == Budget(rate, time + Share(rate, call))
  {
    ShareFacts(rate, call);
    BudgetAdds(rate, time, Share(rate, call));
  }

  lemma {:induction false} BytesAreTime(rate: real, t0: real, calls: seq<Call>, selection: Selection)
    returns (time: real)
    requires rate > 0.0
    requires selection.ReturnedBy? ==> |selection.returned| >= |calls|
    ensures time == Time(rate, t0, calls, selection)
    ensures Bytes(rate, t0, calls, selection) as real == Budget(rate, time)
  {
    if calls == [] {
      time := 0.0;
    } else {
      var n := |calls| - 1;
      time := BytesAreTime(rate, t0, calls[..n], selection);
      if Counted(rate, t0, calls, selection) {
        BytesStep(rate, Bytes(rate, t0, calls[..n], selection), time, calls[n]);
        time := time + Share(rate, calls[n]);
      }
    }
  }

  /** However calls are selected, their time fits the schedule since it began. */
  lemma {:induction false} TimeWithinSchedule(rate: real, t0: real, calls: seq<Call>, selection: Selection)
    requires selection.ReturnedBy? ==> |selection.returned| >= |calls|
    ensures 0.0 <= Time(rate, t0, calls, selection) <= NextAllowed(rate, t0, calls) - t0
  {
    if calls != [] {
      var n := |calls| - 1;
      TimeWithinSchedule(rate, t0, calls[..n], selection);
      ShareFacts(rate, calls[n]);
    }
  }

  lemma {:induction false} ReturnedTime(rate: real, t0: real, calls: seq<Call>, returned: seq<real>, t: real)
    requires t >= t0 && |returned| >= |calls| && Waited(rate, t0, calls, returned[..|calls|])
    ensures Time(rate, t0, calls, ReturnedBy(returned, t)) <= t - t0
  {
    if calls != [] {
      var n := |calls| - 1;
      if Charged(rate, calls[n]) && returned[n] <= t {
        TimeWithinSchedule(rate, t0, calls, ReturnedBy(returned, t));
        assert calls[..n + 1] == calls;
      } else {
        forall k | 0 <= k < n && Charged(rate, calls[..n][k])
          ensures returned[..n][k] >= NextAllowed(rate, t0, calls[..n][..k + 1])
        {
          assert calls[..n][..k + 1] == calls[..k + 1];
          assert returned[..n][k] == returned[..n + 1][k];
        }
        ReturnedTime(rate, t0, calls[..n], returned, t);
      }
    }
  }

  /** For every history, the calls that have returned by `t` fit the budget since the limiter began. */
  lemma BudgetHolds(rate: real, t0: real, calls: seq<Call>, returned: seq<real>, t: real)
    requires rate > 0.0 && t >= t0 && Waited(rate, t0, calls, returned)
    ensures Bytes(rate, t0, calls, ReturnedBy(returned, t)) as real <= Budget(rate, t - t0)
  {
    assert returned[..|calls|] == returned;
    ReturnedTime(rate, t0, calls, returned, t);
    var time := BytesAreTime(rate, t0, calls, ReturnedBy(returned, t));
    BudgetOrder(rate, time, t - t0);
  }

  lemma {:induction false} StartedWithinSchedule(rate: real, t0: real, calls: seq<Call>, from: real, to: real)
    ensures Time(rate, t0, calls, StartedIn(from, to)) <= Max(0.0, NextAllowed(rate, t0, calls) - from)
  {
    if calls != [] {
      var n := |calls| - 1;
      StartedWithinSchedule(rate, t0, calls[..n], from, to);
      ShareFacts(rate, calls[n]);
    }
  }

  lemma {:induction false} StartedWithinInterval(rate: real, t0: real, calls: seq<Call>, from: real, to: real,
                                                 longest: real)
    requires from <= to && longest >= 0.0
    requires forall k :: 0 <= k < |calls| ==> Share(rate, calls[k]) <= longest
    ensures Time(rate, t0, calls, StartedIn(from, to)) <= to - from + longest
  {
    if calls != [] {
      var n := |calls| - 1;
      if Counted(rate, t0, calls, StartedIn(from, to)) {
        StartedWithinSchedule(rate, t0, calls[..n], from, to);
      } else {
        StartedWithinInterval(rate, t0, calls[..n], from, to, longest);
      }
    }
  }

  lemma ShareOrder(rate: real, call: Call, largest: nat)
    requires rate > 0.0 && call.bytes <= largest
    ensures Share(rate, call) <= Share(rate, Call(0.0, largest))
  {
    if call.bytes > 0 {
      assert call.bytes as real / rate <= largest as real / rate;
    } else {
      ShareFacts(rate, Call(0.0, largest));
    }
  }

  /** In any interval the calls that start there exceed the budget by at most one call. */
  lemma BurstIsOneCall(rate: real, t0: real, calls: seq<Call>, from: real, to: real, largest: nat)
    requires rate > 0.0 && from <= to
    requires forall k :: 0 <= k < |calls| ==> calls[k].bytes <= largest
    ensures Bytes(rate, t0, calls, StartedIn(from, to)) as real <= Budget(rate, to - from) + largest as real
  {
    var longest := Share(rate, Call(0.0, largest));
    ShareFacts(rate, Call(0.0, largest));
    forall k | 0 <= k < |calls| ensures Share(rate, calls[k]) <= longest {
      ShareOrder(rate, calls[k], largest);
    }
    StartedWithinInterval(rate, t0, calls, from, to, longest);
    var time := BytesAreTime(rate, t0, calls, StartedIn(from, to));
    BudgetOrder(rate, time, to - from + longest);
    BudgetAdds(rate, to - from, longest);
  }

  /** The bytes of the calls from `k` on. */
  function BytesFrom(rate: real, calls: seq<Call>, k: nat): nat
    requires k <= |calls|
  {
    if k == |calls| then 0
    else BytesFrom(rate, calls[..|calls| - 1], k) + ChargedBytes(rate, calls[|calls| - 1])
  }

  /** The time those take of the budget. */
  function ShareFrom(rate: real, calls: seq<Call>, k: nat): real
    requires k <= |calls|
  {
    if k == |calls| then 0.0
    else ShareFrom(rate, calls[..|calls| - 1], k) + Share(rate, calls[|calls| - 1])
  }

  lemma {:induction false} ShareFromIsBytes(rate: real, calls: seq<Call>, k: nat)
    requires rate > 0.0 && k <= |calls|
    ensures BytesFrom(rate, calls, k) as real == Budget(rate, ShareFrom(rate, calls, k))
  {
    if k < |calls| {
      var n := |calls| - 1;
      ShareFromIsBytes(rate, calls[..n], k);
      BytesStep(rate, BytesFrom(rate, calls[..n], k), ShareFrom(rate, calls[..n], k), calls[n]);
    }
  }

  /** The schedule ends when the calls from `k` on, begun at the `k`-th one's own time, are paid for. */
  predicate BusySince(rate: real, t0: real, calls: seq<Call>, k: nat) {
    && k < |calls| && Charged(rate, calls[k])
    && NextAllowed(rate, t0, calls) == calls[k].now + ShareFrom(rate, calls, k)
  }

  lemma {:induction false} ScheduleIsBusy(rate: real, t0: real, calls: seq<Call>)
    ensures NextAllowed(rate, t0, calls) == t0 + ShareFrom(rate, calls, 0)
      || exists k: nat :: BusySince(rate, t0, calls, k)
  {
    if calls != [] {
      var n := |calls| - 1;
      var next := NextAllowed(rate, t0, calls[..n]);
      ScheduleIsBusy(rate, t0, calls[..n]);
      if Charged(rate, calls[n]) && calls[n].now >= next {
        assert ShareFrom(rate, calls, n) == 0.0 + Share(rate, calls[n]);
        assert BusySince(rate, t0, calls, n);
      } else if next != t0 + ShareFrom(rate, calls[..n], 0) {
        var k: nat :| BusySince(rate, t0, calls[..n], k);
        assert BusySince(rate, t0, calls, k);
      }
    }
  }

  /**
   * The limiter never holds back more than the budget asks: its schedule always ends exactly when the
   * bytes of an unbroken stretch of calls are paid for at the full rate, counted from the limiter's
   * start or from the first of these calls.
   */
  lemma FullRateWhileBusy(rate: real, t0: real, calls: seq<Call>) returns (k: nat, since: real)
    requires rate > 0.0
    ensures k <= |calls| && ((k == 0 && since == t0) || (k < |calls| && since == calls[k].now))
    ensures Budget(rate, NextAllowed(rate, t0, calls) - since) == BytesFrom(rate, calls, k) as real
  {
    ScheduleIsBusy(rate, t0, calls);
    if NextAllowed(rate, t0, calls) == t0 + ShareFrom(rate, calls, 0) {
      k, since := 0, t0;
    } else {
      k :| BusySince(rate, t0, calls, k);
      since := calls[k].now;
    }
    ShareFromIsBytes(rate, calls, k);
  }
}
