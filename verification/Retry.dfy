/** Retrying with a deadline. What the operation answers, and how long everything takes, is arbitrary. */
module Retry {

  datatype Attempt<+T> = Failed | Succeeded(result: T) | Error(code: string)

  datatype Outcome<+T> = Success(result: T) | OperationError(code: string) | AcquireTimeout | Cancelled

  /** The surroundings of one call: answers, durations and cancellation, by attempt. */
  datatype World<!T> = World(
    operation: nat -> Attempt<T>,
    took: nat -> nat,
    oversleep: nat -> nat,
    cancelled: nat -> bool)

  /** A sleep of no positive length returns at once. */
  function Slept(interval: int): nat {
    if interval <= 0 then 0 else interval
  }

  /** When attempt n is due, if all attempts before it fail. */
  function TimeOf<T>(w: World<T>, start: int, interval: int, n: nat): int {
    if n == 0 then start
    else TimeOf(w, start, interval, n - 1) + w.took(n - 1) + Slept(interval) + w.oversleep(n - 1)
  }

  predicate GivesUp<T>(w: World<T>, start: int, timeout: int, interval: int, n: nat) {
    w.cancelled(n) || TimeOf(w, start, interval, n) > start + timeout
  }

  /** Something ends the retrying at attempt n, if nothing does before. */
  predicate Ends<T>(w: World<T>, start: int, timeout: int, interval: int, n: nat) {
    GivesUp(w, start, timeout, interval, n) || !w.operation(n).Failed?
  }

  /** The clock moves during every attempt. With a positive interval the sleep sees to that. */
  ghost predicate ClockMoves<T>(w: World<T>, interval: int) {
    0 < interval || forall n: nat :: 0 < w.took(n) + w.oversleep(n)
  }

  /** The least time from one attempt to the next. */
  function Pace(interval: int): (p: nat)
    ensures 0 < p
  {
    if 0 < interval then interval else 1
  }

  /** How many calls fit into the time. */
  function MostCalls(timeout: int, interval: int): nat {
    if timeout < 0 then 0 else timeout / Pace(interval) + 1
  }

  lemma {:induction false} TimePasses<T>(w: World<T>, start: int, interval: int, n: nat)
    requires ClockMoves(w, interval)
    ensures start + n * Pace(interval) <= TimeOf(w, start, interval, n)
  {
    if n > 0 {
      TimePasses(w, start, interval, n - 1);
      assert n * Pace(interval) == (n - 1) * Pace(interval) + Pace(interval);
    }
  }

  lemma Multiples(a: int, b: int, pace: nat)
    requires a <= b
    ensures a * pace <= b * pace
  {
    assert b * pace == a * pace + (b - a) * pace;
  }

  lemma CallsBounded(calls: nat, timeout: nat, pace: nat)
    requires 0 < pace
    ensures calls * pace <= timeout <==> calls <= timeout / pace
  {
    var q := timeout / pace;
    assert q * pace <= timeout < q * pace + pace;
    if calls <= q {
      Multiples(calls, q, pace);
    } else {
      Multiples(q + 1, calls, pace);
    }
  }

  /** An attempt that is still in time is one of those that fit in. */
  lemma InTime<T>(w: World<T>, start: int, timeout: int, interval: int, n: nat)
    requires ClockMoves(w, interval) && TimeOf(w, start, interval, n) <= start + timeout
    ensures n < MostCalls(timeout, interval)
  {
    TimePasses(w, start, interval, n);
    assert 0 <= n * Pace(interval);
    CallsBounded(n, timeout, Pace(interval));
  }

  /** An operation that always fails, and takes no longer than it must. */
  function Hopeless<T>(interval: int): World<T> {
    World(n => Failed, n => if 0 < interval then 0 else 1, n => 0, n => false)
  }

  lemma {:induction false} HopelessPace<T>(start: int, interval: int, n: nat)
    ensures TimeOf<T>(Hopeless(interval), start, interval, n) == start + n * Pace(interval)
  {
    if n > 0 {
      HopelessPace<T>(start, interval, n - 1);
      assert n * Pace(interval) == (n - 1) * Pace(interval) + Pace(interval);
    }
  }

  /** The bound is reached; without a positive interval it is one call per unit of time. */
  lemma BoundIsReached<T>(start: int, timeout: int, interval: int, n: nat)
    ensures ClockMoves<T>(Hopeless(interval), interval)
    ensures Ends<T>(Hopeless(interval), start, timeout, interval, n) <==> MostCalls(timeout, interval) <= n
  {
    HopelessPace<T>(start, interval, n);
    assert 0 <= n * Pace(interval);
    if 0 <= timeout {
      CallsBounded(n, timeout, Pace(interval));
    }
  }

  /**
    Stops at the first attempt that cancellation or the deadline forestalls, or that does not fail, and
    says why. Every attempt before that one was made and failed.
   */
  method RetryWithTimeout<T>(w: World<T>, start: int, timeout: int, interval: int)
    returns (r: Outcome<T>, calls: nat, now: int)
    requires timeout < 0 || ClockMoves(w, interval)
    ensures calls <= MostCalls(timeout, interval)
    ensures r.Cancelled? || r.AcquireTimeout? ==>
              && GivesUp(w, start, timeout, interval, calls)
              && (r.Cancelled? <==> w.cancelled(calls))
              && now == TimeOf(w, start, interval, calls)
              && forall i :: 0 <= i < calls ==> !Ends(w, start, timeout, interval, i)
    ensures r.Success? || r.OperationError? ==>
              && 0 < calls && now == TimeOf(w, start, interval, calls - 1) + w.took(calls - 1)
              && (r.Success? ==> w.operation(calls - 1) == Succeeded(r.result))
              && (r.OperationError? ==> w.operation(calls - 1) == Error(r.code))
              && !GivesUp(w, start, timeout, interval, calls - 1)
              && (forall i :: 0 <= i < calls - 1 ==> !Ends(w, start, timeout, interval, i))
  {
    hide MostCalls, ClockMoves;
    now, calls := start, 0;
    var deadline := now + timeout;
    while true
      invariant start <= now == TimeOf(w, start, interval, calls)
      invariant calls <= MostCalls(timeout, interval)
      invariant forall i :: 0 <= i < calls ==> !Ends(w, start, timeout, interval, i)
      decreases MostCalls(timeout, interval) - calls
    {
      if w.cancelled(calls) {
        return Cancelled, calls, now;
      }
      if now > deadline {
        return AcquireTimeout, calls, now;
      }
      InTime(w, start, timeout, interval, calls);
      var attempt := w.operation(calls);
      now := now + w.took(calls);
      calls := calls + 1;
      match attempt
      case Error(e) => return OperationError(e), calls, now;
      case Succeeded(x) => return Success(x), calls, now;
      case Failed => now := now + Slept(interval) + w.oversleep(calls - 1);
    }
  }
}
