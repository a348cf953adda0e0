/**
  The compare-and-swap loops that keep the largest value ever recorded. Any number of recorders take their
  steps in any order; each step is one atomic operation of one of them.
 */
module ConcurrentMaximum {

  /**
    Where a recorder of a value is: about to load the maximum, about to swap it for the value, or done.
    `mark` counts the swaps there were when it loaded, `failures` its own failed swaps.
   */
  datatype Recorder =
    | Entered(value: int, failures: nat)
    | Loaded(value: int, failures: nat, seen: int, mark: nat)
    | Returned(value: int, failures: nat)

  datatype Swap = Swap(who: nat, after: int)

  /** The shared maximum and every swap that succeeded so far. */
  datatype System = System(max: int, swaps: seq<Swap>, recorders: seq<Recorder>)

  datatype Step = Enter(value: int) | Load(who: nat) | CompareAndSwap(who: nat)

  const INITIAL := System(0, [], [])

  function Next(s: System, step: Step): System {
    match step
    case Enter(value) => s.(recorders := s.recorders + [Entered(value, 0)])
    case Load(i) =>
      if i < |s.recorders| && s.recorders[i].Entered? then
        var r := s.recorders[i];
        s.(recorders := s.recorders[i :=
             if r.value <= s.max then Returned(r.value, r.failures)
             else Loaded(r.value, r.failures, s.max, |s.swaps|)])
      else s
    case CompareAndSwap(i) =>
      if i < |s.recorders| && s.recorders[i].Loaded? then
        var r := s.recorders[i];
        if s.max == r.seen then
          System(r.value, s.swaps + [Swap(i, r.value)], s.recorders[i := Returned(r.value, r.failures)])
        else s.(recorders := s.recorders[i := Entered(r.value, r.failures + 1)])
      else s
  }

  function Run(s: System, steps: seq<Step>): System {
    if steps == [] then s
    else Next(Run(s, steps[..|steps| - 1]), steps[|steps| - 1])
  }

  /** The maximum after the first k swaps. */
  function MaxAfter(s: System, k: nat): int
    requires k <= |s.swaps|
  {
    if k == 0 then 0 else s.swaps[k - 1].after
  }

  ghost predicate Rising(swaps: seq<Swap>) {
    && (forall k | 0 <= k < |swaps| :: 0 < swaps[k].after)
    && forall j, k | 0 <= j < k < |swaps| :: swaps[j].after < swaps[k].after && swaps[j].who != swaps[k].who
  }

  /** Whoever swaps returns for good, and has lost no more races than there were swaps before. */
  predicate Settled(s: System, k: nat)
    requires k < |s.swaps|
  {
    var swap := s.swaps[k];
    swap.who < |s.recorders| && s.recorders[swap.who].Returned? &&
    s.recorders[swap.who].value == swap.after && s.recorders[swap.who].failures <= k
  }

  /** What a recorder knows; each of its failures was caused by a swap of its own. */
  predicate Informed(s: System, i: nat)
    requires i < |s.recorders|
  {
    match s.recorders[i]
    case Entered(_, failures) => failures <= |s.swaps|
    case Loaded(value, failures, seen, mark) =>
      failures <= mark <= |s.swaps| && seen == MaxAfter(s, mark) && seen < value
    case Returned(value, failures) => failures <= |s.swaps| && value <= s.max
  }

  ghost predicate Inv(s: System) {
    && Rising(s.swaps) && s.max == MaxAfter(s, |s.swaps|)
    && (forall k: nat | k < |s.swaps| :: Settled(s, k))
    && forall i: nat | i < |s.recorders| :: Informed(s, i)
  }

  /** A swap fails exactly if another recorder's swap has succeeded since the load. */
  lemma FailureMeansProgress(s: System, i: nat)
    requires Inv(s) && i < |s.recorders| && s.recorders[i].Loaded?
    ensures s.max != s.recorders[i].seen <==> s.recorders[i].mark < |s.swaps|
    ensures forall k | 0 <= k < |s.swaps| :: s.swaps[k].who != i
  {
    assert Informed(s, i);
    forall k: nat | k < |s.swaps| ensures s.swaps[k].who != i {
      assert Settled(s, k);
    }
  }

  lemma SwapKeepsInv(s: System, i: nat)
    requires Inv(s) && i < |s.recorders| && s.recorders[i].Loaded? && s.max == s.recorders[i].seen
    ensures Inv(Next(s, CompareAndSwap(i)))
    ensures s.max < Next(s, CompareAndSwap(i)).max
  {
    var t := Next(s, CompareAndSwap(i));
    assert Informed(s, i);
    FailureMeansProgress(s, i);
    forall j: nat | j < |t.recorders| ensures Informed(t, j) {
      assert Informed(s, j);
    }
    forall k: nat | k < |t.swaps| ensures Settled(t, k) {
      assert k < |s.swaps| ==> Settled(s, k);
    }
  }

  lemma NextKeepsInv(s: System, step: Step)
    requires Inv(s)
    ensures Inv(Next(s, step))
    ensures s.max <= Next(s, step).max
  {
    var t := Next(s, step);
    if t.swaps != s.swaps {
      SwapKeepsInv(s, step.who);
    } else {
      forall j: nat | j < |t.recorders| ensures Informed(t, j) {
        if j < |s.recorders| {
          assert Informed(s, j);
          if s.recorders[j].Loaded? {
            FailureMeansProgress(s, j);
          }
        }
      }
      forall k: nat | k < |t.swaps| ensures Settled(t, k) {
        assert Settled(s, k);
      }
    }
  }

  lemma {:induction false} RunKeepsInv(s: System, steps: seq<Step>)
    requires Inv(s)
    ensures Inv(Run(s, steps))
    ensures s.max <= Run(s, steps).max
  {
    if steps != [] {
      RunKeepsInv(s, steps[..|steps| - 1]);
      NextKeepsInv(Run(s, steps[..|steps| - 1]), steps[|steps| - 1]);
    }
  }

  /** The values the calls were given, in the order the calls began. */
  function Given(steps: seq<Step>): seq<int> {
    if steps == [] then []
    else
      var last := steps[|steps| - 1];
      Given(steps[..|steps| - 1]) + if last.Enter? then [last.value] else []
  }

  lemma {:induction false} GivenExactly(steps: seq<Step>, v: int)
    ensures v in Given(steps) <==> Enter(v) in steps
  {
    if steps != [] {
      var before, last := steps[..|steps| - 1], steps[|steps| - 1];
      GivenExactly(before, v);
      assert forall step :: step in steps <==> step in before || step == last by {
        assert steps == before + [last];
      }
    }
  }

  /** There is one recorder for each call, and it holds the value the call was given. */
  lemma {:induction false} RecordersHoldTheirValues(steps: seq<Step>)
    ensures var s := Run(INITIAL, steps);
            |s.recorders| == |Given(steps)| &&
            forall i | 0 <= i < |s.recorders| :: s.recorders[i].value == Given(steps)[i]
  {
    if steps != [] {
      RecordersHoldTheirValues(steps[..|steps| - 1]);
    }
  }

  /** Once every call has returned, the maximum is just that: the largest of 0 and all values given. */
  lemma MaximumOfAllRecorded(steps: seq<Step>)
    ensures var s := Run(INITIAL, steps);
            && 0 <= s.max
            && (s.max == 0 || Enter(s.max) in steps)
            && (forall r <- s.recorders | r.Returned? :: r.value <= s.max)
            && ((forall r <- s.recorders :: r.Returned?) ==> forall step <- steps | step.Enter? :: step.value <= s.max)
  {
    RunKeepsInv(INITIAL, steps);
    RecordersHoldTheirValues(steps);
    var s := Run(INITIAL, steps);
    GivenExactly(steps, s.max);
    if s.max != 0 {
      assert Settled(s, |s.swaps| - 1);
    }
    forall i: nat | i < |s.recorders| && s.recorders[i].Returned? ensures s.recorders[i].value <= s.max {
      assert Informed(s, i);
    }
    if forall r <- s.recorders :: r.Returned? {
      forall step <- steps | step.Enter? ensures step.value <= s.max {
        GivenExactly(steps, step.value);
        var i :| 0 <= i < |Given(steps)| && Given(steps)[i] == step.value;
        assert s.recorders[i] in s.recorders;
      }
    }
  }

  /** A recorder left to itself returns, wherever in its loop it is. */
  lemma ReturnsAlone(s: System, i: nat)
    requires Inv(s) && i < |s.recorders|
    ensures var t := Run(s, [CompareAndSwap(i), Load(i), CompareAndSwap(i)]);
            i < |t.recorders| && t.recorders[i].Returned?
  {
    var steps := [CompareAndSwap(i), Load(i), CompareAndSwap(i)];
    assert steps[..2] == [CompareAndSwap(i), Load(i)] && steps[..2][..1] == [CompareAndSwap(i)];
    assert Run(s, steps[..2][..1]) == Next(s, steps[0]);
    assert Run(s, steps[..2]) == Next(Next(s, steps[0]), steps[1]);
  }

  // ----- No recorder is held up for long -----

  lemma {:induction false} SwapsAreFew(swaps: seq<Swap>, others: set<nat>)
    requires forall k | 0 <= k < |swaps| :: swaps[k].who in others
    requires forall j, k | 0 <= j < k < |swaps| :: swaps[j].who != swaps[k].who
    ensures |swaps| <= |others|
  {
    if swaps != [] {
      SwapsAreFew(swaps[..|swaps| - 1], others - {swaps[|swaps| - 1].who});
    }
  }

  function Below(n: nat): (r: set<nat>)
    ensures |r| == n && forall i: nat :: i in r <==> i < n
  {
    if n == 0 then {} else Below(n - 1) + {n - 1}
  }

  /** However the steps interleave, a recorder loses fewer races than there are recorders. */
  lemma FailuresBounded(steps: seq<Step>, i: nat)
    requires i < |Run(INITIAL, steps).recorders|
    ensures Run(INITIAL, steps).recorders[i].failures < |Run(INITIAL, steps).recorders|
  {
    RunKeepsInv(INITIAL, steps);
    var s := Run(INITIAL, steps);
    var all := Below(|s.recorders|);
    assert Informed(s, i);
    forall k: nat | k < |s.swaps|
      ensures s.swaps[k].who in all && (s.swaps[k].who == i ==> s.recorders[i].failures < |s.swaps|)
    {
      assert Settled(s, k);
    }
    if k: nat :| k < |s.swaps| && s.swaps[k].who == i {
      SwapsAreFew(s.swaps, all);
    } else {
      SwapsAreFew(s.swaps, all - {i});
    }
  }
}
