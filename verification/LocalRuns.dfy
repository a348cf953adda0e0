/** Runs of the lock objects themselves: what holds of the histories holds of the objects' answers. */
module LocalRuns {
  import opened LocalLocks
  import opened ShardedLocks

  /**
    Performs the operations on the lock object and notes from its answers alone who was granted the lock,
    and until when: these leases are in time order and no two of them overlap.
   */
  method PlaySimple<T>(l: ShardedLock<T>, start: int, events: seq<Event>) returns (leases: seq<Lease>)
    requires l.unlocked
    modifies l`unlocked, l`value, l`ttl, l`expireAt
    ensures leases == Leases(Run(Audit(start, old(l.State()), start, []), events))
    ensures InTimeOrder(leases)
  {
    var now := start;
    leases := [];
    ghost var a := Audit(start, l.State(), start, []);
    ghost var first := a;
    for n := 0 to |events|
      invariant a == Run(first, events[..n])
      invariant now == a.now && l.State() == a.lock && leases == Leases(a)
      invariant !l.unlocked ==> leases != [] && leases[|leases| - 1] == Current(a)
    {
      assert events[..n + 1][..n] == events[..n];
      a := Next(a, events[n]);
      match events[n]
      case TryLock(v, ttl) =>
        var ok := l.TryLock(now, v, ttl);
        if ok {
          leases := leases + [Lease(v, now, now + ttl)];
        }
      case Unlock =>
        var ok := l.Unlock();
        if ok {
          leases := leases[..|leases| - 1] + [leases[|leases| - 1].(end := now)];
        }
      case Extend(ttl) =>
        var ok := l.Extend(now, ttl);
        if ok {
          leases := leases[..|leases| - 1] + [leases[|leases| - 1].(end := now + ttl)];
        }
      case Look =>
        var _ := l.IsLocked(now);
      case Tick(d) =>
        now := now + d;
    }
    assert events[..|events|] == events;
    RunKeepsLeasesInOrder(first, events);
  }

  /** Performs the operations on the fair lock object: grants go to the entries in the order they came. */
  method PlayFair(l: ShardedLock<FairData>, start: int, events: seq<Event>)
    returns (grants: seq<string>, ghost arrivals: seq<string>)
    requires l.unlocked
    modifies l`unlocked, l`value, l`ttl, l`expireAt, l`data
    ensures arrivals == FairRun(History(start, old(Fair(l)), old(l.data.queue), []), events).arrivals
    ensures grants <= arrivals
    ensures |l.data.queue| <= |arrivals| && l.data.queue == arrivals[|arrivals| - |l.data.queue|..]
    ensures !l.unlocked ==> l.data.queue != [] && grants != [] && grants[|grants| - 1] == l.value == l.data.queue[0]
  {
    var now := start;
    grants := [];
    ghost var h := History(start, Fair(l), l.data.queue, []);
    ghost var first := h;
    for n := 0 to |events|
      invariant h == FairRun(first, events[..n])
      invariant now == h.now && Fair(l) == h.fair && grants == h.grants
    {
      assert events[..n + 1][..n] == events[..n];
      h := FairNext(h, events[n]);
      match events[n]
      case TryLock(v, ttl) =>
        var ok := TryFairLock(l, now, v, ttl);
        if ok {
          grants := grants + [v];
        }
      case Unlock =>
        var _ := UnlockFair(l);
      case Extend(ttl) =>
        var _ := l.Extend(now, ttl);
      case Look =>
        var _ := IsLockedFair(l, now);
      case Tick(d) =>
        now := now + d;
    }
    assert events[..|events|] == events;
    FreeLockIsFifo(start, first.fair);
    FirstComeFirstServed(first, events);
    arrivals := h.arrivals;
  }
}
