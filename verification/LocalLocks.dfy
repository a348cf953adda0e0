/**
  What the operations of a local lock do to its state, as functions, and what that means over whole runs.
  An expired lock stays marked as held until some operation looks at it.
 */
module LocalLocks {
  import opened Wrappers

  datatype LockState = LockState(unlocked: bool, value: string, ttl: int, expireAt: int)

  predicate Expired(s: LockState, now: int) {
    !s.unlocked && now > s.expireAt
  }

  /** Held by a lease that is still running. */
  predicate Held(s: LockState, now: int) {
    !s.unlocked && now <= s.expireAt
  }

  function Taken(now: int, v: string, ttl: int): LockState {
    LockState(false, v, ttl, now + ttl)
  }

  function Tried(s: LockState, now: int, v: string, ttl: int): LockState {
    if Held(s, now) then s else Taken(now, v, ttl)
  }

  function Unlocked(s: LockState): LockState {
    s.(unlocked := true)
  }

  /** Extends whatever lease is on record, also one that has run out unnoticed. */
  function Extended(s: LockState, now: int, ttl: int): LockState {
    if s.unlocked then s else s.(ttl := ttl, expireAt := now + ttl)
  }

  /** Looking at a lock notices that it has expired. */
  function Noticed(s: LockState, now: int): LockState {
    if Expired(s, now) then Unlocked(s) else s
  }

  /** A lease that was not running runs after an extension exactly if it had run out unnoticed. */
  lemma ExtensionRevives(s: LockState, now: int, ttl: nat)
    ensures !Held(s, now) && Held(Extended(s, now, ttl), now) <==> Expired(s, now)
  {
  }

  // ----- Leases over a run -----

  datatype Event = TryLock(v: string, ttl: int) | Unlock | Extend(ttl: int) | Look | Tick(d: nat)

  datatype Lease = Lease(holder: string, start: int, end: int)

  /** The lock, when the lease on record started, and all leases that are over. */
  datatype Audit = Audit(now: int, lock: LockState, start: int, past: seq<Lease>)

  function Current(a: Audit): Lease {
    Lease(a.lock.value, a.start, a.lock.expireAt)
  }

  /** A lease runs from its grant to its unlock, or else to the deadline it was last extended to. */
  function Next(a: Audit, e: Event): Audit {
    match e
    case TryLock(v, ttl) =>
      if Held(a.lock, a.now) then a
      else
        Audit(a.now, Tried(a.lock, a.now, v, ttl), a.now,
              if a.lock.unlocked then a.past else a.past + [Current(a)])
    case Unlock =>
      if a.lock.unlocked then a
      else a.(lock := Unlocked(a.lock), past := a.past + [Current(a).(end := a.now)])
    case Extend(ttl) => a.(lock := Extended(a.lock, a.now, ttl))
    case Look =>
      if Expired(a.lock, a.now) then a.(lock := Unlocked(a.lock), past := a.past + [Current(a)]) else a
    case Tick(d) => a.(now := a.now + d)
  }

  function Run(a: Audit, events: seq<Event>): Audit {
    if events == [] then a
    else Next(Run(a, events[..|events| - 1]), events[|events| - 1])
  }

  function Leases(a: Audit): seq<Lease> {
    if a.lock.unlocked then a.past else a.past + [Current(a)]
  }

  ghost predicate InTimeOrder(leases: seq<Lease>) {
    forall i, j :: 0 <= i < j < |leases| ==> leases[i].start <= leases[j].start && leases[i].end <= leases[j].start
  }

  ghost predicate OverBy(leases: seq<Lease>, t: int) {
    forall i | 0 <= i < |leases| :: leases[i].start <= t && leases[i].end <= t
  }

  ghost predicate LeasesInOrder(a: Audit) {
    && InTimeOrder(a.past)
    && OverBy(a.past, if a.lock.unlocked then a.now else a.start)
    && (!a.lock.unlocked ==> a.start <= a.now)
  }

  lemma LaterLeaseKeepsOrder(leases: seq<Lease>, l: Lease)
    requires InTimeOrder(leases) && OverBy(leases, l.start)
    ensures InTimeOrder(leases + [l])
    ensures forall t | l.start <= t && l.end <= t :: OverBy(leases + [l], t)
  {
  }

  lemma NextKeepsLeasesInOrder(a: Audit, e: Event)
    requires LeasesInOrder(a)
    ensures LeasesInOrder(Next(a, e))
    ensures InTimeOrder(Leases(a))
  {
    if !a.lock.unlocked {
      LaterLeaseKeepsOrder(a.past, Current(a));
      LaterLeaseKeepsOrder(a.past, Current(a).(end := a.now));
    }
  }

  lemma {:induction false} RunKeepsLeasesInOrder(a: Audit, events: seq<Event>)
    requires LeasesInOrder(a)
    ensures LeasesInOrder(Run(a, events)) && InTimeOrder(Leases(Run(a, events)))
  {
    if events != [] {
      RunKeepsLeasesInOrder(a, events[..|events| - 1]);
      NextKeepsLeasesInOrder(Run(a, events[..|events| - 1]), events[|events| - 1]);
    }
    NextKeepsLeasesInOrder(Run(a, events), Look);
  }

  predicate Covers(l: Lease, t: int) {
    l.start <= t < l.end
  }

  /** From any free lock on, no instant is covered by two leases, although expiry is noticed late. */
  lemma LeasesDisjoint(now: int, lock: LockState, events: seq<Event>, t: int)
    requires lock.unlocked
    ensures var leases := Leases(Run(Audit(now, lock, now, []), events));
            forall i, j | 0 <= i < |leases| && 0 <= j < |leases| ::
              Covers(leases[i], t) && Covers(leases[j], t) ==> i == j
  {
    RunKeepsLeasesInOrder(Audit(now, lock, now, []), events);
  }

  /** The time that passes in a list of events. */
  function Elapsed(events: seq<Event>): nat {
    if events == [] then 0
    else
      var last := events[|events| - 1];
      Elapsed(events[..|events| - 1]) + if last.Tick? then last.d else 0
  }

  /** A lease that nobody unlocks or extends lasts for exactly its time to live, whoever tries meanwhile. */
  lemma {:induction false} LeaseLasts(a: Audit, v: string, ttl: nat, events: seq<Event>)
    requires !Held(a.lock, a.now)
    requires forall e <- events :: !e.Unlock? && !e.Extend?
    ensures var b := Run(Next(a, TryLock(v, ttl)), events);
            && b.now == a.now + Elapsed(events)
            && (Elapsed(events) <= ttl ==> Held(b.lock, b.now) && b.lock == LockState(false, v, ttl, a.now + ttl))
            && (ttl < Elapsed(events) && (forall e <- events :: !e.TryLock?) ==> !Held(b.lock, b.now))
  {
    if events != [] {
      var before, last := events[..|events| - 1], events[|events| - 1];
      assert last in events && forall e <- before :: e in events;
      LeaseLasts(a, v, ttl, before);
    }
  }

  /** Granted for 5 units and extended after 6: the lock was free for anybody in between, and is held again. */
  lemma LapsedLeaseRevived(v: string)
    ensures var start := Audit(0, LockState(true, "", 0, 0), 0, []);
            && Expired(Run(start, [TryLock(v, 5), Tick(6)]).lock, 6)
            && Held(Run(start, [TryLock(v, 5), Tick(6), Extend(5)]).lock, 6)
            && Leases(Run(start, [TryLock(v, 5), Tick(6), Extend(5)])) == [Lease(v, 0, 11)]
  {
    var start := Audit(0, LockState(true, "", 0, 0), 0, []);
    var events := [TryLock(v, 5), Tick(6), Extend(5)];
    assert events[..2] == [TryLock(v, 5), Tick(6)] && events[..2][..1] == [TryLock(v, 5)];
    assert Run(start, [TryLock(v, 5)]) == Audit(0, Taken(0, v, 5), 0, []);
  }

  // ----- The fair lock: the head of its queue is the holder -----

  datatype FairState = FairState(lock: LockState, queue: seq<string>)

  function WithoutHead(q: seq<string>): seq<string> {
    if q == [] then [] else q[1..]
  }

  function FairUnlocked(s: FairState): FairState {
    FairState(Unlocked(s.lock), WithoutHead(s.queue))
  }

  function FairNoticed(s: FairState, now: int): FairState {
    if Expired(s.lock, now) then FairUnlocked(s) else s
  }

  /** A free lock goes to the head of the queue, or to anybody if nobody queues. */
  predicate MayTake(s: FairState, now: int, v: string) {
    var n := FairNoticed(s, now);
    n.lock.unlocked && (n.queue == [] || n.queue[0] == v)
  }

  /** An attempt joins the queue, unless it finds its own entry at the head of a free lock. */
  predicate Joins(s: FairState, now: int, v: string) {
    !MayTake(s, now, v) || FairNoticed(s, now).queue == []
  }

  function FairTried(s: FairState, now: int, v: string, ttl: int): FairState {
    var n := FairNoticed(s, now);
    FairState(if MayTake(s, now, v) then Taken(now, v, ttl) else n.lock,
              if Joins(s, now, v) then n.queue + [v] else n.queue)
  }

  /** All entries that ever joined the queue, and all grants, oldest first. */
  datatype History = History(now: int, fair: FairState, arrivals: seq<string>, grants: seq<string>)

  function FairNext(h: History, e: Event): History {
    match e
    case TryLock(v, ttl) =>
      History(h.now, FairTried(h.fair, h.now, v, ttl),
              if Joins(h.fair, h.now, v) then h.arrivals + [v] else h.arrivals,
              if MayTake(h.fair, h.now, v) then h.grants + [v] else h.grants)
    case Unlock => if h.fair.lock.unlocked then h else h.(fair := FairUnlocked(h.fair))
    case Extend(ttl) => h.(fair := h.fair.(lock := Extended(h.fair.lock, h.now, ttl)))
    case Look => h.(fair := FairNoticed(h.fair, h.now))
    case Tick(d) => h.(now := h.now + d)
  }

  function FairRun(h: History, events: seq<Event>): History {
    if events == [] then h
    else FairNext(FairRun(h, events[..|events| - 1]), events[|events| - 1])
  }

  /** The number of entries that have left the queue: all the granted ones but the holder's. */
  function Served(h: History): int {
    |h.grants| - if h.fair.lock.unlocked then 0 else 1
  }

  ghost predicate Fifo(h: History) {
    && h.grants <= h.arrivals
    && 0 <= Served(h) && Served(h) + |h.fair.queue| == |h.arrivals|
    && h.fair.queue == h.arrivals[Served(h)..]
    && (!h.fair.lock.unlocked ==> h.fair.queue != [] && h.fair.queue[0] == h.fair.lock.value)
  }

  lemma NoticingKeepsFifo(h: History)
    requires Fifo(h)
    ensures Fifo(h.(fair := FairNoticed(h.fair, h.now)))
    ensures !h.fair.lock.unlocked ==> Fifo(h.(fair := FairUnlocked(h.fair)))
  {
  }

  /** An attempt that finds the state as it is recorded. */
  lemma AttemptKeepsFifo(n: History, v: string, ttl: int)
    requires Fifo(n) && !Expired(n.fair.lock, n.now)
    ensures Fifo(FairNext(n, TryLock(v, ttl)))
  {
    var t := FairNext(n, TryLock(v, ttl));
    if MayTake(n.fair, n.now, v) {
      assert n.grants == n.arrivals[..|n.grants|];
      assert t.arrivals[..|t.grants|] == t.grants;
      assert t.arrivals[|n.grants|..] == t.fair.queue;
    } else {
      assert t.arrivals[..|n.grants|] == n.arrivals[..|n.grants|];
      assert t.arrivals[Served(n)..] == n.arrivals[Served(n)..] + [v];
    }
  }

  lemma TryingKeepsFifo(h: History, v: string, ttl: int)
    requires Fifo(h)
    ensures Fifo(FairNext(h, TryLock(v, ttl)))
  {
    NoticingKeepsFifo(h);
    var n := h.(fair := FairNoticed(h.fair, h.now));
    AttemptKeepsFifo(n, v, ttl);
  }

  /** Whatever happens to it, the lock is granted strictly in the order of arrival, once per entry. */
  lemma {:induction false} FirstComeFirstServed(h: History, events: seq<Event>)
    requires Fifo(h)
    ensures Fifo(FairRun(h, events))
  {
    if events != [] {
      var before := FairRun(h, events[..|events| - 1]);
      FirstComeFirstServed(h, events[..|events| - 1]);
      NoticingKeepsFifo(before);
      match events[|events| - 1]
      case TryLock(v, ttl) => TryingKeepsFifo(before, v, ttl);
      case _ =>
    }
  }

  lemma {:induction false} HistoryGrows(h: History, events: seq<Event>)
    ensures h.grants <= FairRun(h, events).grants && h.arrivals <= FairRun(h, events).arrivals
  {
    if events != [] {
      HistoryGrows(h, events[..|events| - 1]);
    }
  }

  predicate Tries(events: seq<Event>, v: string) {
    exists e <- events :: e.TryLock? && e.v == v
  }

  lemma {:induction false} FreeWaitsForTheHead(h: History, events: seq<Event>)
    requires h.fair.lock.unlocked && h.fair.queue != []
    ensures FairRun(h, events).grants == h.grants <==> !Tries(events, h.fair.queue[0])
    ensures !Tries(events, h.fair.queue[0]) ==>
              FairRun(h, events).fair.lock.unlocked && h.fair.queue <= FairRun(h, events).fair.queue
  {
    if events != [] {
      var before, last := events[..|events| - 1], events[|events| - 1];
      assert events == before + [last];
      FreeWaitsForTheHead(h, before);
      HistoryGrows(h, before);
      assert Tries(events, h.fair.queue[0]) <==>
             Tries(before, h.fair.queue[0]) || (last.TryLock? && last.v == h.fair.queue[0]);
    }
  }

  lemma {:induction false} FreeForAnybody(h: History, events: seq<Event>)
    requires h.fair.lock.unlocked && h.fair.queue == []
    ensures FairRun(h, events).grants == h.grants <==> forall e <- events :: !e.TryLock?
    ensures FairRun(h, events).grants == h.grants ==>
              FairRun(h, events).fair.lock.unlocked && FairRun(h, events).fair.queue == []
  {
    if events != [] {
      var before, last := events[..|events| - 1], events[|events| - 1];
      assert events == before + [last];
      FreeForAnybody(h, before);
      HistoryGrows(h, before);
      HistoryGrows(h, events);
    }
  }

  predicate OnlyTicks(events: seq<Event>) {
    forall e <- events :: e.Tick?
  }

  /** Every extension comes after some operation that would notice an expired lease. */
  predicate NoticedBeforeExtended(events: seq<Event>) {
    forall i | 0 <= i < |events| :: events[i].Extend? ==> !OnlyTicks(events[..i])
  }

  function AsNoticed(h: History): History {
    h.(fair := FairNoticed(h.fair, h.now))
  }

  /** A lapsed lock that is not extended behaves as if its expiry had been noticed at once. */
  lemma {:induction false} LapsedIsFree(h: History, events: seq<Event>)
    requires Expired(h.fair.lock, h.now) && NoticedBeforeExtended(events)
    ensures var s, t := FairRun(h, events), FairRun(AsNoticed(h), events);
            if OnlyTicks(events) then Expired(s.fair.lock, s.now) && t == AsNoticed(s) else s == t
  {
    if events != [] {
      var before, last := events[..|events| - 1], events[|events| - 1];
      assert events == before + [last];
      assert forall i | 0 <= i < |before| :: before[..i] == events[..i] && before[i] == events[i];
      LapsedIsFree(h, before);
      assert OnlyTicks(events) <==> OnlyTicks(before) && last.Tick?;
    }
  }

  /**
    A lock whose lease is over, noticed or not, waits for the entry that then heads the queue: something is
    granted again exactly if an attempt comes under that value. With nobody queued, any attempt will do.
    Only an extension that comes before the expiry is noticed can bring the old lease back.
   */
  lemma WaitsForTheHead(h: History, events: seq<Event>)
    requires !Held(h.fair.lock, h.now)
    requires h.fair.lock.unlocked || NoticedBeforeExtended(events)
    ensures var queue := if Expired(h.fair.lock, h.now) then WithoutHead(h.fair.queue) else h.fair.queue;
            FairRun(h, events).grants == h.grants <==>
            if queue == [] then forall e <- events :: !e.TryLock? else !Tries(events, queue[0])
  {
    if !h.fair.lock.unlocked {
      LapsedIsFree(h, events);
    }
    if AsNoticed(h).fair.queue == [] {
      FreeForAnybody(AsNoticed(h), events);
    } else {
      FreeWaitsForTheHead(AsNoticed(h), events);
    }
  }

  /** x lets its lease run out; b, who comes first afterwards, is granted the lock. */
  lemma LapsedLockGranted(now: int)
    ensures var start := History(now, FairState(LockState(true, "", 0, 0), []), [], []);
            FairRun(start, [TryLock("x", 5), Tick(6), TryLock("b", 5)]).grants == ["x", "b"]
  {
    var start := History(now, FairState(LockState(true, "", 0, 0), []), [], []);
    var events := [TryLock("x", 5), Tick(6), TryLock("b", 5)];
    assert events[..2] == [TryLock("x", 5), Tick(6)] && events[..2][..1] == [TryLock("x", 5)];
    assert FairRun(start, events[..2][..1]) == History(now, FairState(Taken(now, "x", 5), ["x"]), ["x"], ["x"]);
  }

  /**
    An attempt that is refused leaves an entry. Unless its value is tried again, only those who came before it
    can still be granted the lock, and no new value ever is: no later client's, and not that of a retry.
   */
  lemma {:induction false} RefusalBlocks(h: History, v: string, ttl: int, events: seq<Event>)
    requires Fifo(h) && !MayTake(h.fair, h.now, v) && !Tries(events, v)
    ensures FairRun(FairNext(h, TryLock(v, ttl)), events).grants <= h.arrivals
    ensures forall u :: u !in h.arrivals ==> u !in FairRun(FairNext(h, TryLock(v, ttl)), events).grants
  {
    var refused := FairNext(h, TryLock(v, ttl));
    TryingKeepsFifo(h, v, ttl);
    if events == [] {
      NoticingKeepsFifo(h);
    } else {
      var before, last := events[..|events| - 1], events[|events| - 1];
      assert events == before + [last];
      assert !Tries(before, v) && !(last.TryLock? && last.v == v);
      RefusalBlocks(h, v, ttl, before);
      HistoryGrows(refused, before);
      HistoryGrows(refused, events);
      FirstComeFirstServed(refused, before);
      FirstComeFirstServed(refused, events);
      var s, t := FairRun(refused, before), FairRun(refused, events);
      assert t.grants == s.grants || (last.TryLock? && t.grants == s.grants + [last.v]);
      assert t.arrivals[|h.arrivals|] == v;
    }
  }

  /** x holds the lock and gives it back while a waits; if a never tries again, b does not get the free lock. */
  lemma FreeLockNotGranted(now: int, ttl: nat)
    ensures var start := History(now, FairState(LockState(true, "", 0, 0), []), [], []);
            var h := FairRun(start, [TryLock("x", ttl), TryLock("a", ttl), Unlock, TryLock("b", ttl)]);
            h.fair.lock.unlocked && h.fair.queue == ["a", "b"] && h.grants == ["x"]
  {
    var start := History(now, FairState(LockState(true, "", 0, 0), []), [], []);
    var events := [TryLock("x", ttl), TryLock("a", ttl), Unlock, TryLock("b", ttl)];
    assert events[..3] == [TryLock("x", ttl), TryLock("a", ttl), Unlock];
    assert events[..3][..2] == [TryLock("x", ttl), TryLock("a", ttl)];
    assert events[..3][..2][..1] == [TryLock("x", ttl)] && events[..3][..2][..1][..0] == [];
    assert FairRun(start, events[..3][..2][..1]).fair == FairState(Taken(now, "x", ttl), ["x"]);
    assert FairRun(start, events[..3][..2]).fair == FairState(Taken(now, "x", ttl), ["x", "a"]);
    assert FairRun(start, events[..3]).fair == FairState(Unlocked(Taken(now, "x", ttl)), ["a"]);
  }

  /** A fair lock as the manager hands it out, and one recycled with a queue left over, start in order. */
  lemma FreeLockIsFifo(now: int, s: FairState)
    requires s.lock.unlocked
    ensures Fifo(History(now, s, s.queue, []))
  {
  }

  // ----- The reported queue position -----

  /** 0 for the holder, the place counted from 1 for others; None stands for the lock-not-found error. */
  function ReportedPosition(s: FairState): (p: Option<int>)
  {
    if !s.lock.unlocked && s.queue != [] && s.lock.value == s.queue[0] then Some(0)
    else PlaceOf(s.queue, s.lock.value)
  }

  function PlaceOf(q: seq<string>, v: string): (p: Option<int>)
    ensures p == None <==> v !in q
    ensures p.Some? ==> 1 <= p.value <= |q| && q[p.value - 1] == v && forall j :: 0 <= j < p.value - 1 ==> q[j] != v
  {
    if q == [] then None
    else if q[0] == v then Some(1)
    else
      match PlaceOf(q[1..], v)
      case None => None
      case Some(p) => Some(p + 1)
  }

  /** What the caller asks for: 0 if it holds the lock, otherwise its own place in the queue. */
  function CallersPosition(s: FairState, caller: string): Option<int> {
    if !s.lock.unlocked && s.lock.value == caller then Some(0) else PlaceOf(s.queue, caller)
  }

  /**
    The position reported is that of the value stored in the shared lock, which stays there after an unlock.
    It is the caller's exactly if that value is the caller's, or the lock is free and neither is queued.
   */
  lemma PositionIsTheStoredValues(h: History, caller: string)
    requires Fifo(h)
    ensures var s := h.fair;
            ReportedPosition(s) == CallersPosition(s, caller) <==>
              || caller == s.lock.value
              || (s.lock.unlocked && caller !in s.queue && s.lock.value !in s.queue)
  {
  }

  /** After x has unlocked, a is first in the queue of the free lock and is told that it is not there. */
  lemma QueuedCallerIsNotFound(now: int, ttl: nat)
    ensures var start := History(now, FairState(LockState(true, "", 0, 0), []), [], []);
            var h := FairRun(start, [TryLock("x", ttl), TryLock("a", ttl), Unlock]);
            && Fifo(h) && h.fair.lock.unlocked && h.fair.queue == ["a"]
            && ReportedPosition(h.fair) == None && CallersPosition(h.fair, "a") == Some(1)
  {
    var start := History(now, FairState(LockState(true, "", 0, 0), []), [], []);
    var events := [TryLock("x", ttl), TryLock("a", ttl), Unlock];
    FirstComeFirstServed(start, events);
    assert events[..2] == [TryLock("x", ttl), TryLock("a", ttl)] && events[..2][..1] == [TryLock("x", ttl)];
    assert FairRun(start, [TryLock("x", ttl)]).fair == FairState(Taken(now, "x", ttl), ["x"]);
    assert FairRun(start, events[..2]).fair == FairState(Taken(now, "x", ttl), ["x", "a"]);
  }
}
