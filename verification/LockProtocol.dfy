/**
  Any number of clients sharing one lock, simple or fair, through the scripts. A client is named by the
  value of one acquisition attempt; values are fresh, so a value stands for one attempt. A step is one
  script run on the server, or the clock moving. `Run` is an arbitrary interleaving of steps.
 */
module LockProtocol {
  import opened RedisCommands
  import opened RedisScripts

  /** Refused: a simple attempt that failed. Abandoned: queued by a `TryLock` that returned false. */
  datatype Phase = Refused | Abandoned | Waiting | TimedOut | Holding | Done

  /**
    What the clients believe and the history of the queue. lease: end of the lease of each grant not yet
    released. ticket: order of arrival in the queue. grants: values granted from the queue, oldest first.
   */
  datatype Clients = Clients(
    phase: map<string, Phase>,
    lease: map<string, int>,
    ticket: map<string, nat>,
    next: nat,
    grants: seq<string>)

  datatype Sys = Sys(store: LockStore, clients: Clients)

  datatype Step =
    | SimpleTry(v: string, ttl: int)
    | FairTry(v: string, ttl: int, queueTtl: int, blocking: bool)
    | Poll(v: string, ttl: int)
    | GiveUp(v: string)
    | Release(v: string, fair: bool)
    | Extend(v: string, ttl: int)
    | Tick(d: nat)

  predicate Fresh(s: Sys, v: string) {
    v !in s.clients.phase
  }

  predicate Enabled(s: Sys, step: Step) {
    match step
    case SimpleTry(v, ttl) => Fresh(s, v) && 0 < ttl
    case FairTry(v, ttl, queueTtl, _) => Fresh(s, v) && 0 < ttl && 0 < queueTtl
    case Poll(v, ttl) => !Fresh(s, v) && s.clients.phase[v].Waiting? && 0 < ttl
    case GiveUp(v) => !Fresh(s, v) && s.clients.phase[v].Waiting?
    case _ => true
  }

  function SetPhase(c: Clients, v: string, p: Phase): Clients {
    c.(phase := c.phase[v := p])
  }

  function Granted(s: Sys, v: string, ttl: int): Sys {
    Sys(Grant(s.store, v, ttl),
        SetPhase(s.clients, v, Holding).(lease := s.clients.lease[v := s.store.now + ttl]))
  }

  /** Reaches any client, whether or not its lease is still running, or ever did. */
  function Released(s: Sys, v: string, fair: bool): Sys {
    var store :=
      if !HeldBy(s.store, v) then s.store
      else if fair then Purged(s.store, v).(lock := Absent)
      else s.store.(lock := Absent);
    var c := if !Fresh(s, v) && s.clients.phase[v].Holding? then SetPhase(s.clients, v, Done) else s.clients;
    Sys(store, c.(lease := s.clients.lease - {v}))
  }

  function ExtendedBy(s: Sys, v: string, ttl: int): Sys {
    var lease :=
      if !HeldBy(s.store, v) then s.clients.lease
      else if ttl <= 0 then s.clients.lease - {v}
      else s.clients.lease[v := s.store.now + ttl];
    Sys(Extended(s.store, v, ttl), s.clients.(lease := lease))
  }

  /** A step that is not enabled leaves everything as it is. */
  function Next(s: Sys, step: Step): Sys {
    if !Enabled(s, step) then s
    else
      match step
      case SimpleTry(v, ttl) =>
        if Free(s.store) then Granted(s, v, ttl)
        else s.(clients := SetPhase(s.clients, v, Refused))
      case FairTry(v, ttl, queueTtl, blocking) =>
        if Free(s.store) then Granted(s, v, ttl)
        else
          Sys(Enqueue(s.store, v, queueTtl),
              SetPhase(s.clients, v, if blocking then Waiting else Abandoned)
              .(ticket := s.clients.ticket[v := s.clients.next], next := s.clients.next + 1))
      case Poll(v, ttl) =>
        if AtHead(s.store, v) && Free(s.store) then
          var g := Granted(s, v, ttl);
          Sys(Popped(g.store), g.clients.(grants := s.clients.grants + [v]))
        else s
      case GiveUp(v) => Sys(Purged(s.store, v), SetPhase(s.clients, v, TimedOut))
      case Release(v, fair) => Released(s, v, fair)
      case Extend(v, ttl) => ExtendedBy(s, v, ttl)
      case Tick(d) => s.(store := s.store.(now := s.store.now + d))
  }

  function Run(s: Sys, steps: seq<Step>): Sys {
    if steps == [] then s
    else Next(Run(s, steps[..|steps| - 1]), steps[|steps| - 1])
  }

  function Initial(now: int): Sys {
    Sys(LockStore(now, Absent, Absent), Clients(map[], map[], map[], 0, []))
  }

  // ----- The invariant -----

  predicate Active(s: Sys, v: string) {
    v in s.clients.lease && s.store.now <= s.clients.lease[v]
  }

  /** Only holders have leases, and the lock key exists exactly while the lease it stands for runs. */
  ghost predicate LeasesMatch(s: Sys) {
    && (forall v :: v in s.clients.lease ==> v in s.clients.phase && s.clients.phase[v].Holding?)
    && (forall v :: Active(s, v) ==> s.store.lock == Present(v, At(s.clients.lease[v])))
    && (!Free(s.store) ==> Active(s, s.store.lock.value))
  }

  predicate Queueing(p: Phase) {
    p.Waiting? || p.Abandoned?
  }

  ghost predicate Increasing(ticket: map<string, nat>, q: seq<string>) {
    && (forall x :: x in q ==> x in ticket)
    && (forall i, j :: 0 <= i < j < |q| ==> ticket[q[i]] < ticket[q[j]])
  }

  ghost predicate QueueOrdered(s: Sys) {
    var c := s.clients;
    && Increasing(c.ticket, Queue(s.store))
    && Increasing(c.ticket, c.grants)
    && (forall x :: x in Queue(s.store) ==> x in c.phase && Queueing(c.phase[x]))
    && (forall g, x :: g in c.grants && x in Queue(s.store) ==> c.ticket[g] < c.ticket[x])
    && (forall v :: v in c.ticket ==> v in c.phase && c.ticket[v] < c.next)
  }

  ghost predicate Inv(s: Sys) {
    LeasesMatch(s) && QueueOrdered(s)
  }

  lemma {:induction false} WithoutKeepsOrder(ticket: map<string, nat>, q: seq<string>, v: string)
    requires Increasing(ticket, q)
    ensures Increasing(ticket, Without(q, v))
  {
    if q != [] {
      var rest := Without(q[1..], v);
      assert Increasing(ticket, q[1..]);
      WithoutKeepsOrder(ticket, q[1..], v);
      forall x | x in rest ensures x in q[1..] && ticket[q[0]] < ticket[x] {
        var i :| 0 <= i < |q[1..]| && q[1..][i] == x;
        assert q[i + 1] == x;
      }
    }
  }

  lemma NextKeepsLeases(s: Sys, step: Step)
    requires Inv(s)
    ensures LeasesMatch(Next(s, step))
  {
  }

  lemma EnqueueKeepsOrder(s: Sys, v: string, queueTtl: int, p: Phase)
    requires Inv(s) && Fresh(s, v) && 0 < queueTtl && Queueing(p)
    ensures QueueOrdered(Sys(Enqueue(s.store, v, queueTtl), SetPhase(s.clients, v, p)
                             .(ticket := s.clients.ticket[v := s.clients.next], next := s.clients.next + 1)))
  {
    var q := Queue(s.store);
    var t := Enqueue(s.store, v, queueTtl);
    assert Queue(t) == q + [v];
    assert v !in q && v !in s.clients.grants;
    assert forall x :: x in q + [v] <==> x in q || x == v;
  }

  lemma PopKeepsOrder(s: Sys, v: string, ttl: int)
    requires Inv(s) && Enabled(s, Poll(v, ttl)) && AtHead(s.store, v) && Free(s.store)
    ensures QueueOrdered(Next(s, Poll(v, ttl)))
  {
    var q, grants := Queue(s.store), s.clients.grants;
    var t := Next(s, Poll(v, ttl));
    assert Queue(t.store) == q[1..];
    assert forall x :: x in q[1..] ==> x in q;
    assert forall x :: x in grants + [v] <==> x in grants || x == v;
    forall x | x in q[1..] ensures s.clients.ticket[v] < s.clients.ticket[x] {
      var i :| 0 <= i < |q[1..]| && q[1..][i] == x;
      assert q[i + 1] == x;
    }
  }

  lemma ShrinkingKeepsOrder(s: Sys, t: Sys, v: string)
    requires QueueOrdered(s)
    requires t.clients.ticket == s.clients.ticket && t.clients.next == s.clients.next
    requires t.clients.grants == s.clients.grants
    requires Queue(t.store) == Queue(s.store) || Queue(t.store) == Without(Queue(s.store), v)
             || Queue(t.store) == []
    requires forall x :: x in s.clients.phase ==>
                           x in t.clients.phase &&
                           (t.clients.phase[x] == s.clients.phase[x] || x !in Queue(t.store))
    ensures QueueOrdered(t)
  {
    WithoutKeepsOrder(s.clients.ticket, Queue(s.store), v);
  }

  lemma NextKeepsOrder(s: Sys, step: Step)
    requires Inv(s)
    ensures QueueOrdered(Next(s, step))
  {
    if Enabled(s, step) {
      match step
      case SimpleTry(v, ttl) => ShrinkingKeepsOrder(s, Next(s, step), v);
      case FairTry(v, ttl, queueTtl, blocking) =>
        if Free(s.store) {
          ShrinkingKeepsOrder(s, Next(s, step), v);
        } else {
          EnqueueKeepsOrder(s, v, queueTtl, if blocking then Waiting else Abandoned);
        }
      case Poll(v, ttl) =>
        if AtHead(s.store, v) && Free(s.store) {
          PopKeepsOrder(s, v, ttl);
        }
      case GiveUp(v) => ShrinkingKeepsOrder(s, Next(s, step), v);
      case Release(v, _) => ShrinkingKeepsOrder(s, Next(s, step), v);
      case Extend(v, _) => ShrinkingKeepsOrder(s, Next(s, step), v);
      case Tick(_) => ShrinkingKeepsOrder(s, Next(s, step), "");
    }
  }

  lemma {:induction false} RunKeepsInv(s: Sys, steps: seq<Step>)
    requires Inv(s)
    ensures Inv(Run(s, steps))
  {
    if steps != [] {
      var before := steps[..|steps| - 1];
      RunKeepsInv(s, before);
      NextKeepsLeases(Run(s, before), steps[|steps| - 1]);
      NextKeepsOrder(Run(s, before), steps[|steps| - 1]);
    }
  }

  // ----- Leases -----

  /** In every reachable state at most one client has a running lease, and the server knows whose. */
  lemma LeaseExclusion(now: int, steps: seq<Step>, v: string)
    ensures var s := Run(Initial(now), steps);
            && (Active(s, v) <==> HeldBy(s.store, v))
            && (Active(s, v) ==> forall u :: Active(s, u) ==> u == v)
  {
    RunKeepsInv(Initial(now), steps);
  }

  ghost predicate Concerns(step: Step, v: string) {
    !step.Tick? && step.v == v
  }

  lemma NextUndisturbed(s: Sys, step: Step, v: string)
    requires Inv(s) && v in s.clients.lease && !Concerns(step, v)
    ensures var t := Next(s, step);
            && v in t.clients.lease && t.clients.lease[v] == s.clients.lease[v]
            && s.store.now <= t.store.now
            && (Active(s, v) ==> t.store.lock == s.store.lock)
  {
  }

  /**
    Nothing another client does, not even releasing or extending a lease that has lapsed, touches a lock
    whose lease is running: only time ends it.
   */
  lemma {:induction false} Undisturbed(s: Sys, steps: seq<Step>, v: string)
    requires Inv(s) && Active(s, v)
    requires forall step :: step in steps ==> !Concerns(step, v)
    ensures var t := Run(s, steps);
            && v in t.clients.lease && t.clients.lease[v] == s.clients.lease[v]
            && (Active(t, v) ==> t.store.lock == s.store.lock)
  {
    if steps != [] {
      var before, last := steps[..|steps| - 1], steps[|steps| - 1];
      assert last in steps && forall step :: step in before ==> step in steps;
      Undisturbed(s, before, v);
      RunKeepsInv(s, before);
      NextUndisturbed(Run(s, before), last, v);
    }
  }

  /** An extension that the server accepts keeps the lease running exactly if its time to live is positive. */
  lemma ExtensionKeepsLease(s: Sys, v: string, ttl: int)
    requires Inv(s) && HeldBy(s.store, v)
    ensures Enabled(s, Extend(v, ttl))
    ensures Active(Next(s, Extend(v, ttl)), v) <==> 0 < ttl
    ensures Free(Next(s, Extend(v, ttl)).store) <==> ttl <= 0
  {
  }

  /** An extension by 0, which the server accepts, lets the next client in while the lease was still to run. */
  lemma ExtensionByNothing()
    ensures var s := Run(Initial(0), [SimpleTry("a", 10)]);
            && HeldBy(s.store, "a")
            && HeldBy(Run(Initial(0), [SimpleTry("a", 10), Extend("a", 0), SimpleTry("b", 10)]).store, "b")
  {
    var steps := [SimpleTry("a", 10), Extend("a", 0), SimpleTry("b", 10)];
    assert steps[..2] == [SimpleTry("a", 10), Extend("a", 0)] && steps[..2][..1] == [SimpleTry("a", 10)];
    assert Run(Initial(0), steps[..2][..1]) == Granted(Initial(0), "a", 10);
    assert Run(Initial(0), steps[..2]) == ExtendedBy(Granted(Initial(0), "a", 10), "a", 0);
  }

  // ----- How long leases last -----

  /** The time that passes in a list of steps. */
  function Elapsed(steps: seq<Step>): nat {
    if steps == [] then 0
    else
      var last := steps[|steps| - 1];
      Elapsed(steps[..|steps| - 1]) + if last.Tick? then last.d else 0
  }

  lemma {:induction false} TimeElapses(s: Sys, steps: seq<Step>)
    ensures Run(s, steps).store.now == s.store.now + Elapsed(steps)
  {
    if steps != [] {
      TimeElapses(s, steps[..|steps| - 1]);
    }
  }

  /** An attempt or a poll that finds the lock free, and is entitled to it. */
  predicate Wins(s: Sys, step: Step) {
    && Free(s.store) && Enabled(s, step)
    && (step.SimpleTry? || step.FairTry? || (step.Poll? && AtHead(s.store, step.v)))
  }

  /** Whoever wins holds the lock for exactly its time to live, as long as it does nothing more itself. */
  lemma GrantLasts(s: Sys, step: Step, steps: seq<Step>)
    requires Inv(s) && Wins(s, step)
    requires forall other <- steps :: !Concerns(other, step.v)
    ensures HeldBy(Run(Next(s, step), steps).store, step.v) <==> Elapsed(steps) <= step.ttl
  {
    NextKeepsLeases(s, step);
    NextKeepsOrder(s, step);
    LeaseLasts(Next(s, step), step.v, step.ttl, steps);
  }

  /** An extension of a held lock makes it last for exactly the new time to live. */
  lemma ExtensionLasts(s: Sys, v: string, ttl: int, steps: seq<Step>)
    requires Inv(s) && HeldBy(s.store, v) && 0 < ttl
    requires forall other <- steps :: !Concerns(other, v)
    ensures HeldBy(Run(Next(s, Extend(v, ttl)), steps).store, v) <==> Elapsed(steps) <= ttl
  {
    NextKeepsLeases(s, Extend(v, ttl));
    NextKeepsOrder(s, Extend(v, ttl));
    LeaseLasts(Next(s, Extend(v, ttl)), v, ttl, steps);
  }

  lemma LeaseLasts(s: Sys, v: string, ttl: int, steps: seq<Step>)
    requires Inv(s) && 0 < ttl && s.store.lock == Present(v, At(s.store.now + ttl))
    requires forall other <- steps :: !Concerns(other, v)
    ensures HeldBy(Run(s, steps).store, v) <==> Elapsed(steps) <= ttl
  {
    Undisturbed(s, steps, v);
    RunKeepsInv(s, steps);
    TimeElapses(s, steps);
    assert Active(Run(s, steps), v) <==> HeldBy(Run(s, steps).store, v);
  }

  /** A release by the holder, and no other, frees the lock; a fair one takes its entries off the queue as well. */
  lemma ReleaseFrees(s: Sys, v: string, fair: bool)
    requires Inv(s)
    ensures var t := Next(s, Release(v, fair));
            && !HeldBy(t.store, v) && !Active(t, v)
            && (HeldBy(s.store, v) ==> Free(t.store))
            && (HeldBy(s.store, v) && fair ==> v !in Queue(t.store))
            && (!HeldBy(s.store, v) ==> t.store == s.store)
            && (!fair ==> t.store.queue == s.store.queue)
  {
    NextKeepsLeases(s, Release(v, fair));
  }

  // ----- Queue order -----

  ghost predicate TicketsKept(c: Clients, d: Clients) {
    && c.next <= d.next
    && (forall v :: v in c.ticket ==> v in d.ticket && d.ticket[v] == c.ticket[v])
    && (forall v :: v in d.ticket && v !in c.ticket ==> c.next <= d.ticket[v])
  }

  lemma NextKeepsTickets(s: Sys, step: Step)
    requires Inv(s)
    ensures TicketsKept(s.clients, Next(s, step).clients)
  {
  }

  lemma {:induction false} RunKeepsTickets(s: Sys, steps: seq<Step>)
    requires Inv(s)
    ensures TicketsKept(s.clients, Run(s, steps).clients)
  {
    if steps != [] {
      var before := steps[..|steps| - 1];
      RunKeepsTickets(s, before);
      RunKeepsInv(s, before);
      NextKeepsTickets(Run(s, before), steps[|steps| - 1]);
    }
  }

  lemma OrderByTicket(s: Sys, u: string, v: string)
    requires QueueOrdered(s) && {u, v} <= s.clients.ticket.Keys
    requires s.clients.ticket[u] < s.clients.ticket[v]
    ensures forall i, j | 0 <= i < |s.clients.grants| && 0 <= j < |s.clients.grants| ::
              s.clients.grants[i] == u && s.clients.grants[j] == v ==> i < j
    ensures u in Queue(s.store) ==> v !in s.clients.grants
  {
  }

  /**
    Queue-path grants follow the order of arrival: when u had joined the queue before v did, u is granted
    before v, and v is not granted while u is still queued.
   */
  lemma GrantsFollowArrivals(now: int, before: seq<Step>, after: seq<Step>, u: string, v: string)
    requires u in Run(Initial(now), before).clients.ticket
    requires v !in Run(Initial(now), before).clients.ticket
    requires v in Run(Run(Initial(now), before), after).clients.ticket
    ensures var t := Run(Run(Initial(now), before), after);
            && (forall i, j | 0 <= i < |t.clients.grants| && 0 <= j < |t.clients.grants| ::
                  t.clients.grants[i] == u && t.clients.grants[j] == v ==> i < j)
            && (u in Queue(t.store) ==> v !in t.clients.grants)
  {
    var s := Run(Initial(now), before);
    RunKeepsInv(Initial(now), before);
    RunKeepsInv(s, after);
    RunKeepsTickets(s, after);
    OrderByTicket(Run(s, after), u, v);
  }

  /** The grants on record are those of successful polls: a client that did not hold the lock, and then does. */
  lemma PollsAreRecorded(s: Sys, step: Step)
    requires Inv(s)
    ensures var t := Next(s, step);
            && (t.clients.grants == s.clients.grants || (step.Poll? && t.clients.grants == s.clients.grants + [step.v]))
            && (t.clients.grants != s.clients.grants <==>
                step.Poll? && !HeldBy(s.store, step.v) && HeldBy(t.store, step.v))
  {
  }

  // ----- Waiting -----

  predicate QueueExpires(s: Sys, step: Step) {
    && step.Tick? && Alive(s.store.queue, s.store.now)
    && s.store.queue.expiry.At? && s.store.queue.expiry.time < s.store.now + step.d
  }

  /** What can end a wait: x's own step, or the whole queue running out. */
  predicate MayLeave(s: Sys, step: Step, x: string) {
    ((step.Poll? || step.GiveUp? || step.Release?) && step.v == x) || QueueExpires(s, step)
  }

  /** Nothing else takes an entry out of the queue; nobody's grant, time-out or release does. */
  lemma NextKeepsWaiting(s: Sys, step: Step, x: string)
    requires x in Queue(s.store) && !MayLeave(s, step, x)
    ensures x in Queue(Next(s, step).store)
  {
    if step.Poll? && AtHead(s.store, step.v) {
      var i :| 0 <= i < |Queue(s.store)| && Queue(s.store)[i] == x;
      assert Queue(s.store)[1..][i - 1] == x;
    }
  }

  lemma QueueRunsOut(s: Sys, step: Step)
    requires QueueExpires(s, step)
    ensures Queue(Next(s, step).store) == []
  {
  }

  /** The restart of the queue's deadline by an attempt that joins. */
  lemma JoiningRestartsDeadline(s: Sys, step: Step)
    requires step.FairTry? && Enabled(s, step) && !Free(s.store)
    ensures Next(s, step).store.queue == Present(Queue(s.store) + [step.v], At(s.store.now + step.queueTtl))
  {
  }

  lemma {:induction false} KeepsWaiting(s: Sys, steps: seq<Step>, x: string)
    requires x in Queue(s.store)
    requires forall i | 0 <= i < |steps| :: !MayLeave(Run(s, steps[..i]), steps[i], x)
    ensures x in Queue(Run(s, steps).store)
  {
    if steps != [] {
      var before := steps[..|steps| - 1];
      assert forall i | 0 <= i < |before| :: before[..i] == steps[..i] && before[i] == steps[i];
      KeepsWaiting(s, before, x);
      NextKeepsWaiting(Run(s, before), steps[|steps| - 1], x);
    }
  }

  // ----- Bounded bypass -----

  lemma {:induction false} PositionAfterPush(q: seq<string>, y: string, x: string)
    requires x in q
    ensures Position(q + [y], x) == Position(q, x)
  {
    if q[0] != x {
      assert (q + [y])[1..] == q[1..] + [y];
      PositionAfterPush(q[1..], y, x);
    }
  }

  lemma {:induction false} PositionAfterRemoval(q: seq<string>, w: string, x: string)
    requires x in q && x != w
    ensures Position(Without(q, w), x) <= Position(q, x)
  {
    if q[0] != x {
      PositionAfterRemoval(q[1..], w, x);
      if q[0] != w {
        assert ([q[0]] + Without(q[1..], w))[1..] == Without(q[1..], w);
      }
    }
  }

  lemma NextRemembers(s: Sys, step: Step, v: string)
    requires !Fresh(s, v)
    ensures !Fresh(Next(s, step), v)
    ensures !Concerns(step, v) ==> Next(s, step).clients.phase[v] == s.clients.phase[v]
    ensures v !in Queue(s.store) ==> v !in Queue(Next(s, step).store)
  {
  }

  /**
    A value once used stays used, only a client's own steps change its phase, and who has left the queue
    does not come back.
   */
  lemma {:induction false} RunRemembers(s: Sys, steps: seq<Step>, v: string)
    requires !Fresh(s, v)
    ensures !Fresh(Run(s, steps), v)
    ensures (forall step :: step in steps ==> !Concerns(step, v)) ==>
              Run(s, steps).clients.phase[v] == s.clients.phase[v]
    ensures v !in Queue(s.store) ==> v !in Queue(Run(s, steps).store)
  {
    if steps != [] {
      var before, last := steps[..|steps| - 1], steps[|steps| - 1];
      assert last in steps && forall step :: step in before ==> step in steps;
      RunRemembers(s, before, v);
      NextRemembers(Run(s, before), last, v);
    }
  }

  /** How far v is from the head, plus how many the queue has granted so far. */
  function Behind(s: Sys, v: string): int {
    Position(Queue(s.store), v) + |s.clients.grants|
  }

  lemma NextBypass(s: Sys, step: Step, v: string)
    requires Inv(s) && v in Queue(s.store) && v in Queue(Next(s, step).store)
    ensures Behind(Next(s, step), v) <= Behind(s, v)
    ensures |s.clients.grants| <= |Next(s, step).clients.grants|
  {
    var q := Queue(s.store);
    if Enabled(s, step) {
      match step
      case FairTry(w, _, _, _) => PositionAfterPush(q, w, v);
      case GiveUp(w) => if w != v { PositionAfterRemoval(q, w, v); }
      case Release(w, _) => if w != v { PositionAfterRemoval(q, w, v); }
      case _ =>
    }
  }

  /**
    A queued client's position never grows, and the queue path grants at most as many others as the
    client moves up: whoever stands at position p is passed at most p times before reaching the head.
   */
  lemma {:induction false} BoundedBypass(s: Sys, steps: seq<Step>, v: string)
    requires Inv(s) && v in Queue(s.store) && v in Queue(Run(s, steps).store)
    ensures var t := Run(s, steps);
            && 0 <= Position(Queue(t.store), v) <= Position(Queue(s.store), v)
            && 0 <= |t.clients.grants| - |s.clients.grants|
                 <= Position(Queue(s.store), v) - Position(Queue(t.store), v)
  {
    if steps != [] {
      var before, last := steps[..|steps| - 1], steps[|steps| - 1];
      var m := Run(s, before);
      RunKeepsInv(s, before);
      RunRemembers(s, before, v);
      assert v in Queue(m.store) by {
        NextRemembers(m, last, v);
      }
      BoundedBypass(s, before, v);
      NextBypass(m, last, v);
    }
  }
}
