/**
  The lock handles clients hold, on a server they share with any number of others. What the others do
  while a call is suspended, clock advances included, is an arbitrary list of steps under other values.
 */
module RedisLocks {
  import opened Wrappers
  import opened RedisCommands
  import opened RedisScripts
  import opened LockProtocol

  /** The server, with the record of all its clients that the protocol keeps. */
  class Server {
    const node: LockNode
    var clients: Clients

    constructor (now: int)
      ensures System() == Initial(now) && fresh(node)
    {
      node := new LockNode(now);
      clients := Initial(now).clients;
    }

    function System(): Sys
      reads this, node
    {
      Sys(LockStore(node.now, node.lock, node.queue), clients)
    }

    method Suspend(others: seq<Step>)
      modifies this, node
      ensures System() == Run(old(System()), others)
    {
      var s := Run(System(), others);
      node.now, node.lock, node.queue := s.store.now, s.store.lock, s.store.queue;
      clients := s.clients;
    }

    method SimpleTryAcquire(v: string, ttl: int) returns (r: int)
      requires Enabled(System(), Step.SimpleTry(v, ttl))
      modifies this, node
      ensures System() == Next(old(System()), Step.SimpleTry(v, ttl))
      ensures r == 1 <==> Free(old(System()).store)
    {
      var after := Next(System(), Step.SimpleTry(v, ttl));
      r := node.SimpleAcquire(v, ttl);
      clients := after.clients;
    }

    method TryAcquire(v: string, ttl: int, queueTtl: int, blocking: bool) returns (r: int)
      requires Enabled(System(), FairTry(v, ttl, queueTtl, blocking))
      modifies this, node
      ensures System() == Next(old(System()), FairTry(v, ttl, queueTtl, blocking))
      ensures r == 1 <==> Free(old(System()).store)
    {
      var after := Next(System(), FairTry(v, ttl, queueTtl, blocking));
      r := node.FairTryAcquire(v, ttl, queueTtl);
      clients := after.clients;
    }

    method Acquire(v: string, ttl: int) returns (r: int)
      requires Enabled(System(), Poll(v, ttl))
      modifies this, node
      ensures System() == Next(old(System()), Poll(v, ttl))
      ensures r == 1 <==> AtHead(old(System()).store, v) && Free(old(System()).store)
    {
      var after := Next(System(), Poll(v, ttl));
      r := node.FairAcquire(v, ttl);
      clients := after.clients;
    }

    method Cleanup(v: string)
      requires Enabled(System(), GiveUp(v))
      modifies this, node
      ensures System() == Next(old(System()), GiveUp(v))
    {
      var after := Next(System(), GiveUp(v));
      var _ := node.FairCleanup(v);
      clients := after.clients;
    }

    method ReleaseLock(v: string, fair: bool) returns (r: int)
      modifies this, node
      ensures System() == Next(old(System()), Release(v, fair))
      ensures r == if HeldBy(old(System()).store, v) then 1 else 0
    {
      var after := Next(System(), Release(v, fair));
      if fair {
        r := node.FairRelease(v);
      } else {
        r := node.SimpleRelease(v);
      }
      clients := after.clients;
    }

    method ExtendLock(v: string, ttl: int, fair: bool) returns (r: int)
      modifies this, node
      ensures System() == Next(old(System()), Extend(v, ttl))
      ensures r == if HeldBy(old(System()).store, v) then 1 else 0
    {
      var after := Next(System(), Extend(v, ttl));
      if fair {
        r := node.FairExtend(v, ttl);
      } else {
        r := node.SimpleExtend(v, ttl);
      }
      clients := after.clients;
    }
  }

  // ----- Simple lock -----

  class RedisSimpleLock {
    const server: Server
    var value: string

    constructor (server: Server)
      ensures this.server == server && value == ""
    {
      this.server := server;
      value := "";
    }

    /** Stores the value of the attempt even when the attempt fails. */
    method TryLock(v: string, ttl: int) returns (ok: bool)
      requires Fresh(server.System(), v) && 0 < ttl
      modifies this, server, server.node
      ensures value == v
      ensures ok == Free(old(server.System()).store)
      ensures server.node.lock == if ok then Present(v, At(server.node.now + ttl)) else old(server.node.lock)
      ensures server.System() == Next(old(server.System()), SimpleTry(v, ttl))
    {
      value := v;
      var result := server.SimpleTryAcquire(v, ttl);
      ok := result == 1;
    }

    /** False stands for the lock-not-found error. */
    method Unlock() returns (ok: bool)
      modifies server, server.node
      ensures ok == HeldBy(old(server.System()).store, value)
      ensures Inv(old(server.System())) && Fresh(old(server.System()), value) ==>
                !ok && server.System() == old(server.System())
      ensures server.node.lock == if ok then Absent else old(server.node.lock)
      ensures server.System() == Next(old(server.System()), Release(value, false))
    {
      var result := server.ReleaseLock(value, false);
      ok := result != 0;
    }

    method Extend(ttl: int) returns (ok: bool)
      modifies server, server.node
      ensures ok == HeldBy(old(server.System()).store, value)
      ensures Inv(old(server.System())) && Fresh(old(server.System()), value) ==>
                !ok && server.System() == old(server.System())
      ensures ok && 0 < ttl ==> server.node.lock == Present(value, At(server.node.now + ttl))
      ensures server.System() == Next(old(server.System()), Step.Extend(value, ttl))
    {
      var result := server.ExtendLock(value, ttl, false);
      ok := result == 1;
    }
  }

  /**
    A handle unlocks with the value of its latest attempt. A lock granted to v is freed by that unlock
    exactly when the latest attempt is the granted one, so a second attempt on a handle that already
    holds the lock leaves the lock to run out.
   */
  lemma RetriedHandle(s: Sys, v: string, steps: seq<Step>, latest: string)
    requires Inv(s) && Active(s, v)
    requires forall step :: step in steps ==> !Concerns(step, v)
    requires Active(Run(s, steps), v)
    ensures Free(Next(Run(s, steps), Release(latest, false)).store) <==> latest == v
  {
    RunKeepsInv(s, steps);
  }

  /** Granted to a, then tried again: the unlock sends b, fails, and leaves the lock to run out. */
  method LockedTwice() returns (l: RedisSimpleLock, first: bool, second: bool, unlocked: bool)
    ensures first && !second && !unlocked
    ensures HeldBy(l.server.System().store, "a") && l.value == "b"
  {
    var server := new Server(0);
    l := new RedisSimpleLock(server);
    first := l.TryLock("a", 10);
    second := l.TryLock("b", 10);
    unlocked := l.Unlock();
  }

  // ----- Fair lock -----

  datatype LockConfig = LockConfig(value: string, lockTtl: int, queueTtl: int, acquireTimeout: int)

  datatype LockResult = Acquired | AcquireTimeout

  const DEFAULT_LOCK_TTL := 30_000
  const DEFAULT_QUEUE_TTL := 300_000
  const DEFAULT_ACQUIRE_TIMEOUT := 10_000
  const POLL_INTERVAL := 50

  function OrDefault(x: int, default_: int): int {
    if x <= 0 then default_ else x
  }

  lemma {:induction false} RunInTurn(s: Sys, a: seq<Step>, b: seq<Step>)
    ensures Run(s, a + b) == Run(Run(s, a), b)
  {
    if b == [] {
      assert a + b == a;
    } else {
      assert (a + b)[..|a + b| - 1] == a + b[..|b| - 1];
      RunInTurn(s, a, b[..|b| - 1]);
    }
  }

  /** What other clients can have done to a client that waits in `Lock`, since the moment s it joined. */
  ghost predicate WaitingSince(s: Sys, trace: seq<Step>, now: Sys, v: string) {
    && Inv(s) && v in Queue(s.store) && v in s.clients.phase && s.clients.phase[v].Waiting?
    && (forall step :: step in trace ==> !Concerns(step, v))
    && now == Run(s, trace)
  }

  /** The outcome of a successful `Lock`: the lock is set to v for a full lease, and v is off the queue. */
  ghost predicate Won(s: Sys, v: string, ttl: int) {
    && Inv(s)
    && v in s.clients.phase && s.clients.phase[v].Holding?
    && Active(s, v)
    && s.store.lock == Present(v, At(s.store.now + ttl))
    && v !in Queue(s.store)
  }

  /** The outcome of a `Lock` that ran out of time: no lease and no queue entry is left of v. */
  ghost predicate Lost(s: Sys, v: string) {
    && Inv(s)
    && v in s.clients.phase && s.clients.phase[v].TimedOut?
    && v !in s.clients.lease && !HeldBy(s.store, v)
    && v !in Queue(s.store)
  }

  /** What the first script of an attempt under a fresh value does. */
  lemma Attempted(s: Sys, v: string, ttl: int, queueTtl: int, blocking: bool)
    requires Inv(s) && Fresh(s, v) && 0 < ttl && 0 < queueTtl
    ensures var t := Next(s, FairTry(v, ttl, queueTtl, blocking));
            && Inv(t) && t.clients.grants == s.clients.grants && t.store.now == s.store.now
            && v in t.clients.phase
            && if Free(s.store) then
                 && t.clients.phase[v].Holding? && Active(t, v)
                 && t.store.lock == Present(v, At(s.store.now + ttl)) && v !in Queue(t.store)
               else
                 && t.clients.phase[v] == (if blocking then Waiting else Abandoned)
                 && t.store.lock == s.store.lock
                 && t.store.queue == Present(Queue(s.store) + [v], At(s.store.now + queueTtl))
                 && Queue(t.store) == Queue(s.store) + [v]
  {
    NextKeepsLeases(s, FairTry(v, ttl, queueTtl, blocking));
    NextKeepsOrder(s, FairTry(v, ttl, queueTtl, blocking));
  }

  lemma Joins(s: Sys, v: string, ttl: int, queueTtl: int)
    requires Inv(s) && Fresh(s, v) && 0 < ttl && 0 < queueTtl
    ensures var t := Next(s, FairTry(v, ttl, queueTtl, true));
            && t.clients.grants == s.clients.grants && t.store.now == s.store.now
            && if Free(s.store) then Won(t, v, ttl)
               else
                 && WaitingSince(t, [], t, v) && Position(Queue(t.store), v) == |Queue(s.store)|
                 && t.store.queue == Present(Queue(s.store) + [v], At(s.store.now + queueTtl))
  {
    var t := Next(s, FairTry(v, ttl, queueTtl, true));
    Attempted(s, v, ttl, queueTtl, true);
    assert v !in Queue(s.store);
    hide Next;
    PositionOfLast(Queue(s.store), v);
    assert !Free(s.store) ==> v in Queue(t.store);
  }

  lemma Waits(s: Sys, trace: seq<Step>, now: Sys, more: seq<Step>, v: string)
    requires WaitingSince(s, trace, now, v)
    requires forall step :: step in more ==> !Concerns(step, v)
    ensures WaitingSince(s, trace + more, Run(now, more), v)
    ensures Run(now, more).store.now == now.store.now + Elapsed(more)
  {
    RunInTurn(s, trace, more);
    TimeElapses(now, more);
  }

  lemma WaitsLonger(s: Sys, trace: seq<Step>, now: Sys, d: nat, more: seq<Step>, v: string)
    requires WaitingSince(s, trace, now, v)
    requires forall step :: step in more ==> !Concerns(step, v)
    ensures WaitingSince(s, trace + ([Tick(d)] + more), Run(now, [Tick(d)] + more), v)
    ensures Run(now, [Tick(d)] + more).store.now == now.store.now + d + Elapsed(more)
  {
    RunInTurn(s, trace, [Tick(d)] + more);
    RunInTurn(now, [Tick(d)], more);
    TimeElapses(Run(now, [Tick(d)]), more);
    assert [Tick(d)][..0] == [];
  }

  lemma MayStep(s: Sys, trace: seq<Step>, now: Sys, v: string)
    requires WaitingSince(s, trace, now, v)
    ensures Inv(now) && v in now.clients.phase && now.clients.phase[v].Waiting?
  {
    RunKeepsInv(s, trace);
    RunRemembers(s, trace, v);
  }

  lemma PollWins(s: Sys, trace: seq<Step>, now: Sys, v: string, ttl: int)
    requires WaitingSince(s, trace, now, v) && 0 < ttl
    requires AtHead(now.store, v) && Free(now.store)
    ensures Won(Next(now, Poll(v, ttl)), v, ttl)
    ensures |Next(now, Poll(v, ttl)).clients.grants| <= |s.clients.grants| + Position(Queue(s.store), v) + 1
  {
    MayStep(s, trace, now, v);
    NextKeepsLeases(now, Poll(v, ttl));
    NextKeepsOrder(now, Poll(v, ttl));
    BoundedBypass(s, trace, v);
  }

  lemma GivesUp(s: Sys, trace: seq<Step>, now: Sys, v: string)
    requires WaitingSince(s, trace, now, v)
    ensures Lost(Next(now, GiveUp(v)), v)
  {
    MayStep(s, trace, now, v);
    NextKeepsLeases(now, GiveUp(v));
    NextKeepsOrder(now, GiveUp(v));
  }

  /** Other clients may do anything while this one is suspended, but it takes them no time. */
  ghost predicate NoTimeLost(others: nat -> seq<Step>) {
    forall i: nat :: Elapsed(others(i)) == 0
  }

  class RedisFairLock {
    const server: Server
    var value: string

    constructor (server: Server)
      ensures this.server == server && value == ""
    {
      this.server := server;
      value := "";
    }

    /** The attempt and the polling loop, once the times are settled. */
    method LockWithin(v: string, lockTtl: int, queueTtl: int, acquireTimeout: int, others: nat -> seq<Step>)
      returns (r: LockResult, polls: nat, ghost joined: Sys)
      requires Inv(server.System()) && Fresh(server.System(), v)
      requires 0 < lockTtl && 0 < queueTtl && 0 < acquireTimeout
      requires forall i: nat, step :: step in others(i) ==> !Concerns(step, v)
      modifies server, server.node
      ensures polls <= acquireTimeout / POLL_INTERVAL + 2
      ensures NoTimeLost(others) && r.AcquireTimeout? ==> polls == acquireTimeout / POLL_INTERVAL + 2
      ensures joined == Next(old(server.System()), FairTry(v, lockTtl, queueTtl, true))
      ensures Free(old(server.System()).store) ==> r.Acquired? && polls == 0
      ensures r.Acquired? ==>
                && Won(server.System(), v, lockTtl)
                && |server.clients.grants| <= |old(server.clients.grants)| + |Queue(old(server.System()).store)| + 1
      ensures r.AcquireTimeout? ==> Lost(server.System(), v) && server.node.now > old(server.node.now) + acquireTimeout
    {
      polls := 0;
      Joins(server.System(), v, lockTtl, queueTtl);
      var result := server.TryAcquire(v, lockTtl, queueTtl, true);
      joined := server.System();
      if result == 1 {
        return Acquired, polls, joined;
      }
      ghost var trace := others(0);
      Waits(joined, [], joined, others(0), v);
      assert [] + others(0) == others(0);
      server.Suspend(others(0));
      var start, pause := server.node.now, 1;
      var deadline := start + acquireTimeout;
      while true
        invariant WaitingSince(joined, trace, server.System(), v)
        invariant joined.store.now <= start
        invariant start + POLL_INTERVAL * polls <= server.node.now
        invariant polls > 0 ==> POLL_INTERVAL * (polls - 1) <= acquireTimeout
        invariant NoTimeLost(others) ==> server.node.now == start + POLL_INTERVAL * polls
        decreases deadline + POLL_INTERVAL - server.node.now
      {
        ghost var now := server.System();
        MayStep(joined, trace, now, v);
        result := server.Acquire(v, lockTtl);
        polls := polls + 1;
        if result == 1 {
          PollWins(joined, trace, now, v, lockTtl);
          return Acquired, polls, joined;
        }
        Waits(joined, trace, now, others(pause), v);
        server.Suspend(others(pause));
        trace, now := trace + others(pause), server.System();
        if server.node.now > deadline {
          MayStep(joined, trace, now, v);
          GivesUp(joined, trace, now, v);
          server.Cleanup(v);
          return AcquireTimeout, polls, joined;
        }
        WaitsLonger(joined, trace, now, POLL_INTERVAL, others(pause + 1), v);
        server.Suspend([Tick(POLL_INTERVAL)] + others(pause + 1));
        trace := trace + ([Tick(POLL_INTERVAL)] + others(pause + 1));
        pause := pause + 2;
      }
    }

    /**
      Waits in the queue until granted or out of time. `others(i)` is what happens elsewhere during the
      i-th suspension. While the call waits, the queue passes the lock to no more clients than stood in
      it when the call joined, which is the state `joined`.
     */
    method Lock(config: LockConfig, others: nat -> seq<Step>)
      returns (r: LockResult, polls: nat, ghost joined: Sys)
      requires Inv(server.System()) && Fresh(server.System(), config.value)
      requires forall i: nat, step :: step in others(i) ==> !Concerns(step, config.value)
      modifies this, server, server.node
      ensures value == config.value
      ensures var acquireTimeout := if 0 < config.acquireTimeout then config.acquireTimeout else 10_000;
              && polls <= acquireTimeout / 50 + 2
              && (NoTimeLost(others) && r.AcquireTimeout? ==> polls == acquireTimeout / 50 + 2)
              && (r.AcquireTimeout? ==>
                    Lost(server.System(), value) && server.node.now > old(server.node.now) + acquireTimeout)
      ensures var lockTtl := if 0 < config.lockTtl then config.lockTtl else 30_000;
              r.Acquired? ==>
                && Won(server.System(), value, lockTtl)
                && server.node.lock == Present(value, At(server.node.now + lockTtl))
                && |server.clients.grants| <= |old(server.clients.grants)| + |Queue(old(server.System()).store)| + 1
      ensures value !in Queue(server.System().store)
      ensures Free(old(server.System()).store) ==> r.Acquired? && polls == 0
      ensures var queueTtl := if 0 < config.queueTtl then config.queueTtl else 300_000;
              var queue := Queue(old(server.System()).store);
              !Free(old(server.System()).store) ==>
                joined.store.queue == Present(queue + [value], At(old(server.node.now) + queueTtl))
    {
      value := config.value;
      var lockTtl := OrDefault(config.lockTtl, DEFAULT_LOCK_TTL);
      var queueTtl := OrDefault(config.queueTtl, DEFAULT_QUEUE_TTL);
      var acquireTimeout := OrDefault(config.acquireTimeout, DEFAULT_ACQUIRE_TIMEOUT);
      Joins(server.System(), value, lockTtl, queueTtl);
      hide Next, Inv;
      r, polls, joined := LockWithin(value, lockTtl, queueTtl, acquireTimeout, others);
    }

    /** A failed attempt stays in the queue although nobody waits for it. */
    method TryLock(config: LockConfig) returns (ok: bool)
      requires Inv(server.System()) && Fresh(server.System(), config.value)
      modifies this, server, server.node
      ensures value == config.value && Inv(server.System())
      ensures server.System() == Next(old(server.System()),
                FairTry(value, OrDefault(config.lockTtl, DEFAULT_LOCK_TTL),
                        OrDefault(config.queueTtl, DEFAULT_QUEUE_TTL), false))
      ensures ok == Free(old(server.System()).store)
      ensures var lockTtl := if 0 < config.lockTtl then config.lockTtl else 30_000;
              ok ==>
                && Active(server.System(), value) && value !in Queue(server.System().store)
                && server.node.lock == Present(value, At(server.node.now + lockTtl))
      ensures var queueTtl := if 0 < config.queueTtl then config.queueTtl else 300_000;
              !ok ==>
                && server.node.lock == old(server.node.lock)
                && Queue(server.System().store) == Queue(old(server.System()).store) + [value]
                && server.node.queue == Present(Queue(server.System().store), At(server.node.now + queueTtl))
                && server.System().clients.phase.Keys >= {value} && server.System().clients.phase[value].Abandoned?
    {
      value := config.value;
      var lockTtl := OrDefault(config.lockTtl, DEFAULT_LOCK_TTL);
      var queueTtl := OrDefault(config.queueTtl, DEFAULT_QUEUE_TTL);
      Attempted(server.System(), value, lockTtl, queueTtl, false);
      hide Next, Inv;
      var result := server.TryAcquire(value, lockTtl, queueTtl, false);
      ok := result == 1;
    }

    /** False stands for the lock-not-found error. */
    method Unlock() returns (ok: bool)
      modifies server, server.node
      ensures ok == HeldBy(old(server.System()).store, value)
      ensures Inv(old(server.System())) && Fresh(old(server.System()), value) ==>
                !ok && server.System() == old(server.System())
      ensures server.node.lock == if ok then Absent else old(server.node.lock)
      ensures ok ==> value !in Queue(server.System().store)
      ensures server.System() == Next(old(server.System()), Release(value, true))
    {
      var result := server.ReleaseLock(value, true);
      ok := result != 0;
    }

    method Extend(ttl: int) returns (ok: bool)
      modifies server, server.node
      ensures ok == HeldBy(old(server.System()).store, value)
      ensures Inv(old(server.System())) && Fresh(old(server.System()), value) ==>
                !ok && server.System() == old(server.System())
      ensures ok && 0 < ttl ==> server.node.lock == Present(value, At(server.node.now + ttl))
      ensures server.System() == Next(old(server.System()), Step.Extend(value, ttl))
    {
      var result := server.ExtendLock(value, ttl, true);
      ok := result == 1;
    }

    method GetQueuePosition() returns (position: int)
      ensures position == Position(Queue(server.System().store), value)
    {
      var locked, ttl, length, p := server.node.FairStatus(Some(value));
      position := p;
    }
  }

  lemma {:induction false} PositionOfLast(q: seq<string>, v: string)
    requires v !in q
    ensures Position(q + [v], v) == |q|
  {
    if q != [] {
      assert (q + [v])[1..] == q[1..] + [v];
      PositionOfLast(q[1..], v);
    }
  }
}
