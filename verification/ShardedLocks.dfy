/** The objects of the sharded lock manager: locks, and the shards that file and recycle them. */
module ShardedLocks {
  import opened LocalLocks
  import opened Wrappers

  /** The zero of the time type, which recycling stores as a lock's deadline. */
  const ZERO_TIME := 0

  /** All there is to know of a lock object at one moment. */
  datatype LockRecord<T> = LockRecord(key: string, state: LockState, refCount: int, shard: LockShard?<T>, data: T)

  /** What recycling leaves: nothing but the data. */
  ghost function Cleared<T>(r: LockRecord<T>): LockRecord<T> {
    LockRecord("", LockState(true, "", 0, ZERO_TIME), 0, null, r.data)
  }

  class ShardedLock<T> {
    var key: string
    var value: string
    var data: T
    var unlocked: bool
    var ttl: int
    var expireAt: int
    var refCount: int
    var shard: LockShard?<T>

    constructor (data: T)
      ensures shard == null && refCount == 0 && key == ""
      ensures State() == LockState(true, "", 0, ZERO_TIME)
      ensures this.data == data
    {
      key, value, this.data, unlocked, ttl, expireAt, refCount, shard := "", "", data, true, 0, ZERO_TIME, 0, null;
    }

    ghost function State(): LockState
      reads this
    {
      LockState(unlocked, value, ttl, expireAt)
    }

    ghost function Record(): LockRecord<T>
      reads this
    {
      LockRecord(key, State(), refCount, shard, data)
    }

    method TryLock(now: int, v: string, lockTtl: int) returns (ok: bool)
      modifies `unlocked, `value, `ttl, `expireAt
      ensures ok == !Held(old(State()), now)
      ensures State() == Tried(old(State()), now, v, lockTtl)
      ensures ok <==> old(unlocked) || now > old(expireAt)
      ensures ok ==> !unlocked && value == v && ttl == lockTtl && expireAt == now + lockTtl
      ensures !ok ==> unchanged(this)
    {
      if !unlocked {
        if now > expireAt {
          unlocked := true;
        } else {
          return false;
        }
      }
      unlocked := false;
      value := v;
      ttl := lockTtl;
      expireAt := now + lockTtl;
      return true;
    }

    /** False stands for the lock-not-found error. */
    method Unlock() returns (ok: bool)
      modifies `unlocked
      ensures ok == !old(unlocked) && unlocked
      ensures State() == Unlocked(old(State()))
    {
      if unlocked {
        return false;
      }
      unlocked := true;
      return true;
    }

    method Extend(now: int, lockTtl: int) returns (ok: bool)
      modifies `ttl, `expireAt
      ensures ok == !unlocked
      ensures ok ==> (!Held(old(State()), now) <==> Expired(old(State()), now))
      ensures State() == Extended(old(State()), now, lockTtl)
      ensures if ok then ttl == lockTtl && expireAt == now + lockTtl else unchanged(this)
    {
      if unlocked {
        return false;
      }
      ttl := lockTtl;
      expireAt := now + lockTtl;
      return true;
    }

    method IsLocked(now: int) returns (locked: bool)
      modifies `unlocked
      ensures locked == Held(old(State()), now)
      ensures State() == Noticed(old(State()), now)
      ensures locked == !unlocked == (!old(unlocked) && now <= old(expireAt))
    {
      if unlocked {
        return false;
      }
      if now > expireAt {
        unlocked := true;
        return false;
      }
      return true;
    }

    /** None stands for the lock-not-found and lock-expired errors. */
    method GetTTL(now: int) returns (remaining: Option<int>)
      modifies `unlocked
      ensures remaining == if Held(old(State()), now) then Some(old(expireAt) - now) else None
      ensures State() == Noticed(old(State()), now)
      ensures remaining.Some? == !unlocked == (!old(unlocked) && now <= old(expireAt))
    {
      if unlocked {
        return None;
      }
      if now > expireAt {
        unlocked := true;
        return None;
      }
      return Some(expireAt - now);
    }
  }

  datatype ShardRecord<T> = ShardRecord(locks: map<string, ShardedLock<T>>, pool: multiset<ShardedLock<T>>)

  /** A shard; its pool hands out any of the objects put into it, or a new one. */
  class LockShard<T> {
    var locks: map<string, ShardedLock<T>>
    var pool: multiset<ShardedLock<T>>

    constructor ()
      ensures locks == map[] && pool == multiset{}
    {
      locks, pool := map[], multiset{};
    }

    ghost function Record(): ShardRecord<T>
      reads this
    {
      ShardRecord(locks, pool)
    }

    method PoolGet(factory: () -> T) returns (l: ShardedLock<T>)
      modifies `pool
      ensures l in old(pool) || fresh(l)
      ensures fresh(l) ==> l.State() == LockState(true, "", 0, ZERO_TIME) && l.data == factory()
      ensures pool == old(pool) - multiset{l}
    {
      if
      case pool != multiset{} =>
        l :| l in pool;
        pool := pool - multiset{l};
      case true =>
        l := new ShardedLock(factory());
    }

    /** Files an object from the pool under a key. Its value and its data stay what they were. */
    method NewLock(key: string, factory: () -> T) returns (l: ShardedLock<T>)
      modifies this, pool
      ensures l in old(pool) || fresh(l)
      ensures locks == old(locks)[key := l] && pool == old(pool) - multiset{l}
      ensures l.key == key && l.unlocked && l.refCount == 1 && l.shard == this
      ensures l in old(pool) ==> l.State() == Unlocked(old(l.State())) && l.data == old(l.data)
      ensures fresh(l) ==> l.State() == LockState(true, "", 0, ZERO_TIME) && l.data == factory()
      ensures forall o :: o in old(pool) && o != l ==> unchanged(o)
    {
      l := PoolGet(factory);
      l.key := key;
      l.unlocked := true;
      l.refCount := 1;
      l.shard := this;
      locks := locks[key := l];
    }

    /** Takes a lock out of the shard, resets everything but its data, and puts it into the pool. */
    method Recycle(l: ShardedLock<T>)
      modifies this, l
      ensures locks == old(locks) - {old(l.key)} && pool == old(pool) + multiset{l}
      ensures l.Record() == Cleared(old(l.Record()))
      ensures l.key == l.value == "" && l.unlocked && l.ttl == l.refCount == 0 && l.expireAt == ZERO_TIME
      ensures l.shard == null && l.data == old(l.data)
    {
      locks := locks - {l.key};
      l.key := "";
      l.value := "";
      l.unlocked := true;
      l.ttl := 0;
      l.expireAt := ZERO_TIME;
      l.refCount := 0;
      l.shard := null;
      pool := pool + multiset{l};
    }
  }

  // ----- The fair lock -----

  datatype FairData = FairData(queue: seq<string>)

  ghost function Fair(l: ShardedLock<FairData>): FairState
    reads l
  {
    FairState(l.State(), l.data.queue)
  }

  /**
    A lock whose lease is over is free, and its holder's entry is gone. The free lock goes to the head of the
    queue, or to anybody if nobody queues; whoever is refused joins the queue.
   */
  method TryFairLock(l: ShardedLock<FairData>, now: int, v: string, lockTtl: int) returns (ok: bool)
    modifies l`unlocked, l`value, l`ttl, l`expireAt, l`data
    ensures ok == MayTake(old(Fair(l)), now, v)
    ensures Fair(l) == FairTried(old(Fair(l)), now, v, lockTtl)
    ensures var lapsed := !old(l.unlocked) && now > old(l.expireAt);
            var queue := if lapsed && old(l.data.queue) != [] then old(l.data.queue)[1..] else old(l.data.queue);
            && (ok <==> (old(l.unlocked) || lapsed) && (queue == [] || queue[0] == v))
            && (ok ==> l.data.queue == if queue == [] then [v] else queue)
            && (!ok ==> l.data.queue == queue + [v] && l.unlocked == (old(l.unlocked) || lapsed))
    ensures ok ==> !l.unlocked && l.value == v && l.ttl == lockTtl && l.expireAt == now + lockTtl
    ensures !ok ==> l.value == old(l.value) && l.ttl == old(l.ttl) && l.expireAt == old(l.expireAt)
  {
    if !l.unlocked {
      if now > l.expireAt {
        l.unlocked := true;
        if |l.data.queue| > 0 {
          l.data := FairData(l.data.queue[1..]);
        }
      } else {
        l.data := FairData(l.data.queue + [v]);
        return false;
      }
    }
    if |l.data.queue| > 0 && l.data.queue[0] != v {
      l.data := FairData(l.data.queue + [v]);
      return false;
    }
    l.unlocked := false;
    l.value := v;
    l.ttl := lockTtl;
    l.expireAt := now + lockTtl;
    if |l.data.queue| == 0 || l.data.queue[0] != v {
      l.data := FairData([v] + l.data.queue);
    }
    return true;
  }

  /** False stands for the lock-not-found error. */
  method UnlockFair(l: ShardedLock<FairData>) returns (ok: bool)
    modifies l`unlocked, l`data
    ensures ok == !old(l.unlocked)
    ensures Fair(l) == if old(l.unlocked) then old(Fair(l)) else FairUnlocked(old(Fair(l)))
    ensures l.unlocked && (ok && old(l.data.queue) != [] ==> old(l.data.queue) == [old(l.data.queue)[0]] + l.data.queue)
  {
    if l.unlocked {
      return false;
    }
    l.unlocked := true;
    if |l.data.queue| > 0 {
      l.data := FairData(l.data.queue[1..]);
    }
    return true;
  }

  method IsLockedFair(l: ShardedLock<FairData>, now: int) returns (locked: bool)
    modifies l`unlocked, l`data
    ensures locked == Held(old(l.State()), now)
    ensures Fair(l) == FairNoticed(old(Fair(l)), now)
    ensures locked == !l.unlocked == (!old(l.unlocked) && now <= old(l.expireAt))
    ensures old(l.unlocked) == l.unlocked ==> unchanged(l)
    ensures old(l.unlocked) != l.unlocked && old(l.data.queue) != [] ==>
              old(l.data.queue) == [old(l.data.queue)[0]] + l.data.queue
  {
    if l.unlocked {
      return false;
    }
    if now > l.expireAt {
      l.unlocked := true;
      if |l.data.queue| > 0 {
        l.data := FairData(l.data.queue[1..]);
      }
      return false;
    }
    return true;
  }

  /** None stands for the lock-not-found and lock-expired errors. */
  method GetTTLFair(l: ShardedLock<FairData>, now: int) returns (remaining: Option<int>)
    modifies l`unlocked, l`data
    ensures remaining == if Held(old(l.State()), now) then Some(old(l.expireAt) - now) else None
    ensures Fair(l) == FairNoticed(old(Fair(l)), now)
    ensures remaining.Some? == !l.unlocked == (!old(l.unlocked) && now <= old(l.expireAt))
    ensures old(l.unlocked) == l.unlocked ==> unchanged(l)
    ensures old(l.unlocked) != l.unlocked && old(l.data.queue) != [] ==>
              old(l.data.queue) == [old(l.data.queue)[0]] + l.data.queue
  {
    if l.unlocked {
      return None;
    }
    if now > l.expireAt {
      l.unlocked := true;
      if |l.data.queue| > 0 {
        l.data := FairData(l.data.queue[1..]);
      }
      return None;
    }
    return Some(l.expireAt - now);
  }

  method GetQueuePosition(l: ShardedLock<FairData>) returns (position: Option<int>)
    ensures position == ReportedPosition(Fair(l))
  {
    var v, queue := l.value, l.data.queue;
    if !l.unlocked && |queue| > 0 && v == queue[0] {
      return Some(0);
    }
    var i := 0;
    while i < |queue|
      invariant 0 <= i <= |queue|
      invariant forall j :: 0 <= j < i ==> queue[j] != v
    {
      if queue[i] == v {
        return Some(i + 1);
      }
      i := i + 1;
    }
    return None;
  }
}
