/**
  The lock scripts. `LockStore` and `RWStore` are the keys one lock owns on the server; the functions say
  what a script does to them as a whole. `LockNode` and `RWNode` run the scripts command by command and
  are proved to have exactly that effect.
 */
module RedisScripts {
  import opened Wrappers
  import opened RedisCommands

  // ----- The keys of a simple or fair lock -----

  datatype LockStore = LockStore(now: int, lock: Key<string>, queue: Key<seq<string>>)

  predicate Free(s: LockStore) {
    !Alive(s.lock, s.now)
  }

  predicate HeldBy(s: LockStore, v: string) {
    Get(s.lock, s.now) == Some(v)
  }

  function Queue(s: LockStore): seq<string> {
    Items(s.queue, s.now)
  }

  predicate AtHead(s: LockStore, v: string) {
    Queue(s) != [] && Queue(s)[0] == v
  }

  function Grant(s: LockStore, v: string, ttl: int): LockStore {
    s.(lock := Present(v, At(s.now + ttl)))
  }

  function Enqueue(s: LockStore, v: string, queueTtl: int): LockStore {
    s.(queue := if queueTtl <= 0 then Absent else Present(Queue(s) + [v], At(s.now + queueTtl)))
  }

  function Popped(s: LockStore): LockStore {
    s.(queue := LPop(s.queue, s.now))
  }

  function Purged(s: LockStore, v: string): LockStore {
    s.(queue := LRem(s.queue, s.now, v))
  }

  /** Extending with a time to live that is not positive deletes the lock and still reports success. */
  function Extended(s: LockStore, v: string, ttl: int): LockStore {
    if !HeldBy(s, v) then s
    else if ttl <= 0 then s.(lock := Absent)
    else Grant(s, v, ttl)
  }

  /** Where v stands in the queue, counted from 0; -1 if it does not stand there. */
  function Position(q: seq<string>, v: string): (p: int)
    ensures p == -1 <==> v !in q
    ensures p != -1 ==> 0 <= p < |q| && q[p] == v && forall j :: 0 <= j < p ==> q[j] != v
  {
    if q == [] then -1
    else if q[0] == v then 0
    else
      var p := Position(q[1..], v);
      if p == -1 then -1 else p + 1
  }

  // ----- The keys of a read/write lock -----

  datatype RWStore = RWStore(now: int, readers: Key<int>, writer: Key<string>)

  class LockNode {
    var now: int
    var lock: Key<string>
    var queue: Key<seq<string>>

    constructor (now: int)
      ensures Store() == LockStore(now, Absent, Absent)
    {
      this.now, lock, queue := now, Absent, Absent;
    }

    ghost function Store(): LockStore
      reads this
    {
      LockStore(now, lock, queue)
    }

    method SimpleAcquire(v: string, ttl: int) returns (r: int)
      requires 0 < ttl
      modifies `lock
      ensures r == if Free(old(Store())) then 1 else 0
      ensures Store() == if Free(old(Store())) then Grant(old(Store()), v, ttl) else old(Store())
      ensures lock == if r == 1 then Present(v, At(now + ttl)) else old(lock)
    {
      if !Alive(lock, now) {
        lock := SetEx(v, now, ttl);
        return 1;
      }
      return 0;
    }

    method SimpleRelease(v: string) returns (r: int)
      modifies `lock
      ensures r == if HeldBy(old(Store()), v) then 1 else 0
      ensures Store() == if HeldBy(old(Store()), v) then old(Store()).(lock := Absent) else old(Store())
      ensures r == 1 ==> old(lock).Present? && old(lock).value == v && lock == Absent
    {
      if Get(lock, now) == Some(v) {
        lock := Absent;
        return 1;
      }
      return 0;
    }

    method SimpleExtend(v: string, ttl: int) returns (r: int)
      modifies `lock
      ensures r == if HeldBy(old(Store()), v) then 1 else 0
      ensures Store() == Extended(old(Store()), v, ttl)
      ensures r == 1 ==> (HeldBy(Store(), v) <==> 0 < ttl)
      ensures r == 1 && 0 < ttl ==> lock == Present(v, At(now + ttl))
    {
      if Get(lock, now) == Some(v) {
        lock := Expire(lock, now, ttl);
        return 1;
      }
      return 0;
    }

    method SimpleStatus() returns (found: int, ttl: int)
      ensures found == 1 <==> !Free(Store())
      ensures found == 0 <==> Free(Store())
      ensures Free(Store()) ==> ttl == -1
      ensures !Free(Store()) && lock.expiry.At? ==> 0 <= ttl && now + ttl == lock.expiry.time
    {
      if Alive(lock, now) {
        return 1, TimeToLive(lock, now);
      }
      return 0, -1;
    }

    /**
      The script looks at the queue head and at the lock a second time after it has queued v. That
      second look never grants: the clock has not moved, so a lock that existed still exists.
     */
    method FairTryAcquire(v: string, lockTtl: int, queueTtl: int) returns (r: int)
      requires 0 < lockTtl
      modifies `lock, `queue
      ensures r == if Free(old(Store())) then 1 else -1
      ensures Store() ==
              if Free(old(Store())) then Grant(old(Store()), v, lockTtl)
              else Enqueue(old(Store()), v, queueTtl)
      ensures r == 1 ==> lock == Present(v, At(now + lockTtl)) && queue == old(queue)
      ensures r == -1 ==> lock == old(lock)
      ensures r == -1 && 0 < queueTtl ==> queue == Present(Queue(old(Store())) + [v], At(now + queueTtl))
    {
      if !Alive(lock, now) {
        lock := SetEx(v, now, lockTtl);
        return 1;
      }
      assert [] + [v] == [v];
      queue := RPush(queue, now, v);
      queue := Expire(queue, now, queueTtl);
      var first := LIndex(queue, now, 0);
      if first == Some(v) {
        var currentHolder := Get(lock, now);
        if currentHolder == None {
          // the second grant of the script: nothing reaches it
          assert false;
        }
      }
      return -1;
    }

    method FairAcquire(v: string, lockTtl: int) returns (r: int)
      requires 0 < lockTtl
      modifies `lock, `queue
      ensures r == if !AtHead(old(Store()), v) then 0 else if Free(old(Store())) then 1 else -1
      ensures Store() ==
              if AtHead(old(Store()), v) && Free(old(Store())) then Popped(Grant(old(Store()), v, lockTtl))
              else old(Store())
      ensures r == 1 ==> lock == Present(v, At(now + lockTtl))
      ensures r == 1 ==> Queue(old(Store())) == [v] + Queue(Store())
      ensures r == 1 && queue.Present? ==> queue.expiry == old(queue).expiry
    {
      assert AtHead(Store(), v) ==> queue.value == [v] + queue.value[1..];
      var first := LIndex(queue, now, 0);
      if first != Some(v) {
        return 0;
      }
      var currentHolder := Get(lock, now);
      if currentHolder == None {
        lock := SetEx(v, now, lockTtl);
        queue := LPop(queue, now);
        return 1;
      }
      return -1;
    }

    method FairRelease(v: string) returns (r: int)
      modifies `lock, `queue
      ensures r == if HeldBy(old(Store()), v) then 1 else 0
      ensures Store() ==
              if HeldBy(old(Store()), v) then Purged(old(Store()), v).(lock := Absent) else old(Store())
      ensures r == 1 ==> old(lock).Present? && old(lock).value == v && lock == Absent
      ensures r == 1 ==> multiset(Queue(Store())) == multiset(Queue(old(Store())))[v := 0]
      ensures r == 1 && queue.Present? ==> old(queue).Present? && queue.expiry == old(queue).expiry
    {
      if Get(lock, now) == Some(v) {
        lock := Absent;
        queue := LRem(queue, now, v);
        return 1;
      }
      return 0;
    }

    method FairExtend(v: string, ttl: int) returns (r: int)
      modifies `lock
      ensures r == if HeldBy(old(Store()), v) then 1 else 0
      ensures Store() == Extended(old(Store()), v, ttl)
      ensures r == 1 ==> (HeldBy(Store(), v) <==> 0 < ttl)
      ensures r == 1 && 0 < ttl ==> lock == Present(v, At(now + ttl))
    {
      if Get(lock, now) == Some(v) {
        lock := Expire(lock, now, ttl);
        return 1;
      } else {
        return 0;
      }
    }

    method FairStatus(v: Option<string>) returns (locked: int, ttl: int, length: nat, position: int)
      ensures locked == if Free(Store()) then 0 else 1
      ensures Free(Store()) ==> ttl == -1
      ensures !Free(Store()) && lock.expiry.At? ==> 0 <= ttl && now + ttl == lock.expiry.time
      ensures length == |Queue(Store())|
      ensures v == None ==> position == -1
      ensures v != None ==> position == Position(Queue(Store()), v.value)
    {
      locked := if Alive(lock, now) then 1 else 0;
      ttl := -1;
      if locked == 1 {
        ttl := TimeToLive(lock, now);
      }
      length := |Items(queue, now)|;
      position := -1;
      if v != None {
        var items := Items(queue, now);
        var i := 0;
        while i < |items|
          invariant 0 <= i <= |items|
          invariant forall j :: 0 <= j < i ==> items[j] != v.value
          invariant position == -1
        {
          if items[i] == v.value {
            position := i;
            break;
          }
          i := i + 1;
        }
      }
    }

    method FairCleanup(v: string) returns (removed: nat)
      modifies `queue
      ensures Store() == Purged(old(Store()), v)
      ensures v !in Queue(Store())
      ensures removed == |Queue(old(Store()))| - |Queue(Store())|
      ensures multiset(Queue(Store())) == multiset(Queue(old(Store())))[v := 0]
      ensures queue.Present? ==> old(queue).Present? && queue.expiry == old(queue).expiry
    {
      removed := |Items(queue, now)|;
      queue := LRem(queue, now, v);
      removed := removed - |Items(queue, now)|;
    }
  }

  class RWNode {
    var now: int
    var readers: Key<int>
    var writer: Key<string>

    constructor (now: int)
      ensures Store() == RWStore(now, Absent, Absent)
    {
      this.now, readers, writer := now, Absent, Absent;
    }

    ghost function Store(): RWStore
      reads this
    {
      RWStore(now, readers, writer)
    }

    method AcquireRead(ttl: int) returns (r: int)
      modifies `readers
      ensures r == if Alive(writer, now) then 0 else 1
      ensures Store() == if r == 1 then ReadGrant(old(Store()), ttl) else old(Store())
      ensures r == 1 && 0 < ttl ==> readers == Present(ReadCount(old(Store())) + 1, At(now + ttl))
    {
      if !Alive(writer, now) {
        readers := Incr(readers, now);
        readers := Expire(readers, now, ttl);
        return 1;
      }
      return 0;
    }

    method ReleaseRead() returns (r: int)
      modifies `readers
      ensures r == if Alive(old(readers), now) then 1 else 0
      ensures Store() == ReadRelease(old(Store()))
      ensures r == 1 && 1 <= ReadCount(old(Store())) ==> ReadCount(Store()) == ReadCount(old(Store())) - 1
      ensures r == 1 && readers.Present? ==> readers.expiry == old(readers).expiry
    {
      var count := Get(readers, now);
      if count == None {
        return 0;
      }
      if count.value > 1 {
        readers := Decr(readers, now);
        return 1;
      } else {
        readers := Absent;
        return 1;
      }
    }

    method AcquireWrite(v: string, ttl: int) returns (r: int)
      requires 0 < ttl
      modifies `writer
      ensures r == if Alive(readers, now) || Alive(old(writer), now) then 0 else 1
      ensures Store() == if r == 1 then old(Store()).(writer := Present(v, At(now + ttl))) else old(Store())
      ensures writer == if r == 1 then Present(v, At(now + ttl)) else old(writer)
    {
      if !Alive(readers, now) && !Alive(writer, now) {
        writer := SetEx(v, now, ttl);
        return 1;
      }
      return 0;
    }

    method ReleaseWrite(v: string) returns (r: int)
      modifies `writer
      ensures r == if Get(old(writer), now) == Some(v) then 1 else 0
      ensures Store() == WriteRelease(old(Store()), v)
      ensures r == 1 ==> old(writer).Present? && old(writer).value == v && writer == Absent
    {
      if Get(writer, now) == Some(v) {
        writer := Absent;
        return 1;
      }
      return 0;
    }

    method Status() returns (readCount: int, writeLocked: int)
      ensures readCount == ReadCount(Store())
      ensures writeLocked == if Alive(writer, now) then 1 else 0
    {
      var count := Get(readers, now);
      readCount := if count == None then 0 else count.value;
      writeLocked := if Alive(writer, now) then 1 else 0;
    }
  }

  /** The number of readers the server counts. */
  function ReadCount(s: RWStore): int {
    if Alive(s.readers, s.now) then s.readers.value else 0
  }

  /** One more reader; the deadline of the whole counter becomes that of the newcomer. */
  function ReadGrant(s: RWStore, ttl: int): RWStore {
    s.(readers := if ttl <= 0 then Absent else Present(ReadCount(s) + 1, At(s.now + ttl)))
  }

  function ReadRelease(s: RWStore): RWStore {
    if !Alive(s.readers, s.now) then s
    else if s.readers.value > 1 then s.(readers := s.readers.(value := s.readers.value - 1))
    else s.(readers := Absent)
  }

  function WriteRelease(s: RWStore, v: string): RWStore {
    if Get(s.writer, s.now) == Some(v) then s.(writer := Absent) else s
  }
}
