/** The read/write lock handle, on a server whose record of clients follows the protocol. */
module RedisRWLocks {
  import opened Wrappers
  import opened RedisCommands
  import opened RedisScripts
  import opened RWProtocol

  class RedisRWLock {
    const node: RWNode
    var writeValue: string
    ghost var clients: RWClients

    constructor (now: int)
      ensures System() == Initial(now) && fresh(node)
    {
      node := new RWNode(now);
      writeValue := "";
      clients := Initial(now).clients;
    }

    ghost function System(): RWSys
      reads this, node
    {
      RWSys(node.Store(), clients)
    }

    /** The reader gets no token from the server; `reader` is a new name for its lease in the record. */
    method TryRLock(ghost reader: string, ttl: int) returns (ok: bool)
      requires reader !in clients.used
      modifies this, node
      ensures System() == Next(old(System()), ReadTry(reader, ttl))
      ensures ok == !Alive(old(node.writer), node.now)
      ensures ok && 0 < ttl ==> node.readers == Present(ReadCount(old(node.Store())) + 1, At(node.now + ttl))
      ensures writeValue == old(writeValue)
    {
      ghost var after := Next(System(), ReadTry(reader, ttl));
      var result := node.AcquireRead(ttl);
      clients := after.clients;
      ok := result == 1;
    }

    /** False stands for the lock-not-found error: the server counts no reader any more. Anybody may call it. */
    method RUnlock(ghost reader: string) returns (ok: bool)
      modifies this, node
      ensures System() == Next(old(System()), ReadRelease(reader))
      ensures ok == Alive(old(node.readers), node.now)
      ensures ok && 1 <= ReadCount(old(node.Store())) ==> ReadCount(node.Store()) == ReadCount(old(node.Store())) - 1
      ensures ok && node.readers.Present? ==> node.readers.expiry == old(node.readers).expiry
      ensures writeValue == old(writeValue)
    {
      ghost var after := Next(System(), ReadRelease(reader));
      var result := node.ReleaseRead();
      clients := after.clients;
      ok := result != 0;
    }

    /** Stores the value of the attempt even when the attempt fails. */
    method TryWLock(v: string, ttl: int) returns (ok: bool)
      requires v !in clients.used && 0 < ttl
      modifies this, node
      ensures writeValue == v
      ensures System() == Next(old(System()), WriteTry(v, ttl))
      ensures ok == !(Alive(old(node.readers), node.now) || Alive(old(node.writer), node.now))
      ensures node.writer == if ok then Present(v, At(node.now + ttl)) else old(node.writer)
    {
      ghost var after := Next(System(), WriteTry(v, ttl));
      writeValue := v;
      var result := node.AcquireWrite(v, ttl);
      clients := after.clients;
      ok := result == 1;
    }

    /** A handle that has made no attempt yet sends its empty value, which no writer has. */
    method WUnlock() returns (ok: bool)
      modifies this, node
      ensures Inv(old(System())) && writeValue !in old(clients.used) ==> !ok && System() == old(System())
      ensures System() == Next(old(System()), WriteRelease(writeValue))
      ensures ok == (Get(old(node.writer), node.now) == Some(writeValue))
      ensures node.writer == if ok then Absent else old(node.writer)
      ensures writeValue == old(writeValue)
    {
      ghost var after := Next(System(), WriteRelease(writeValue));
      var result := node.ReleaseWrite(writeValue);
      clients := after.clients;
      ok := result != 0;
    }

    /** At least the active readers, in every state a careful run reaches. */
    method GetReadCount() returns (count: int)
      ensures count == ReadCount(node.Store())
      ensures Inv(System()) ==> |ActiveReaders(System())| <= count
    {
      var readCount, writeLocked := node.Status();
      count := readCount;
    }

    /** Exactly whether a writer is active, in every state a careful run reaches. */
    method IsWriteLocked() returns (locked: bool)
      ensures locked == Alive(node.writer, node.now)
      ensures Inv(System()) ==> (locked <==> ActiveWriters(System()) != {})
    {
      var readCount, writeLocked := node.Status();
      locked := writeLocked == 1;
    }
  }
}
