/**
  Clients of the local simple lock, and the plain map from key to lock that the sharded manager is meant
  to behave like. `Replay` runs any list of client operations on the manager and on the plain map side by
  side: as long as clients keep the handle discipline, nobody can tell the two apart.
 */
module LocalClients {
  import opened Wrappers
  import opened LocalLocks
  import opened ShardedLocks
  import opened ShardedManager

  // ----- The plain map -----

  datatype HandleState = HandleState(key: string, open: bool)

  datatype Plain = Plain(now: int, locks: map<string, LockState>, handles: seq<HandleState>)

  datatype Op =
    | New(key: string)
    | Try(h: nat, v: string, ttl: int)
    | Release(h: nat)
    | Renew(h: nat, ttl: int)
    | Check(h: nat)
    | Query(h: nat)
    | Sweep
    | Advance(d: nat)

  datatype Reply = Opened(h: nat) | Answer(ok: bool) | Remaining(ttl: Option<int>) | Nothing

  function LockOf(p: Plain, key: string): LockState {
    if key in p.locks then p.locks[key] else LockState(true, "", 0, ZERO_TIME)
  }

  function OpenCount(handles: seq<HandleState>, key: string): nat {
    if handles == [] then 0
    else
      var last := handles[|handles| - 1];
      OpenCount(handles[..|handles| - 1], key) + if last.open && last.key == key then 1 else 0
  }

  /** Every lock with a single handle is held by a running lease. */
  ghost predicate SafeToSweep(p: Plain) {
    forall key :: OpenCount(p.handles, key) == 1 ==> Held(LockOf(p, key), p.now)
  }

  /**
    The discipline: a handle is not used after the unlock that gave it back, and no sweep runs while the
    only handle of some lock is idle.
   */
  ghost predicate Allowed(p: Plain, op: Op) {
    match op
    case New(_) => true
    case Advance(_) => true
    case Sweep => SafeToSweep(p)
    case _ => op.h < |p.handles| && p.handles[op.h].open
  }

  ghost function Updated(p: Plain, h: nat, state: LockState): Plain
    requires h < |p.handles|
  {
    p.(locks := p.locks[p.handles[h].key := state])
  }

  /** The plain map has no shards, no pool, no counts, and nothing for a sweep to do. */
  ghost function PlainNext(p: Plain, op: Op): (Plain, Reply)
    requires Allowed(p, op)
  {
    match op
    case New(key) => (p.(handles := p.handles + [HandleState(key, true)]), Opened(|p.handles|))
    case Try(h, v, ttl) =>
      var s := LockOf(p, p.handles[h].key);
      (Updated(p, h, Tried(s, p.now, v, ttl)), Answer(!Held(s, p.now)))
    case Release(h) =>
      var s := LockOf(p, p.handles[h].key);
      if s.unlocked then (p, Answer(false))
      else
        (Updated(p, h, Unlocked(s)).(handles := p.handles[h := p.handles[h].(open := false)]), Answer(true))
    case Renew(h, ttl) =>
      var s := LockOf(p, p.handles[h].key);
      (Updated(p, h, Extended(s, p.now, ttl)), Answer(!s.unlocked))
    case Check(h) =>
      var s := LockOf(p, p.handles[h].key);
      (Updated(p, h, Noticed(s, p.now)), Answer(Held(s, p.now)))
    case Query(h) =>
      var s := LockOf(p, p.handles[h].key);
      (Updated(p, h, Noticed(s, p.now)), Remaining(if Held(s, p.now) then Some(s.expireAt - p.now) else None))
    case Sweep => (p, Nothing)
    case Advance(d) => (p.(now := p.now + d), Nothing)
  }

  // ----- Handles -----

  datatype SimpleData = SimpleData

  type Manager = ShardedLockManager<SimpleData>
  type LockObject = ShardedLock<SimpleData>

  /** A handle: its fields never change once it exists. */
  datatype LocalSimpleLock = LocalSimpleLock(key: string, lock: LockObject, manager: Manager) {
    static method Create(manager: Manager, key: string) returns (handle: LocalSimpleLock)
      requires manager.Valid()
      modifies manager`known, manager`entries, manager`recycled, manager.ShardOf(key), manager.known
      ensures handle.manager == manager && handle.key == key
      ensures manager.Valid() && Handed(old(manager.View()), manager.View(), key, handle.lock)
      ensures manager.known == old(manager.known) + {handle.lock}
      ensures handle.lock in old(manager.known) || fresh(handle.lock)
    {
      var shardedLock := manager.GetLock(key);
      handle := LocalSimpleLock(key, shardedLock, manager);
    }

    method TryLock(now: int, v: string, ttl: int) returns (ok: bool)
      requires manager.Valid() && lock in manager.known
      modifies lock`unlocked, lock`value, lock`ttl, lock`expireAt
      ensures ok == !Held(old(lock.State()), now)
      ensures manager.Valid()
      ensures manager.View() == Restated(old(manager.View()), lock, Tried(old(lock.State()), now, v, ttl))
    {
      ok := lock.TryLock(now, v, ttl);
      manager.StateChanged(lock);
    }

    method Extend(now: int, ttl: int) returns (ok: bool)
      requires manager.Valid() && lock in manager.known
      modifies lock`ttl, lock`expireAt
      ensures ok == !old(lock.unlocked)
      ensures manager.Valid()
      ensures manager.View() == Restated(old(manager.View()), lock, Extended(old(lock.State()), now, ttl))
    {
      ok := lock.Extend(now, ttl);
      manager.StateChanged(lock);
    }

    method IsLocked(now: int) returns (locked: bool)
      requires manager.Valid() && lock in manager.known
      modifies lock`unlocked
      ensures locked == Held(old(lock.State()), now)
      ensures manager.Valid()
      ensures manager.View() == Restated(old(manager.View()), lock, Noticed(old(lock.State()), now))
    {
      locked := lock.IsLocked(now);
      manager.StateChanged(lock);
    }

    method GetTTL(now: int) returns (remaining: Option<int>)
      requires manager.Valid() && lock in manager.known
      modifies lock`unlocked
      ensures remaining == if Held(old(lock.State()), now) then Some(old(lock.expireAt) - now) else None
      ensures manager.Valid()
      ensures manager.View() == Restated(old(manager.View()), lock, Noticed(old(lock.State()), now))
    {
      remaining := lock.GetTTL(now);
      manager.StateChanged(lock);
    }

    /** Unlocks the object, and if that worked gives the handle's reference back. */
    method Unlock() returns (ok: bool)
      requires manager.Valid() && lock in manager.known
      modifies manager`entries, manager`recycled, manager.all, lock
      ensures ok == !old(lock.unlocked)
      ensures manager.Valid() && manager.known == old(manager.known)
      ensures manager.View() ==
              var v := Restated(old(manager.View()), lock, Unlocked(old(lock.State())));
              if ok then Released(v, lock) else v
    {
      ok := lock.Unlock();
      manager.StateChanged(lock);
      if ok {
        manager.ReleaseLock(lock);
      }
    }
  }

  // ----- How the manager represents the plain map -----

  type Catalogue = Catalog<SimpleData>

  /** Free locks are alike, whatever they remember. */
  predicate SameLock(s: LockState, t: LockState) {
    s == t || (s.unlocked && t.unlocked)
  }

  ghost function StateOf(v: Catalogue, key: string): LockState {
    if key in v.entries && v.entries[key] in v.locks then v.locks[v.entries[key]].state
    else LockState(true, "", 0, ZERO_TIME)
  }

  ghost function CountOf(v: Catalogue, key: string): int {
    if key in v.entries && v.entries[key] in v.locks then v.locks[v.entries[key]].refCount else 0
  }

  /** The lock of a key is in the right state, and it counts the open handles. */
  ghost predicate Represented(v: Catalogue, p: Plain, key: string) {
    SameLock(StateOf(v, key), LockOf(p, key)) && CountOf(v, key) == OpenCount(p.handles, key)
  }

  /** An open handle holds the one object its key stands for. */
  ghost predicate HandleLinked(v: Catalogue, handle: LocalSimpleLock, h: HandleState) {
    && handle.key == h.key
    && (h.open ==> h.key in v.entries && v.entries[h.key] == handle.lock)
  }

  ghost predicate Linked(v: Catalogue, handles: seq<LocalSimpleLock>, p: Plain) {
    && |handles| == |p.handles|
    && (forall i :: 0 <= i < |handles| ==> HandleLinked(v, handles[i], p.handles[i]))
    && (forall key :: Represented(v, p, key))
  }

  lemma {:induction false} OpenCountAfterClose(handles: seq<HandleState>, h: nat, key: string)
    requires h < |handles| && handles[h].open
    ensures OpenCount(handles[h := handles[h].(open := false)], key)
         == OpenCount(handles, key) - if handles[h].key == key then 1 else 0
  {
    var n := |handles| - 1;
    var closed := handles[h := handles[h].(open := false)];
    if h == n {
      assert closed[..n] == handles[..n];
    } else {
      assert closed[..n] == handles[..n][h := handles[h].(open := false)];
      OpenCountAfterClose(handles[..n], h, key);
    }
  }

  lemma {:induction false} OpenIsCounted(handles: seq<HandleState>, h: nat)
    requires h < |handles| && handles[h].open
    ensures 1 <= OpenCount(handles, handles[h].key)
  {
    var n := |handles| - 1;
    if h < n {
      OpenIsCounted(handles[..n], h);
    }
  }

  lemma EntryOf(m: Manager, v: Catalogue, key: string)
    requires m.Structured() && m.Consistent(v, null) && key in v.entries
    ensures var l := v.entries[key];
            && l in v.locks && v.locks[l].key == key && 1 <= v.locks[l].refCount
            && v.locks[l].shard != null && v.locks[l].shard in v.shards
  {
    assert Entry(v, key);
  }

  lemma RepresentedAfterNew(m: Manager, v: Catalogue, w: Catalogue, p: Plain, key: string, l: LockObject, k: string)
    requires m.Structured() && m.Consistent(v, null) && Represented(v, p, k) && Handed(v, w, key, l)
    ensures Represented(w, PlainNext(p, New(key)).0, k)
  {
    assert (p.handles + [HandleState(key, true)])[..|p.handles|] == p.handles;
    if k in v.entries {
      EntryOf(m, v, k);
    }
    if key in v.entries {
      EntryOf(m, v, key);
    }
  }

  lemma LinkedAfterNew(m: Manager, v: Catalogue, w: Catalogue, handles: seq<LocalSimpleLock>, p: Plain,
      handle: LocalSimpleLock)
    requires m.Structured() && m.Consistent(v, null) && Linked(v, handles, p)
    requires Handed(v, w, handle.key, handle.lock)
    ensures Linked(w, handles + [handle], PlainNext(p, New(handle.key)).0)
  {
    var q := PlainNext(p, New(handle.key)).0;
    forall key ensures Represented(w, q, key) {
      assert Represented(v, p, key);
      RepresentedAfterNew(m, v, w, p, handle.key, handle.lock, key);
    }
    forall i | 0 <= i < |q.handles| ensures HandleLinked(w, (handles + [handle])[i], q.handles[i]) {
      if i < |handles| {
        assert HandleLinked(v, handles[i], p.handles[i]);
      }
    }
  }

  lemma LinkedAfterRestating(m: Manager, v: Catalogue, handles: seq<LocalSimpleLock>, p: Plain, h: nat,
      s: LockState, t: LockState)
    requires m.Structured() && m.Consistent(v, null) && Linked(v, handles, p)
    requires h < |handles| && p.handles[h].open && SameLock(s, t)
    ensures Linked(Restated(v, handles[h].lock, s), handles, Updated(p, h, t))
  {
    var w, q := Restated(v, handles[h].lock, s), Updated(p, h, t);
    assert HandleLinked(v, handles[h], p.handles[h]);
    EntryOf(m, v, handles[h].key);
    forall key ensures Represented(w, q, key) {
      assert Represented(v, p, key);
      if key in v.entries {
        EntryOf(m, v, key);
      }
    }
    forall i | 0 <= i < |handles| ensures HandleLinked(w, handles[i], q.handles[i]) {
      assert HandleLinked(v, handles[i], p.handles[i]);
    }
  }

  lemma LinkedAfterRelease(m: Manager, v: Catalogue, handles: seq<LocalSimpleLock>, p: Plain, h: nat)
    requires m.Structured() && m.Consistent(v, null) && Linked(v, handles, p)
    requires h < |handles| && p.handles[h].open && handles[h].lock in v.locks
    requires LockOf(p, p.handles[h].key).unlocked
    ensures Linked(Released(v, handles[h].lock), handles, p.(handles := p.handles[h := p.handles[h].(open := false)]))
  {
    var w, q := Released(v, handles[h].lock), p.(handles := p.handles[h := p.handles[h].(open := false)]);
    assert HandleLinked(v, handles[h], p.handles[h]);
    EntryOf(m, v, handles[h].key);
    forall key ensures Represented(w, q, key) {
      assert Represented(v, p, key);
      OpenCountAfterClose(p.handles, h, key);
      if key in v.entries {
        EntryOf(m, v, key);
      }
    }
    forall i | 0 <= i < |handles| ensures HandleLinked(w, handles[i], q.handles[i]) {
      assert HandleLinked(v, handles[i], p.handles[i]);
      if q.handles[i].open && q.handles[i].key == p.handles[h].key {
        assert Represented(w, q, p.handles[h].key);
        OpenIsCounted(q.handles, i);
      }
    }
  }

  lemma LinkedAtAnyTime(v: Catalogue, handles: seq<LocalSimpleLock>, p: Plain, d: nat)
    requires Linked(v, handles, p)
    ensures Linked(v, handles, p.(now := p.now + d))
  {
    var q := p.(now := p.now + d);
    forall key ensures Represented(v, q, key) {
      assert Represented(v, p, key);
    }
  }

  /** A sweep leaves every handle with the one object of its key exactly when it was safe. */
  lemma LinkedAfterSweep(m: Manager, v: Catalogue, w: Catalogue, handles: seq<LocalSimpleLock>, p: Plain,
      gone: seq<LockObject>)
    requires m.Structured() && m.Consistent(v, null) && Linked(v, handles, p) && SweptExactly(v, w, gone)
    requires forall l :: l in v.locks ==> (l in gone <==> m.DueAnywhere(v, p.now, l))
    ensures Linked(w, handles, p) <==> SafeToSweep(p)
  {
    if SafeToSweep(p) {
      forall key | key in v.entries ensures v.entries[key] !in gone {
        EntryOf(m, v, key);
        assert Represented(v, p, key);
      }
      forall key ensures Represented(w, p, key) {
        assert Represented(v, p, key);
        if key in v.entries {
          EntryOf(m, v, key);
        }
      }
      forall i | 0 <= i < |handles| ensures HandleLinked(w, handles[i], p.handles[i]) {
        assert HandleLinked(v, handles[i], p.handles[i]);
      }
    } else {
      var key :| OpenCount(p.handles, key) == 1 && !Held(LockOf(p, key), p.now);
      assert Represented(v, p, key);
      EntryOf(m, v, key);
      assert v.entries[key] in gone;
      assert !Represented(w, p, key);
    }
  }

  // ----- Refinement -----

  ghost predicate IssuedBy(m: Manager, known: set<LockObject>, handles: seq<LocalSimpleLock>) {
    forall i :: 0 <= i < |handles| ==> handles[i].manager == m && handles[i].lock in known
  }

  lemma OneMoreIssued(m: Manager, known: set<LockObject>, handles: seq<LocalSimpleLock>, handle: LocalSimpleLock)
    requires IssuedBy(m, known, handles) && handle.manager == m
    ensures IssuedBy(m, known + {handle.lock}, handles + [handle])
  {
  }

  /** The manager and the handles the clients hold stand for the plain map p. */
  ghost predicate Serves(m: Manager, handles: seq<LocalSimpleLock>, p: Plain)
    reads m, m.all, m.known
  {
    && m.Valid()
    && IssuedBy(m, m.known, handles)
    && Linked(m.View(), handles, p)
  }


  lemma HandleFacts(m: Manager, handles: seq<LocalSimpleLock>, p: Plain, h: nat)
    requires Serves(m, handles, p) && h < |p.handles| && p.handles[h].open
    ensures h < |handles| && handles[h].manager == m && handles[h].lock in m.known
    ensures SameLock(handles[h].lock.State(), LockOf(p, p.handles[h].key))
  {
    assert HandleLinked(m.View(), handles[h], p.handles[h]);
    assert Represented(m.View(), p, handles[h].key);
  }

  method Open(m: Manager, handles: seq<LocalSimpleLock>, ghost p: Plain, key: string)
    returns (handles': seq<LocalSimpleLock>, r: Reply)
    requires Serves(m, handles, p)
    modifies m, m.all, m.known
    ensures Serves(m, handles', PlainNext(p, New(key)).0) && r == PlainNext(p, New(key)).1
    ensures fresh(m.known - old(m.known))
  {
    ghost var v := m.View();
    var handle := LocalSimpleLock.Create(m, key);
    handles', r := handles + [handle], Opened(|handles|);
    OneMoreIssued(m, old(m.known), handles, handle);
    LinkedAfterNew(m, v, m.View(), handles, p, handle);
  }

  method TryLock(m: Manager, handles: seq<LocalSimpleLock>, ghost p: Plain, h: nat, now: int, v: string, ttl: int)
    returns (r: Reply)
    requires Serves(m, handles, p) && Allowed(p, Try(h, v, ttl)) && now == p.now
    modifies m.known
    ensures Serves(m, handles, PlainNext(p, Try(h, v, ttl)).0) && r == PlainNext(p, Try(h, v, ttl)).1
  {
    HandleFacts(m, handles, p, h);
    LinkedAfterRestating(m, m.View(), handles, p, h, Tried(handles[h].lock.State(), now, v, ttl),
                         Tried(LockOf(p, p.handles[h].key), now, v, ttl));
    var ok := handles[h].TryLock(now, v, ttl);
    r := Answer(ok);
  }

  method Extend(m: Manager, handles: seq<LocalSimpleLock>, ghost p: Plain, h: nat, now: int, ttl: int)
    returns (r: Reply)
    requires Serves(m, handles, p) && Allowed(p, Renew(h, ttl)) && now == p.now
    modifies m.known
    ensures Serves(m, handles, PlainNext(p, Renew(h, ttl)).0) && r == PlainNext(p, Renew(h, ttl)).1
  {
    HandleFacts(m, handles, p, h);
    LinkedAfterRestating(m, m.View(), handles, p, h, Extended(handles[h].lock.State(), now, ttl),
                         Extended(LockOf(p, p.handles[h].key), now, ttl));
    var ok := handles[h].Extend(now, ttl);
    r := Answer(ok);
  }

  method IsLocked(m: Manager, handles: seq<LocalSimpleLock>, ghost p: Plain, h: nat, now: int) returns (r: Reply)
    requires Serves(m, handles, p) && Allowed(p, Check(h)) && now == p.now
    modifies m.known
    ensures Serves(m, handles, PlainNext(p, Check(h)).0) && r == PlainNext(p, Check(h)).1
  {
    HandleFacts(m, handles, p, h);
    LinkedAfterRestating(m, m.View(), handles, p, h, Noticed(handles[h].lock.State(), now),
                         Noticed(LockOf(p, p.handles[h].key), now));
    var locked := handles[h].IsLocked(now);
    r := Answer(locked);
  }

  method GetTTL(m: Manager, handles: seq<LocalSimpleLock>, ghost p: Plain, h: nat, now: int) returns (r: Reply)
    requires Serves(m, handles, p) && Allowed(p, Query(h)) && now == p.now
    modifies m.known
    ensures Serves(m, handles, PlainNext(p, Query(h)).0) && r == PlainNext(p, Query(h)).1
  {
    HandleFacts(m, handles, p, h);
    LinkedAfterRestating(m, m.View(), handles, p, h, Noticed(handles[h].lock.State(), now),
                         Noticed(LockOf(p, p.handles[h].key), now));
    var remaining := handles[h].GetTTL(now);
    r := Remaining(remaining);
  }

  lemma LinkedAfterUnlock(m: Manager, v: Catalogue, handles: seq<LocalSimpleLock>, p: Plain, h: nat, s: LockState)
    requires m.Structured() && m.Consistent(v, null) && Linked(v, handles, p)
    requires h < |handles| && p.handles[h].open && handles[h].lock in v.locks
    requires s == v.locks[handles[h].lock].state && SameLock(s, LockOf(p, p.handles[h].key))
    ensures var w := Restated(v, handles[h].lock, Unlocked(s));
            Linked(if s.unlocked then w else Released(w, handles[h].lock), handles, PlainNext(p, Release(h)).0)
  {
    var w := Restated(v, handles[h].lock, Unlocked(s));
    if s.unlocked {
      assert w == v;
    } else {
      var t := LockOf(p, p.handles[h].key);
      LinkedAfterRestating(m, v, handles, p, h, Unlocked(s), Unlocked(t));
      m.RestatingKeepsConsistent(v, handles[h].lock, Unlocked(s));
      LinkedAfterRelease(m, w, handles, Updated(p, h, Unlocked(t)), h);
    }
  }

  method Unlock(m: Manager, handles: seq<LocalSimpleLock>, ghost p: Plain, h: nat) returns (r: Reply)
    requires Serves(m, handles, p) && Allowed(p, Release(h))
    modifies m, m.all, m.known
    ensures Serves(m, handles, PlainNext(p, Release(h)).0) && r == PlainNext(p, Release(h)).1
    ensures m.known == old(m.known)
  {
    HandleFacts(m, handles, p, h);
    LinkedAfterUnlock(m, m.View(), handles, p, h, handles[h].lock.State());
    var ok := handles[h].Unlock();
    r := Answer(ok);
  }

  /** The sweep keeps the clients and the plain map in step exactly when it was safe. */
  method RunSweep(m: Manager, handles: seq<LocalSimpleLock>, ghost p: Plain, now: int)
    requires Serves(m, handles, p) && now == p.now
    modifies m, m.all, m.known
    ensures m.Valid() && m.known == old(m.known)
    ensures Serves(m, handles, p) <==> SafeToSweep(p)
  {
    ghost var v := m.View();
    ghost var gone := m.PerformCleanup(now);
    LinkedAfterSweep(m, v, m.View(), handles, p, gone);
  }

  ghost predicate AllowedRun(p: Plain, ops: seq<Op>)
    decreases |ops|
  {
    ops == [] || (Allowed(p, ops[0]) && AllowedRun(PlainNext(p, ops[0]).0, ops[1..]))
  }

  /** What the plain map answers. */
  ghost function PlainReplies(p: Plain, ops: seq<Op>): seq<Reply>
    requires AllowedRun(p, ops)
    decreases |ops|
  {
    if ops == [] then [] else [PlainNext(p, ops[0]).1] + PlainReplies(PlainNext(p, ops[0]).0, ops[1..])
  }

  method Perform(m: Manager, handles: seq<LocalSimpleLock>, ghost p: Plain, now: int, op: Op)
    returns (handles': seq<LocalSimpleLock>, now': int, r: Reply)
    requires Serves(m, handles, p) && Allowed(p, op) && now == p.now
    modifies m, m.all, m.known
    ensures Serves(m, handles', PlainNext(p, op).0) && r == PlainNext(p, op).1 && now' == PlainNext(p, op).0.now
    ensures fresh(m.known - old(m.known))
  {
    handles', now', r := handles, now, Nothing;
    match op
    case New(key) => handles', r := Open(m, handles, p, key);
    case Try(h, v, ttl) => r := TryLock(m, handles, p, h, now, v, ttl);
    case Release(h) => r := Unlock(m, handles, p, h);
    case Renew(h, ttl) => r := Extend(m, handles, p, h, now, ttl);
    case Check(h) => r := IsLocked(m, handles, p, h, now);
    case Query(h) => r := GetTTL(m, handles, p, h, now);
    case Sweep => RunSweep(m, handles, p, now);
    case Advance(d) =>
      LinkedAtAnyTime(m.View(), handles, p, d);
      now' := now + d;
  }

  /** As long as clients are disciplined, the manager answers as the plain map it stands for. */
  method ReplayFrom(m: Manager, handles: seq<LocalSimpleLock>, ghost p: Plain, start: int, ops: seq<Op>)
    returns (replies: seq<Reply>)
    requires Serves(m, handles, p) && start == p.now && AllowedRun(p, ops)
    modifies m, m.all, m.known
    ensures m.Valid() && replies == PlainReplies(p, ops)
  {
    hide Linked, IssuedBy, Allowed, PlainNext;
    var current, now := handles, start;
    ghost var q := p;
    replies := [];
    for i := 0 to |ops|
      invariant Serves(m, current, q) && now == q.now && AllowedRun(q, ops[i..])
      invariant fresh(m.known - old(m.known))
      invariant replies + PlainReplies(q, ops[i..]) == PlainReplies(p, ops)
    {
      var r;
      current, now, r := Perform(m, current, q, now, ops[i]);
      assert ops[i..][1..] == ops[i + 1..];
      replies := replies + [r];
      q := PlainNext(q, ops[i]).0;
    }
  }

  /**
    The refinement: started empty, the sharded manager with its shards, pools, counts and sweeps answers
    every allowed list of operations as the plain map does.
   */
  method Replay(m: Manager, start: int, ops: seq<Op>) returns (replies: seq<Reply>)
    requires m.Valid() && m.entries == map[]
    requires AllowedRun(Plain(start, map[], []), ops)
    modifies m, m.all, m.known
    ensures m.Valid() && replies == PlainReplies(Plain(start, map[], []), ops)
  {
    replies := ReplayFrom(m, [], Plain(start, map[], []), start, ops);
  }

  // ----- What an unsafe sweep does -----

  /** The handle is open, is the only one of its key, and no lease runs. */
  ghost predicate IdleAlone(p: Plain, h: nat) {
    && h < |p.handles| && p.handles[h].open
    && OpenCount(p.handles, p.handles[h].key) == 1
    && !Held(LockOf(p, p.handles[h].key), p.now)
  }

  lemma {:induction false} CountedIsOpen(handles: seq<HandleState>, key: string) returns (h: nat)
    requires 1 <= OpenCount(handles, key)
    ensures h < |handles| && handles[h].open && handles[h].key == key
  {
    h := |handles| - 1;
    if !(handles[h].open && handles[h].key == key) {
      h := CountedIsOpen(handles[..h], key);
    }
  }

  lemma SafeToSweepExactly(p: Plain)
    ensures SafeToSweep(p) <==> forall h: nat :: !IdleAlone(p, h)
  {
    if !SafeToSweep(p) {
      var key :| OpenCount(p.handles, key) == 1 && !Held(LockOf(p, key), p.now);
      var h := CountedIsOpen(p.handles, key);
      assert IdleAlone(p, h);
    }
  }

  /** After a safe sweep nobody can tell that it happened. */
  method ReplayAfterSweep(m: Manager, handles: seq<LocalSimpleLock>, ghost p: Plain, now: int, ops: seq<Op>)
    returns (replies: seq<Reply>)
    requires Serves(m, handles, p) && now == p.now && SafeToSweep(p) && AllowedRun(p, ops)
    modifies m, m.all, m.known
    ensures m.Valid() && replies == PlainReplies(p, ops)
  {
    RunSweep(m, handles, p, now);
    replies := ReplayFrom(m, handles, p, now, ops);
  }

  /** What happens in `GrantedTwice` on the plain map. */
  ghost function Contest(p: Plain, h: nat, v: string, ttl: nat, w: string, wttl: int): seq<Op>
    requires h < |p.handles|
  {
    [Try(h, v, ttl), New(p.handles[h].key), Try(|p.handles|, w, wttl)]
  }

  lemma ContestRefused(p: Plain, h: nat, v: string, ttl: nat, w: string, wttl: int)
    requires h < |p.handles| && p.handles[h].open
    ensures var ops := Contest(p, h, v, ttl, w, wttl);
            && AllowedRun(p, ops)
            && PlainReplies(p, ops) ==
               [Answer(!Held(LockOf(p, p.handles[h].key), p.now)), Opened(|p.handles|), Answer(false)]
  {
    var ops := Contest(p, h, v, ttl, w, wttl);
    var q, rest := PlainNext(p, ops[0]).0, ops[1..];
    var t, last := PlainNext(q, rest[0]).0, rest[1..];
    assert rest == [ops[1], ops[2]] && last == [ops[2]] && last[1..] == [];
    assert Held(LockOf(t, p.handles[h].key), t.now);
    assert AllowedRun(t, last) && AllowedRun(q, rest);
    assert PlainReplies(t, last) == [Answer(false)];
    assert PlainReplies(q, rest) == [Opened(|p.handles|), Answer(false)];
  }

  lemma SweptExactlyIfIdle(m: Manager, handles: seq<LocalSimpleLock>, p: Plain, h: nat)
    requires Serves(m, handles, p) && h < |p.handles| && p.handles[h].open
    ensures h < |handles| && handles[h].manager == m && handles[h].lock in m.known
    ensures var v, key, l := m.View(), p.handles[h].key, handles[h].lock;
            && handles[h].key == key && key in v.entries && v.entries[key] == l
            && SameLock(v.locks[l].state, LockOf(p, key))
            && (m.DueAnywhere(v, p.now, l) <==> IdleAlone(p, h))
  {
    var v, key := m.View(), p.handles[h].key;
    assert HandleLinked(v, handles[h], p.handles[h]);
    assert Represented(v, p, key);
    OpenIsCounted(p.handles, h);
    EntryOf(m, v, key);
  }

  /** A new handle is granted the lock exactly if its key has no entry or an entry that is not held. */
  method TryNewHandle(m: Manager, key: string, now: int, w: string, wttl: int) returns (ok: bool)
    requires m.Valid()
    modifies m, m.all, m.known
    ensures ok <==> !Held(old(StateOf(m.View(), key)), now)
  {
    ghost var v := m.View();
    if key in v.entries {
      EntryOf(m, v, key);
    }
    var handle := LocalSimpleLock.Create(m, key);
    assert m.View().locks[handle.lock] == handle.lock.Record();
    ok := handle.TryLock(now, w, wttl);
  }

  lemma SweptEntry(m: Manager, v: Catalogue, w: Catalogue, gone: seq<LockObject>, key: string, now: int)
    requires m.Structured() && m.Consistent(v, null) && SweptExactly(v, w, gone) && key in v.entries
    requires forall o :: o in v.locks ==> (o in gone <==> m.DueAnywhere(v, now, o))
    ensures var l := v.entries[key];
            && l in v.locks && l in w.locks
            && if m.DueAnywhere(v, now, l) then key !in w.entries && w.locks[l].state.unlocked
               else key in w.entries && w.entries[key] == l && w.locks[l] == v.locks[l]
  {
    EntryOf(m, v, key);
  }

  /** The key of a swept lock has no entry; a lock that is not swept is still there, in the state it was in. */
  method SweepBeside(m: Manager, key: string, l: LockObject, now: int)
    requires m.Valid() && key in m.entries && m.entries[key] == l
    modifies m`entries, m`recycled, m.all, m.known
    ensures m.Valid() && m.known == old(m.known) && l in m.known
    ensures if old(m.DueAnywhere(m.View(), now, l)) then key !in m.entries && l.unlocked
            else key in m.entries && m.entries[key] == l && l.State() == old(l.State())
  {
    ghost var before := m.View();
    EntryOf(m, before, key);
    assert before.locks[l] == l.Record();
    ghost var gone := m.PerformCleanup(now);
    SweptEntry(m, before, m.View(), gone, key, now);
    hide ShardedManager.SweptExactly;
    assert m.View().locks[l] == l.Record();
  }

  method TryAfterSweep(m: Manager, handle: LocalSimpleLock, now: int, v: string, ttl: nat) returns (ok: bool)
    requires m.Valid() && handle.manager == m && handle.key in m.entries && m.entries[handle.key] == handle.lock
    modifies m`entries, m`recycled, m.all, m.known
    ensures m.Valid() && m.known == old(m.known)
    ensures var l := handle.lock;
            if old(m.DueAnywhere(m.View(), now, l)) then ok && handle.key !in m.entries
            else
              && ok == !Held(old(l.State()), now)
              && handle.key in m.entries && m.entries[handle.key] == l && Held(l.State(), now)
  {
    SweepBeside(m, handle.key, handle.lock, now);
    ghost var swept := m.View();
    ok := handle.TryLock(now, v, ttl);
    assert m.View().locks[handle.lock] == handle.lock.Record();
    assert m.entries == swept.entries;
  }

  /**
    A sweep, an attempt through handle h, a new handle for its key, and an attempt through that one, at the
    same moment. Both attempts succeed, and two clients hold one key, exactly if h was idle and alone; the
    plain map always refuses the second.
   */
  method GrantedTwice(m: Manager, handles: seq<LocalSimpleLock>, ghost p: Plain, h: nat, now: int,
      v: string, ttl: nat, w: string, wttl: int)
    returns (first: bool, second: bool)
    requires Serves(m, handles, p) && now == p.now && h < |p.handles| && p.handles[h].open
    modifies m, m.all, m.known
    ensures AllowedRun(p, Contest(p, h, v, ttl, w, wttl))
    ensures PlainReplies(p, Contest(p, h, v, ttl, w, wttl)) == [Answer(first), Opened(|p.handles|), Answer(false)]
    ensures second <==> IdleAlone(p, h)
    ensures second ==> first
  {
    ContestRefused(p, h, v, ttl, w, wttl);
    SweptExactlyIfIdle(m, handles, p, h);
    HandleFacts(m, handles, p, h);
    first := TryAfterSweep(m, handles[h], now, v, ttl);
    assert m.View().locks[handles[h].lock] == handles[h].lock.Record();
    second := TryNewHandle(m, handles[h].key, now, w, wttl);
  }

  lemma UnusedIsIdle(now: int)
    ensures IdleAlone(PlainNext(Plain(now, map[], []), New("key")).0, 0)
  {
    var p := PlainNext(Plain(now, map[], []), New("key")).0;
    assert p.handles == [HandleState("key", true)] && p.handles[..0] == [];
    assert "key" !in p.locks;
  }

  /** The smallest case: a manager, one handle that has not been used yet, and a sweep. */
  method UnusedHandleSwept(m: Manager, now: int, v: string, w: string, ttl: nat) returns (first: bool, second: bool)
    requires m.Valid() && m.entries == map[]
    modifies m, m.all, m.known
    ensures first && second
  {
    ghost var p := Plain(now, map[], []);
    var handles, _ := Open(m, [], p, "key");
    ghost var q := PlainNext(p, New("key")).0;
    UnusedIsIdle(now);
    first, second := GrantedTwice(m, handles, q, 0, now, v, ttl, w, ttl);
  }

  /**
    The plain map excludes: while a lease runs, no attempt on its key succeeds, through any handle; and what
    clients do with one key never touches the lock of another.
   */
  lemma PlainExcludes(p: Plain, op: Op, key: string)
    requires Allowed(p, op)
    ensures op.Try? && p.handles[op.h].key == key && Held(LockOf(p, key), p.now) ==>
              PlainNext(p, op) == (Updated(p, op.h, LockOf(p, key)), Answer(false))
    ensures (op.Try? || op.Release? || op.Renew? || op.Check? || op.Query?) && p.handles[op.h].key != key ==>
              LockOf(PlainNext(p, op).0, key) == LockOf(p, key)
    ensures op.New? || op.Sweep? || op.Advance? ==> LockOf(PlainNext(p, op).0, key) == LockOf(p, key)
  {
  }

  // ----- Exclusion over runs -----

  /** Where the plain map has got to; it stops at the first operation that is not allowed. */
  ghost function PlainAfter(p: Plain, ops: seq<Op>): Plain
    decreases |ops|
  {
    if ops == [] || !Allowed(p, ops[0]) then p else PlainAfter(PlainNext(p, ops[0]).0, ops[1..])
  }

  ghost predicate TryOn(p: Plain, op: Op, key: string) {
    op.Try? && op.h < |p.handles| && p.handles[op.h].key == key
  }

  ghost predicate ReleaseOn(p: Plain, op: Op, key: string) {
    op.Release? && op.h < |p.handles| && p.handles[op.h].open && p.handles[op.h].key == key
  }

  lemma {:induction false} ReplyAt(p: Plain, ops: seq<Op>, k: nat)
    requires AllowedRun(p, ops) && k < |ops|
    ensures |PlainReplies(p, ops)| == |ops|
    ensures var q := PlainAfter(p, ops[..k]);
            && Allowed(q, ops[k])
            && PlainReplies(p, ops)[k] == PlainNext(q, ops[k]).1
            && PlainAfter(p, ops[..k + 1]) == PlainNext(q, ops[k]).0
    decreases |ops|
  {
    var next, rest := PlainNext(p, ops[0]).0, ops[1..];
    if k > 0 {
      assert ops[..k][1..] == rest[..k - 1] && ops[..k + 1][1..] == rest[..k];
      ReplyAt(next, rest, k - 1);
    } else if rest != [] {
      ReplyAt(next, rest, 0);
    }
    assert ops[..1][1..] == [];
  }

  /** At the k-th moment the lease on the key has run out, or the k-th operation gives the lock back. */
  ghost predicate LeaseEnds(p: Plain, ops: seq<Op>, k: nat, key: string)
    requires k < |ops| && AllowedRun(p, ops)
  {
    var q := PlainAfter(p, ops[..k]);
    Expired(LockOf(q, key), q.now) || (ReleaseOn(q, ops[k], key) && PlainNext(q, ops[k]).1 == Answer(true))
  }

  lemma HeldUntilItEnds(p: Plain, ops: seq<Op>, k: nat, key: string)
    requires k + 1 < |ops| && AllowedRun(p, ops)
    requires var q := PlainAfter(p, ops[..k]); Held(LockOf(q, key), q.now)
    requires !LeaseEnds(p, ops, k, key) && !LeaseEnds(p, ops, k + 1, key)
    ensures var t := PlainAfter(p, ops[..k + 1]); Held(LockOf(t, key), t.now)
  {
    ReplyAt(p, ops, k);
    PlainExcludes(PlainAfter(p, ops[..k]), ops[k], key);
  }

  lemma {:induction false} HeldBetween(p: Plain, ops: seq<Op>, i: nat, j: nat, key: string)
    requires i < j < |ops| && AllowedRun(p, ops)
    requires TryOn(PlainAfter(p, ops[..i]), ops[i], key)
    requires |PlainReplies(p, ops)| == |ops| && PlainReplies(p, ops)[i] == Answer(true)
    requires forall k | i < k <= j :: !LeaseEnds(p, ops, k, key)
    ensures var q := PlainAfter(p, ops[..j]); Held(LockOf(q, key), q.now)
  {
    assert !LeaseEnds(p, ops, j, key);
    if j == i + 1 {
      ReplyAt(p, ops, i);
    } else {
      HeldBetween(p, ops, i, j - 1, key);
      HeldUntilItEnds(p, ops, j - 1, key);
    }
  }

  /**
    Between two attempts on one key that both succeed, through whatever handles, the lease of the first
    has run out or the lock has been given back.
   */
  lemma ExclusionOverRuns(p: Plain, ops: seq<Op>, i: nat, j: nat, key: string)
    requires i < j < |ops| && AllowedRun(p, ops)
    requires TryOn(PlainAfter(p, ops[..i]), ops[i], key) && TryOn(PlainAfter(p, ops[..j]), ops[j], key)
    requires |PlainReplies(p, ops)| == |ops|
    requires PlainReplies(p, ops)[i] == PlainReplies(p, ops)[j] == Answer(true)
    ensures exists k | i < k <= j :: LeaseEnds(p, ops, k, key)
  {
    ReplyAt(p, ops, j);
    if forall k | i < k <= j :: !LeaseEnds(p, ops, k, key) {
      HeldBetween(p, ops, i, j, key);
    }
  }

  /** The time that passes in a list of operations. */
  function Elapsed(ops: seq<Op>): nat {
    if ops == [] then 0
    else
      var last := ops[|ops| - 1];
      Elapsed(ops[..|ops| - 1]) + if last.Advance? then last.d else 0
  }

  ghost predicate EndsLease(p: Plain, op: Op, key: string) {
    (op.Release? || op.Renew?) && op.h < |p.handles| && p.handles[op.h].key == key
  }

  lemma {:induction false} AllowedUpTo(p: Plain, ops: seq<Op>, k: nat)
    requires AllowedRun(p, ops) && k <= |ops|
    ensures AllowedRun(p, ops[..k])
    decreases |ops|
  {
    if k > 0 {
      assert ops[..k][1..] == ops[1..][..k - 1];
      AllowedUpTo(PlainNext(p, ops[0]).0, ops[1..], k - 1);
    }
  }

  lemma PlainKeepsLease(p: Plain, op: Op, key: string)
    requires Allowed(p, op) && !EndsLease(p, op, key)
    ensures var t := PlainNext(p, op).0;
            && t.now == p.now + (if op.Advance? then op.d else 0)
            && (Held(LockOf(p, key), p.now) ==> LockOf(t, key) == LockOf(p, key))
            && (!Held(LockOf(p, key), p.now) && !op.Try? ==> !Held(LockOf(t, key), t.now))
  {
    PlainExcludes(p, op, key);
  }

  /**
    An attempt on a lock that is not held succeeds. As long as no handle of its key releases or renews it,
    the lease runs for exactly its time to live, whatever happens to other keys.
   */
  lemma PlainLeaseLasts(p: Plain, h: nat, v: string, ttl: nat, ops: seq<Op>, key: string)
    requires Allowed(p, Try(h, v, ttl)) && p.handles[h].key == key && !Held(LockOf(p, key), p.now)
    requires AllowedRun(PlainNext(p, Try(h, v, ttl)).0, ops)
    requires forall k | 0 <= k < |ops| ::
               !EndsLease(PlainAfter(PlainNext(p, Try(h, v, ttl)).0, ops[..k]), ops[k], key)
    ensures PlainNext(p, Try(h, v, ttl)).1 == Answer(true)
    ensures var t := PlainAfter(PlainNext(p, Try(h, v, ttl)).0, ops);
            && t.now == p.now + Elapsed(ops)
            && (Elapsed(ops) <= ttl ==> LockOf(t, key) == LockState(false, v, ttl, p.now + ttl))
            && (ttl < Elapsed(ops) && (forall op <- ops :: !op.Try?) ==> !Held(LockOf(t, key), t.now))
  {
    var q := PlainNext(p, Try(h, v, ttl)).0;
    assert LockOf(q, key) == LockState(false, v, ttl, p.now + ttl) && q.now == p.now;
    LeaseRunsOut(q, ops, key);
  }

  lemma {:induction false} LeaseRunsOut(q: Plain, ops: seq<Op>, key: string)
    requires AllowedRun(q, ops) && Held(LockOf(q, key), q.now)
    requires forall k | 0 <= k < |ops| :: !EndsLease(PlainAfter(q, ops[..k]), ops[k], key)
    ensures var t := PlainAfter(q, ops);
            && t.now == q.now + Elapsed(ops)
            && (t.now <= LockOf(q, key).expireAt ==> LockOf(t, key) == LockOf(q, key))
            && (LockOf(q, key).expireAt < t.now && (forall op <- ops :: !op.Try?) ==> !Held(LockOf(t, key), t.now))
  {
    if ops != [] {
      var before, last := ops[..|ops| - 1], ops[|ops| - 1];
      assert forall k | 0 <= k < |before| :: before[..k] == ops[..k] && before[k] == ops[k];
      AllowedUpTo(q, ops, |before|);
      LeaseRunsOut(q, before, key);
      ReplyAt(q, ops, |before|);
      assert ops[..|before| + 1] == ops && last in ops && forall op <- before :: op in ops;
      hide PlainNext, Allowed;
      PlainKeepsLease(PlainAfter(q, before), last, key);
    }
  }
}
