/**
  The sharded lock manager. Each shard is a map guarded by a mutex. Getting a lock, and sweeping one shard,
  hold it from beginning to end and are atomic steps; the decrement and the clean-up of `ReleaseLock`, and
  the sweeps of all shards one after the other, are taken as one step each.
 */
module ShardedManager {
  import opened LocalLocks
  import opened ShardIndex
  import opened ShardedLocks

  /**
    The manager as a value: the plain map the shards stand for, the objects waiting to be used again with
    the shard whose pool they are in, every lock object ever handed out, and the shards.
   */
  datatype Catalog<T> = Catalog(
    entries: map<string, ShardedLock<T>>,
    recycled: map<ShardedLock<T>, LockShard<T>>,
    locks: map<ShardedLock<T>, LockRecord<T>>,
    shards: map<LockShard<T>, ShardRecord<T>>)

  /** l, drawn from the pool of its shard or new, has become the entry for key, with record r. */
  ghost function Added<T>(v: Catalog<T>, key: string, l: ShardedLock<T>, r: LockRecord<T>): Catalog<T>
    requires r.shard in v.shards
  {
    var s: LockShard<T> := r.shard;
    Catalog(v.entries[key := l], v.recycled - {l}, v.locks[l := r],
            v.shards[s := ShardRecord(v.shards[s].locks[key := l], v.shards[s].pool - multiset{l})])
  }

  ghost function Recounted<T>(v: Catalog<T>, l: ShardedLock<T>, d: int): Catalog<T> {
    if l !in v.locks then v else v.(locks := v.locks[l := v.locks[l].(refCount := v.locks[l].refCount + d)])
  }

  ghost function Restated<T>(v: Catalog<T>, l: ShardedLock<T>, state: LockState): Catalog<T> {
    if l !in v.locks then v else v.(locks := v.locks[l := v.locks[l].(state := state)])
  }

  ghost predicate Entry<T>(v: Catalog<T>, key: string) {
    key in v.entries
  }

  ghost predicate InShard<T>(v: Catalog<T>, l: ShardedLock<T>) {
    l in v.locks && v.locks[l].shard != null
  }

  ghost predicate FiledIn<T>(v: Catalog<T>, s: LockShard<T>, key: string) {
    s in v.shards && key in v.shards[s].locks
  }

  ghost predicate PooledIn<T>(v: Catalog<T>, s: LockShard<T>, l: ShardedLock<T>) {
    s in v.shards && l in v.shards[s].pool
  }

  /** l is no entry any more; it has been cleared and waits in the pool of the shard it was in. */
  ghost function Dropped<T>(v: Catalog<T>, l: ShardedLock<T>): Catalog<T> {
    if !(InShard(v, l) && v.locks[l].shard in v.shards) then v else
    var key, s: LockShard<T> := v.locks[l].key, v.locks[l].shard;
    Catalog(v.entries - {key}, v.recycled[l := s], v.locks[l := Cleared(v.locks[l])],
            v.shards[s := ShardRecord(v.shards[s].locks - {key}, v.shards[s].pool + multiset{l})])
  }

  /** What the sweep looks for: free or expired, and referenced at most once. */
  ghost predicate Due<T>(r: LockRecord<T>, now: int) {
    !Held(r.state, now) && r.refCount <= 1
  }

  /** The effect of giving back a reference to l; the last one takes the entry with it. */
  ghost function Released<T>(v: Catalog<T>, l: ShardedLock<T>): Catalog<T>
    requires l in v.locks
  {
    var w := Recounted(v, l, -1);
    if v.locks[l].shard != null && v.locks[l].refCount == 1 then Dropped(w, l) else w
  }

  /** The effect of handing out l for a key: one more reference to its entry, or a new entry, free. */
  ghost predicate Handed<T>(before: Catalog<T>, after: Catalog<T>, key: string, l: ShardedLock<T>) {
    if key in before.entries then l == before.entries[key] && after == Recounted(before, l, 1)
    else
      && l in after.locks && l !in before.entries.Values
      && var r := after.locks[l];
         && r.key == key && r.state.unlocked && r.refCount == 1 && r.shard in before.shards
         && after == Added(before, key, l, r)
  }

  /** From v to w the objects in swept were cleared and recycled, and nothing else happened. */
  ghost predicate SweptExactly<T>(v: Catalog<T>, w: Catalog<T>, swept: seq<ShardedLock<T>>) {
    && (forall k :: k in w.entries <==> k in v.entries && v.entries[k] !in swept)
    && (forall k :: k in w.entries ==> w.entries[k] == v.entries[k])
    && (forall l :: l in w.recycled ==> l in v.recycled || l in swept)
    && (forall l :: l in v.recycled ==> l in w.recycled && w.recycled[l] == v.recycled[l])
    && (forall l :: l in swept ==> l in v.locks && l in w.recycled)
    && w.locks.Keys == v.locks.Keys
    && (forall l :: l in v.locks ==> w.locks[l] == if l in swept then Cleared(v.locks[l]) else v.locks[l])
  }

  class ShardedLockManager<T> {
    const shards: seq<LockShard<T>>
    const shardCount: uint32
    const shardMask: nat
    const hash: string -> uint32
    const factory: () -> T

    /** The shards as a set, and the index of the shard each key belongs to. */
    ghost const all: set<LockShard<T>>
    ghost const home: string -> nat

    ghost var known: set<ShardedLock<T>>
    ghost var entries: map<string, ShardedLock<T>>
    ghost var recycled: map<ShardedLock<T>, LockShard<T>>

    ghost function View(): Catalog<T>
      reads this, all, known
    {
      Catalog(entries, recycled, map l | l in known :: l.Record(), map s | s in all :: s.Record())
    }

    ghost predicate Structured() {
      && 1 <= shardCount && |shards| == shardCount && shardMask == shardCount - 1
      && (exists k: nat :: Pow2(k) == shardCount)
      && (forall key {:trigger hash(key)} :: home(key) == hash(key) % shardCount)
      && (forall key :: home(key) < |shards|)
      && (forall i :: 0 <= i < |shards| ==> shards[i] in all)
    }

    ghost function ShardOf(key: string): (s: LockShard<T>)
      requires Structured()
      ensures s in all
    {
      shards[home(key)]
    }

    /**
      A lock object is an entry, under its own key, exactly when its shard is set, exactly when it is
      referenced; a recycled object is no entry. Only the object `but`, if any, may be an entry whose last
      reference is just gone.
     */
    ghost predicate Referenced(v: Catalog<T>, but: ShardedLock?<T>)
      requires Structured()
    {
      && (forall k {:trigger Entry(v, k)} :: Entry(v, k) ==>
            && InShard(v, v.entries[k])
            && v.locks[v.entries[k]].key == k && v.locks[v.entries[k]].shard == ShardOf(k)
            && (v.entries[k] == but || 1 <= v.locks[v.entries[k]].refCount))
      && (forall l {:trigger InShard(v, l)} :: l in v.locks && InShard(v, l) ==>
            v.locks[l].key in v.entries && v.entries[v.locks[l].key] == l)
      && (forall l :: l in v.locks && v.locks[l].shard == null ==> v.locks[l].refCount <= 0)
      && (forall l :: l in v.recycled ==> l in v.locks && v.locks[l].shard == null)
    }

    /** The shards together file exactly the entries, each in the shard its key hashes to. */
    ghost predicate Filed(v: Catalog<T>)
      requires Structured()
    {
      && (forall k {:trigger Entry(v, k)} :: Entry(v, k) ==>
            FiledIn(v, ShardOf(k), k) && v.shards[ShardOf(k)].locks[k] == v.entries[k])
      && (forall s, k {:trigger FiledIn(v, s, k)} :: s in v.shards && FiledIn(v, s, k) ==>
            k in v.entries && s == ShardOf(k))
    }

    /** The pools together hold exactly the recycled objects, each in one pool, once. */
    ghost predicate Pooled(v: Catalog<T>) {
      && (forall s, l {:trigger PooledIn(v, s, l)} :: s in v.shards && l in v.shards[s].pool && PooledIn(v, s, l) ==>
            l in v.recycled && v.recycled[l] == s && v.shards[s].pool[l] == 1)
      && (forall l :: l in v.recycled ==> PooledIn(v, v.recycled[l], l))
    }

    ghost predicate Consistent(v: Catalog<T>, but: ShardedLock?<T>)
      requires Structured()
    {
      Referenced(v, but) && Filed(v) && Pooled(v) && v.shards.Keys == all
    }

    ghost predicate Valid()
      reads this, all, known
    {
      Structured() && Consistent(View(), null)
    }

    lemma EmptyIsConsistent(v: Catalog<T>)
      requires Structured() && v.entries == map[] && v.recycled == map[] && v.locks == map[] && v.shards.Keys == all
      requires forall s :: s in v.shards ==> v.shards[s] == ShardRecord(map[], multiset{})
      ensures Consistent(v, null)
    {
    }

    static method MakeShards(count: nat) returns (made: seq<LockShard<T>>)
      ensures |made| == count && fresh(made)
      ensures forall i :: 0 <= i < count ==> made[i].Record() == ShardRecord(map[], multiset{})
      ensures forall i, j :: 0 <= i < j < count ==> made[i] != made[j]
    {
      made := [];
      for i := 0 to count
        invariant |made| == i && fresh(made)
        invariant forall j :: 0 <= j < i ==> made[j].Record() == ShardRecord(map[], multiset{})
        invariant forall j, k :: 0 <= j < k < i ==> made[j] != made[k]
      {
        var shard := new LockShard<T>();
        made := made + [shard];
      }
    }

    constructor (requested: int, hash: string -> uint32, factory: () -> T)
      requires requested <= 0 || Truncated(requested) <= HALF_WORD
      ensures Valid() && entries == map[] && known == {} && recycled == map[]
      ensures fresh(all) && all == (set s | s in shards)
      ensures forall i, j :: 0 <= i < j < |shards| ==> shards[i] != shards[j]
      ensures LeastPow2(shardCount, Wanted(requested))
      ensures |shards| == shardCount && (requested <= 0 ==> shardCount == 32)
      ensures 0 < requested <= HALF_WORD ==> requested <= shardCount < 2 * requested
    {
      var count := RoundUpShardCount(requested);
      var made := MakeShards(count);
      shards, shardCount, shardMask := made, count, count - 1;
      this.hash, this.factory := hash, factory;
      home, all := key => hash(key) % count, set s | s in made;
      known, entries, recycled := {}, map[], map[];
      new;
      EmptyIsConsistent(View());
    }

    method GetShardIndex(key: string) returns (index: nat)
      requires Structured()
      ensures index == home(key) < |shards|
    {
      IndexInRange(hash(key), shardCount);
      index := BitAnd(hash(key), shardMask);
    }

    method GetShard(key: string) returns (shard: LockShard<T>)
      requires Structured()
      ensures shard == ShardOf(key)
    {
      IndexInRange(hash(key), shardCount);
      shard := shards[BitAnd(hash(key), shardMask)];
    }

    twostate lemma ChangedView(new l: ShardedLock<T>, shard: LockShard<T>)
      requires known == old(known) + {l} && shard in all
      requires forall o :: o in old(known) && o != l ==> unchanged(o)
      requires forall s :: s in all && s != shard ==> unchanged(s)
      ensures View().locks == old(View()).locks[l := l.Record()]
      ensures View().shards == old(View()).shards[shard := shard.Record()]
    {
    }

    /** The atomic addition to a reference count. */
    method AddToRefCount(l: ShardedLock<T>, d: int)
      requires l in known
      modifies l`refCount
      ensures View() == Recounted(old(View()), l, d)
      ensures l.refCount == old(l.refCount) + d
    {
      l.refCount := l.refCount + d;
    }

    lemma RestatingKeepsConsistent(v: Catalog<T>, l: ShardedLock<T>, state: LockState)
      requires Structured() && Consistent(v, null) && l in v.locks
      ensures Consistent(Restated(v, l, state), null)
    {
      var w := Restated(v, l, state);
      forall k | Entry(w, k) ensures Entry(v, k) {}
      forall o | o in w.locks && InShard(w, o) ensures InShard(v, o) {}
      forall s, k | s in w.shards && FiledIn(w, s, k) ensures FiledIn(v, s, k) {}
      forall s, o | s in w.shards && PooledIn(w, s, o) ensures PooledIn(v, s, o) {}
    }

    /** Locking and unlocking an object does not concern the manager. */
    twostate lemma StateChanged(l: ShardedLock<T>)
      requires old(Valid()) && l in known && known == old(known) && entries == old(entries) && recycled == old(recycled)
      requires forall o :: o in known && o != l ==> unchanged(o)
      requires forall s :: s in all ==> unchanged(s)
      requires l.Record() == old(l.Record()).(state := l.State())
      ensures Valid() && View() == Restated(old(View()), l, l.State())
    {
      RestatingKeepsConsistent(old(View()), l, l.State());
      assert View() == Restated(old(View()), l, l.State());
    }

    // ----- Getting -----

    lemma AddingKeepsReferenced(v: Catalog<T>, key: string, l: ShardedLock<T>, r: LockRecord<T>)
      requires Structured() && Referenced(v, null) && !Entry(v, key) && v.shards.Keys == all
      requires r.key == key && r.shard == ShardOf(key) && r.refCount == 1
      requires l in v.recycled || l !in v.locks
      ensures Referenced(Added(v, key, l, r), null)
    {
      var w := Added(v, key, l, r);
      forall k | Entry(w, k) ensures k == key || (Entry(v, k) && v.entries[k] != l) {
        assert k == key || Entry(v, k);
        assert InShard(v, l) || l !in v.locks || v.locks[l].shard == null;
      }
      forall o | InShard(w, o) ensures w.locks[o].key in w.entries && w.entries[w.locks[o].key] == o {
        assert o == l || InShard(v, o);
      }
    }

    lemma AddingKeepsFiled(v: Catalog<T>, key: string, l: ShardedLock<T>, r: LockRecord<T>)
      requires Structured() && Filed(v) && !Entry(v, key) && v.shards.Keys == all
      requires r.shard == ShardOf(key)
      ensures Filed(Added(v, key, l, r))
    {
      var w := Added(v, key, l, r);
      forall k | Entry(w, k)
        ensures FiledIn(w, ShardOf(k), k) && w.shards[ShardOf(k)].locks[k] == w.entries[k]
      {
        assert k == key || Entry(v, k);
      }
      forall s, k | FiledIn(w, s, k) ensures k in w.entries && s == ShardOf(k) {
        assert FiledIn(v, s, k) || (s == ShardOf(key) && k == key);
      }
    }

    lemma AddingKeepsPooled(v: Catalog<T>, key: string, l: ShardedLock<T>, r: LockRecord<T>)
      requires Structured() && Pooled(v) && v.shards.Keys == all && r.shard == ShardOf(key)
      requires PooledIn(v, ShardOf(key), l) || l !in v.recycled
      ensures Pooled(Added(v, key, l, r))
    {
      var w := Added(v, key, l, r);
      forall s, o | PooledIn(w, s, o) ensures o in w.recycled && w.recycled[o] == s && w.shards[s].pool[o] == 1 {
        assert PooledIn(v, s, o);
      }
      forall o | o in w.recycled ensures PooledIn(w, w.recycled[o], o) {
        assert PooledIn(v, v.recycled[o], o);
      }
    }

    lemma AddingKeepsConsistent(v: Catalog<T>, key: string, l: ShardedLock<T>, r: LockRecord<T>)
      requires Structured() && Consistent(v, null) && key !in v.entries
      requires r.key == key && r.shard == ShardOf(key) && r.refCount == 1
      requires PooledIn(v, ShardOf(key), l) || l !in v.locks
      ensures Consistent(Added(v, key, l, r), null)
    {
      assert !Entry(v, key);
      AddingKeepsReferenced(v, key, l, r);
      AddingKeepsFiled(v, key, l, r);
      AddingKeepsPooled(v, key, l, r);
    }

    lemma CountingKeepsConsistent(v: Catalog<T>, l: ShardedLock<T>, d: int)
      requires Structured() && Consistent(v, null) && l in v.locks
      requires v.locks[l].shard == null ==> v.locks[l].refCount + d <= 0
      ensures Consistent(Recounted(v, l, d), if 1 <= v.locks[l].refCount + d then null else l)
    {
      var w := Recounted(v, l, d);
      forall k | Entry(w, k) ensures Entry(v, k) {}
      forall o | InShard(w, o) ensures InShard(v, o) {}
      forall s, k | FiledIn(w, s, k) ensures FiledIn(v, s, k) {}
      forall s, o | PooledIn(w, s, o) ensures PooledIn(v, s, o) {}
    }

    /** Files an object from the pool of the key's shard, or a new one. */
    method AddLock(key: string, shard: LockShard<T>) returns (l: ShardedLock<T>)
      requires shard in all && forall o :: o in shard.pool ==> o in known
      modifies `known, `entries, `recycled, shard, shard.pool
      ensures (l in old(shard.pool) && l in old(known)) || fresh(l)
      ensures known == old(known) + {l}
      ensures l.key == key && l.unlocked && l.refCount == 1 && l.shard == shard
      ensures View() == Added(old(View()), key, l, l.Record())
    {
      l := shard.NewLock(key, factory);
      entries := entries[key := l];
      known := known + {l};
      recycled := recycled - {l};
      ChangedView(l, shard);
    }

    lemma Lookup(v: Catalog<T>, key: string, shard: LockShard<T>)
      requires Structured() && Consistent(v, null) && shard == ShardOf(key)
      ensures shard in v.shards && (key in v.shards[shard].locks <==> key in v.entries)
      ensures key in v.entries ==>
                var l := v.shards[shard].locks[key];
                l == v.entries[key] && l in v.locks && v.locks[l].shard != null && 1 <= v.locks[l].refCount
      ensures forall l :: l in v.shards[shard].pool ==>
                            l in v.locks && v.locks[l].shard == null && PooledIn(v, shard, l)
    {
      assert FiledIn(v, shard, key) <==> key in v.shards[shard].locks;
      assert Entry(v, key) <==> key in v.entries;
      if Entry(v, key) {
        assert InShard(v, v.entries[key]);
      }
      forall l | l in v.shards[shard].pool
        ensures l in v.locks && v.locks[l].shard == null && PooledIn(v, shard, l)
      {
        assert PooledIn(v, shard, l);
      }
    }

    lemma EntriesAreDistinct(v: Catalog<T>, l: ShardedLock<T>)
      requires Structured() && Referenced(v, null)
      requires l !in v.locks || v.locks[l].shard == null
      ensures l !in v.entries.Values
    {
      forall k | k in v.entries ensures v.entries[k] != l {
        assert Entry(v, k);
      }
    }

    method GetExisting(key: string, shard: LockShard<T>) returns (l: ShardedLock<T>)
      requires Valid() && shard == ShardOf(key) && key in entries
      modifies known
      ensures Valid() && Handed(old(View()), View(), key, l) && l in known && known == old(known)
    {
      Lookup(View(), key, shard);
      assert View().shards[shard] == shard.Record();
      l := shard.locks[key];
      CountingKeepsConsistent(View(), l, 1);
      AddToRefCount(l, 1);
    }

    method GetNew(key: string, shard: LockShard<T>) returns (l: ShardedLock<T>)
      requires Valid() && shard == ShardOf(key) && key !in entries
      modifies `known, `entries, `recycled, shard, known
      ensures Valid() && Handed(old(View()), View(), key, l)
      ensures known == old(known) + {l} && (l in old(known) || fresh(l))
    {
      ghost var before := View();
      Lookup(before, key, shard);
      assert before.shards[shard] == shard.Record();
      l := AddLock(key, shard);
      AddingKeepsConsistent(before, key, l, l.Record());
      EntriesAreDistinct(before, l);
    }

    method GetLock(key: string) returns (l: ShardedLock<T>)
      requires Valid()
      modifies `known, `entries, `recycled, ShardOf(key), known
      ensures Valid() && Handed(old(View()), View(), key, l)
      ensures known == old(known) + {l} && (l in old(known) || fresh(l))
    {
      var shard := GetShard(key);
      Lookup(View(), key, shard);
      assert View().shards[shard] == shard.Record();
      if key in shard.locks {
        l := GetExisting(key, shard);
      } else {
        l := GetNew(key, shard);
      }
    }

    // ----- Releasing -----

    lemma DroppingKeepsReferenced(v: Catalog<T>, l: ShardedLock<T>)
      requires Structured() && Referenced(v, l) && InShard(v, l) && v.shards.Keys == all
      requires v.locks[l].shard in all
      ensures Referenced(Dropped(v, l), null)
    {
      var w := Dropped(v, l);
      forall k | Entry(w, k) ensures Entry(v, k) && v.entries[k] != l {
        assert Entry(v, k);
      }
      forall o | o in w.locks && InShard(w, o) ensures w.locks[o].key in w.entries && w.entries[w.locks[o].key] == o {
        assert InShard(v, o) && InShard(v, l);
      }
    }

    lemma DroppingKeepsFiled(v: Catalog<T>, l: ShardedLock<T>)
      requires Structured() && Filed(v) && InShard(v, l) && v.shards.Keys == all
      requires v.locks[l].shard == ShardOf(v.locks[l].key)
      ensures Filed(Dropped(v, l))
    {
      var w := Dropped(v, l);
      forall k | Entry(w, k) ensures FiledIn(w, ShardOf(k), k) && w.shards[ShardOf(k)].locks[k] == w.entries[k] {
        assert Entry(v, k);
      }
      forall s, k | s in w.shards && FiledIn(w, s, k) ensures k in w.entries && s == ShardOf(k) {
        assert FiledIn(v, s, k);
      }
    }

    lemma DroppingKeepsPooled(v: Catalog<T>, l: ShardedLock<T>)
      requires Pooled(v) && InShard(v, l) && v.locks[l].shard in v.shards && l !in v.recycled
      ensures Pooled(Dropped(v, l))
    {
      var w := Dropped(v, l);
      forall s, o | s in w.shards && PooledIn(w, s, o)
        ensures o in w.recycled && w.recycled[o] == s && w.shards[s].pool[o] == 1
      {
        assert PooledIn(v, s, o) || (o == l && s == v.locks[l].shard);
        assert !PooledIn(v, s, l);
      }
      forall o | o in w.recycled ensures PooledIn(w, w.recycled[o], o) {
        assert o == l || PooledIn(v, v.recycled[o], o);
      }
    }

    lemma ShardOfEntry(v: Catalog<T>, l: ShardedLock<T>)
      requires Structured() && Consistent(v, l) && InShard(v, l)
      ensures v.locks[l].shard == ShardOf(v.locks[l].key) && l !in v.recycled
    {
      assert Entry(v, v.locks[l].key);
    }

    lemma DroppingKeepsConsistent(v: Catalog<T>, l: ShardedLock<T>)
      requires Structured() && Consistent(v, l) && InShard(v, l)
      ensures v.locks[l].shard in v.shards && Consistent(Dropped(v, l), null)
    {
      ShardOfEntry(v, l);
      DroppingKeepsReferenced(v, l);
      DroppingKeepsFiled(v, l);
      DroppingKeepsPooled(v, l);
    }

    lemma ReleasingKeepsConsistent(v: Catalog<T>, l: ShardedLock<T>)
      requires Structured() && Consistent(v, null) && l in v.locks
      ensures var w := Recounted(v, l, -1);
              && l in w.locks && Consistent(w, if 1 <= w.locks[l].refCount then null else l)
              && Released(v, l) == (if w.locks[l].refCount <= 0 && w.locks[l].shard != null then Dropped(w, l) else w)
    {
      if InShard(v, l) {
        assert Entry(v, v.locks[l].key);
      }
      CountingKeepsConsistent(v, l, -1);
    }

    /** Takes an object out of its shard and recycles it. */
    method Recycle(l: ShardedLock<T>)
      requires l in known && l.shard != null && l.shard in all
      modifies `entries, `recycled, l.shard, l
      ensures View() == Dropped(old(View()), l)
    {
      var shard := l.shard;
      entries := entries - {l.key};
      recycled := recycled[l := shard];
      shard.Recycle(l);
      ChangedView(l, shard);
    }

    method CleanupLock(l: ShardedLock<T>)
      requires Structured() && Consistent(View(), l) && l in known && l.refCount <= 0
      modifies `entries, `recycled, all, l
      ensures Valid() && View() == if old(l.shard) == null then old(View()) else Dropped(old(View()), l)
    {
      if l.shard == null {
        return;
      }
      assert InShard(View(), l);
      DroppingKeepsConsistent(View(), l);
      Recycle(l);
    }

    /** Gives a reference back, also through a handle whose object has been recycled in the meantime. */
    method ReleaseLock(l: ShardedLock<T>)
      requires Valid() && l in known
      modifies `entries, `recycled, all, l
      ensures Valid() && View() == Released(old(View()), l)
    {
      ghost var before := View();
      ReleasingKeepsConsistent(before, l);
      AddToRefCount(l, -1);
      if l.refCount <= 0 {
        CleanupLock(l);
      }
    }

    // ----- The sweep -----

    lemma FiledAreEntries(v: Catalog<T>, shard: LockShard<T>, key: string)
      requires Structured() && Consistent(v, null) && FiledIn(v, shard, key)
      ensures key in v.entries && v.shards[shard].locks[key] == v.entries[key]
      ensures var l := v.entries[key];
              l in v.locks && v.locks[l].key == key && v.locks[l].shard == shard
    {
      assert Entry(v, key);
    }

    lemma InShardAreFiled(v: Catalog<T>, l: ShardedLock<T>)
      requires Structured() && Consistent(v, null) && InShard(v, l)
      ensures var s: LockShard<T> := v.locks[l].shard;
              FiledIn(v, s, v.locks[l].key) && v.shards[s].locks[v.locks[l].key] == l
    {
      assert Entry(v, v.locks[l].key);
    }

    ghost function DueIn(v: Catalog<T>, shard: LockShard<T>, now: int): set<ShardedLock<T>> {
      set l | l in v.locks && v.locks[l].shard == shard && Due(v.locks[l], now)
    }

    /** The locks of one shard that are due, in whatever order the map yields them. */
    method Collect(shard: LockShard<T>, now: int) returns (due: seq<ShardedLock<T>>)
      requires Valid() && shard in all
      ensures forall i, j :: 0 <= i < j < |due| ==> due[i] != due[j]
      ensures forall i :: 0 <= i < |due| ==> due[i] in DueIn(View(), shard, now)
      ensures forall l :: l in DueIn(View(), shard, now) ==> l in due
    {
      ghost var v := View();
      assert v.shards[shard] == shard.Record();
      forall l | l in DueIn(v, shard, now)
        ensures v.locks[l].key in shard.locks && shard.locks[v.locks[l].key] == l
      {
        assert InShard(v, l);
        InShardAreFiled(v, l);
      }
      due := [];
      var remaining := shard.locks.Keys;
      while remaining != {}
        invariant remaining <= shard.locks.Keys
        invariant forall i, j :: 0 <= i < j < |due| ==> due[i] != due[j]
        invariant forall l :: l in due ==> l in DueIn(v, shard, now) && v.locks[l].key !in remaining
        invariant forall l :: l in DueIn(v, shard, now) ==> l in due || v.locks[l].key in remaining
        decreases remaining
      {
        var k :| k in remaining;
        var lock := shard.locks[k];
        assert FiledIn(v, shard, k);
        FiledAreEntries(v, shard, k);
        var expired := lock.unlocked || now > lock.expireAt;
        if expired && lock.refCount <= 1 {
          due := due + [lock];
        }
        remaining := remaining - {k};
      }
    }

    lemma SweptOneMore(v: Catalog<T>, m: Catalog<T>, swept: seq<ShardedLock<T>>, l: ShardedLock<T>)
      requires SweptExactly(v, m, swept) && l in v.locks && l !in swept && l !in v.recycled
      requires InShard(m, l) && m.locks[l].shard in m.shards
      requires v.locks[l].key in v.entries && v.entries[v.locks[l].key] == l
      requires forall k :: k in v.entries && v.entries[k] == l ==> k == v.locks[l].key
      ensures SweptExactly(v, Dropped(m, l), swept + [l])
    {
      assert forall o :: o in swept + [l] <==> o in swept || o == l;
    }

    lemma SweepOne(v: Catalog<T>, m: Catalog<T>, swept: seq<ShardedLock<T>>, l: ShardedLock<T>)
      requires Structured() && Consistent(v, null) && Consistent(m, null) && SweptExactly(v, m, swept)
      requires l in v.locks && l !in swept && v.locks[l].shard != null
      ensures l in m.locks && m.locks[l].shard != null && m.locks[l].shard in all && Consistent(Dropped(m, l), null)
      ensures SweptExactly(v, Dropped(m, l), swept + [l])
    {
      assert InShard(v, l) && InShard(m, l);
      Weakened(m, l);
      ShardOfEntry(m, l);
      DroppingKeepsConsistent(m, l);
      forall k | k in v.entries && v.entries[k] == l ensures k == v.locks[l].key {
        assert Entry(v, k);
      }
      SweptOneMore(v, m, swept, l);
    }

    lemma Weakened(v: Catalog<T>, l: ShardedLock<T>)
      requires Structured() && Consistent(v, null)
      ensures Consistent(v, l)
    {
      forall k | Entry(v, k) ensures Entry(v, k) {}
    }

    /** Locks to sweep: different ones, all of them entries. */
    ghost predicate Sweepable(v: Catalog<T>, due: seq<ShardedLock<T>>)
      requires Structured()
    {
      && Consistent(v, null)
      && (forall i, j :: 0 <= i < j < |due| ==> due[i] != due[j])
      && (forall i :: 0 <= i < |due| ==> due[i] in v.locks && v.locks[due[i]].shard != null)
    }

    method SweepLock(ghost before: Catalog<T>, due: seq<ShardedLock<T>>, i: nat)
      requires Valid() && Sweepable(before, due) && i < |due| && due[i] in known
      requires SweptExactly(before, View(), due[..i])
      modifies `entries, `recycled, all, due[i]
      ensures Valid() && SweptExactly(before, View(), due[..i + 1])
    {
      assert due[..i + 1] == due[..i] + [due[i]];
      SweepOne(before, View(), due[..i], due[i]);
      Recycle(due[i]);
    }

    method SweepAll(due: seq<ShardedLock<T>>)
      requires Valid() && Sweepable(View(), due)
      modifies `entries, `recycled, all, known
      ensures Valid() && SweptExactly(old(View()), View(), due) && known == old(known)
    {
      ghost var before := View();
      for i := 0 to |due|
        invariant Valid() && known == old(known) && SweptExactly(before, View(), due[..i])
      {
        SweepLock(before, due, i);
      }
      assert due[..|due|] == due;
    }

    /** The locks of the first n shards that are due. */
    ghost predicate DueBefore(v: Catalog<T>, n: nat, now: int, l: ShardedLock<T>)
      requires n <= |shards|
    {
      l in v.locks && v.locks[l].shard in shards[..n] && Due(v.locks[l], now)
    }

    lemma SweepMore(v: Catalog<T>, m: Catalog<T>, w: Catalog<T>, a: seq<ShardedLock<T>>, b: seq<ShardedLock<T>>)
      requires SweptExactly(v, m, a) && SweptExactly(m, w, b)
      requires forall l :: l in b ==> l !in a
      ensures SweptExactly(v, w, a + b)
    {
    }

    /** The next shard: its due locks, as they are by then, are those that were due to begin with. */
    lemma DueNext(v: Catalog<T>, m: Catalog<T>, gone: seq<ShardedLock<T>>, n: nat, now: int)
      requires n < |shards| && SweptExactly(v, m, gone)
      requires forall l :: l in v.locks ==> (l in gone <==> DueBefore(v, n, now, l))
      ensures forall l :: l in DueIn(m, shards[n], now) ==> l !in gone
      ensures forall l :: l in v.locks ==> (DueBefore(v, n + 1, now, l) <==> l in gone || l in DueIn(m, shards[n], now))
    {
      assert shards[..n + 1] == shards[..n] + [shards[n]];
    }

    method SweepShard(shard: LockShard<T>, now: int) returns (ghost due: seq<ShardedLock<T>>)
      requires Valid() && shard in all
      modifies `entries, `recycled, all, known
      ensures Valid() && SweptExactly(old(View()), View(), due) && known == old(known)
      ensures forall l :: l in due <==> l in DueIn(old(View()), shard, now)
    {
      var collected := Collect(shard, now);
      due := collected;
      SweepAll(collected);
    }

    /** The locks that are due anywhere. */
    ghost predicate DueAnywhere(v: Catalog<T>, now: int, l: ShardedLock<T>) {
      l in v.entries.Values && l in v.locks && Due(v.locks[l], now)
    }

    lemma DueInTheEnd(v: Catalog<T>, now: int, l: ShardedLock<T>)
      requires Structured() && Consistent(v, null)
      ensures DueBefore(v, |shards|, now, l) <==> DueAnywhere(v, now, l)
    {
      assert shards[..|shards|] == shards;
      if DueBefore(v, |shards|, now, l) {
        assert InShard(v, l);
      }
      if DueAnywhere(v, now, l) {
        var k :| k in v.entries && v.entries[k] == l;
        assert Entry(v, k);
      }
    }

    /**
      Removes, resets and pools exactly the entries that are free or expired and referenced at most once,
      whatever shard they are in, and leaves every other lock as it is.
     */
    method PerformCleanup(now: int) returns (ghost gone: seq<ShardedLock<T>>)
      requires Valid()
      modifies `entries, `recycled, all, known
      ensures Valid() && SweptExactly(old(View()), View(), gone) && known == old(known)
      ensures forall l :: l in known ==> (l in gone <==> DueAnywhere(old(View()), now, l))
    {
      ghost var before := View();
      gone := [];
      for i := 0 to |shards|
        invariant Valid() && known == old(known) && SweptExactly(before, View(), gone)
        invariant forall l :: l in known ==> (l in gone <==> DueBefore(before, i, now, l))
      {
        DueNext(before, View(), gone, i, now);
        ghost var m := View();
        ghost var due := SweepShard(shards[i], now);
        SweepMore(before, m, View(), gone, due);
        gone := gone + due;
      }
      forall l | l in known ensures DueBefore(before, |shards|, now, l) <==> DueAnywhere(before, now, l) {
        DueInTheEnd(before, now, l);
      }
    }
  }
}
