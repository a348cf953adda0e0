/**
  Single keys of the lock server, and the commands the lock scripts issue on them. A key whose
  deadline has passed still occupies its field until a command writes it, but no command can see it.
  The server's clock stands still while a script runs, so `now` is a parameter of every command.
 */
module RedisCommands {
  import opened Wrappers

  datatype Expiry = Never | At(time: int)

  datatype Key<+V> = Absent | Present(value: V, expiry: Expiry)

  predicate Alive<V>(k: Key<V>, now: int) {
    k.Present? && (k.expiry.Never? || now <= k.expiry.time)
  }

  function Get<V>(k: Key<V>, now: int): Option<V> {
    if Alive(k, now) then Some(k.value) else None
  }

  /** SET with EX; the server rejects a time to live that is not positive. */
  function SetEx<V>(v: V, now: int, ttl: int): Key<V>
    requires 0 < ttl
  {
    Present(v, At(now + ttl))
  }

  /** EXPIRE and PEXPIRE: a time to live that is not positive deletes the key. */
  function Expire<V>(k: Key<V>, now: int, ttl: int): Key<V> {
    if !Alive(k, now) then k
    else if ttl <= 0 then Absent
    else k.(expiry := At(now + ttl))
  }

  /** A key set or extended for some time can be seen for exactly that long. */
  lemma KeyLives<V>(k: Key<V>, v: V, start: int, ttl: int, now: int)
    requires 0 < ttl
    ensures Alive(SetEx(v, start, ttl), now) <==> now <= start + ttl
    ensures Alive(k, start) ==> (Alive(Expire(k, start, ttl), now) <==> now <= start + ttl)
  {
  }

  /** TTL and PTTL: -1 for a key without a deadline, -2 for a key that is not there. */
  function TimeToLive<V>(k: Key<V>, now: int): int {
    if !Alive(k, now) then -2
    else if k.expiry.Never? then -1
    else k.expiry.time - now
  }

  // ----- Counters -----

  function Incr(k: Key<int>, now: int): Key<int> {
    if Alive(k, now) then k.(value := k.value + 1) else Present(1, Never)
  }

  function Decr(k: Key<int>, now: int): Key<int> {
    if Alive(k, now) then k.(value := k.value - 1) else Present(-1, Never)
  }

  // ----- Lists: a list that becomes empty is deleted -----

  function Items(k: Key<seq<string>>, now: int): seq<string> {
    if Alive(k, now) then k.value else []
  }

  function ListKey(items: seq<string>, expiry: Expiry): Key<seq<string>> {
    if items == [] then Absent else Present(items, expiry)
  }

  function RPush(k: Key<seq<string>>, now: int, v: string): Key<seq<string>> {
    if Alive(k, now) then k.(value := k.value + [v]) else Present([v], Never)
  }

  function LIndex(k: Key<seq<string>>, now: int, i: nat): Option<string> {
    if i < |Items(k, now)| then Some(Items(k, now)[i]) else None
  }

  function LPop(k: Key<seq<string>>, now: int): Key<seq<string>> {
    if Alive(k, now) && k.value != [] then ListKey(k.value[1..], k.expiry) else k
  }

  /** LREM with count 0: every element equal to v goes. */
  function LRem(k: Key<seq<string>>, now: int, v: string): Key<seq<string>> {
    if Alive(k, now) then ListKey(Without(k.value, v), k.expiry) else k
  }

  function Without(q: seq<string>, v: string): (r: seq<string>)
    ensures |r| <= |q|
    ensures forall x :: x in r <==> x in q && x != v
    ensures multiset(r) == multiset(q)[v := 0]
  {
    assert q != [] ==> q == [q[0]] + q[1..];
    if q == [] then []
    else if q[0] == v then Without(q[1..], v)
    else [q[0]] + Without(q[1..], v)
  }
}
