/** Watchdogs: renewing a local lock at every tick, and the manager that keeps one watchdog per key. */
module Watchdogs {
  import opened LocalLocks
  import opened ShardedLocks

  // ----- The renewal interval; times are in nanoseconds -----

  const DEFAULT_LOCK_TTL := 30_000_000_000
  const DEFAULT_WATCHDOG_INTERVAL := 10_000_000_000

  datatype LockOption = WithLockTTL(ttl: int) | WithWatchdogInterval(interval: int) | Unrelated

  datatype LockConfig = LockConfig(lockTtl: int, watchdogInterval: int)

  /** A third, rounded towards zero. */
  function Third(n: int): int {
    if 0 <= n then n / 3 else -(-n / 3)
  }

  function ChosenTtl(opts: seq<LockOption>): int {
    if opts == [] then DEFAULT_LOCK_TTL
    else if opts[|opts| - 1].WithLockTTL? then opts[|opts| - 1].ttl
    else ChosenTtl(opts[..|opts| - 1])
  }

  function ChosenInterval(opts: seq<LockOption>): int {
    if opts == [] then DEFAULT_WATCHDOG_INTERVAL
    else if opts[|opts| - 1].WithWatchdogInterval? then opts[|opts| - 1].interval
    else ChosenInterval(opts[..|opts| - 1])
  }

  /** The last option of a kind is the one chosen, and the default applies if there is none. */
  lemma {:induction false} LastOptionCounts(opts: seq<LockOption>, i: nat)
    ensures (forall o <- opts :: !o.WithLockTTL?) ==> ChosenTtl(opts) == 30_000_000_000
    ensures (forall o <- opts :: !o.WithWatchdogInterval?) ==> ChosenInterval(opts) == 10_000_000_000
    ensures i < |opts| && opts[i].WithLockTTL? && (forall o <- opts[i + 1..] :: !o.WithLockTTL?) ==>
              ChosenTtl(opts) == opts[i].ttl
    ensures i < |opts| && opts[i].WithWatchdogInterval? && (forall o <- opts[i + 1..] :: !o.WithWatchdogInterval?) ==>
              ChosenInterval(opts) == opts[i].interval
  {
    if opts != [] {
      var before, last := opts[..|opts| - 1], opts[|opts| - 1];
      assert opts == before + [last];
      LastOptionCounts(before, i);
      if i < |before| {
        assert opts[i + 1..] == before[i + 1..] + [last];
        assert last in opts[i + 1..];
      }
    }
  }

  /** The last option of a kind counts. A chosen interval is used unless it is the default one. */
  method ApplyLockOptions(opts: seq<LockOption>) returns (config: LockConfig)
    ensures config.lockTtl == ChosenTtl(opts)
    ensures ChosenInterval(opts) == DEFAULT_WATCHDOG_INTERVAL ==> config.watchdogInterval == Third(ChosenTtl(opts))
    ensures config.watchdogInterval == ChosenInterval(opts) <==>
            ChosenInterval(opts) != DEFAULT_WATCHDOG_INTERVAL ||
            DEFAULT_LOCK_TTL <= ChosenTtl(opts) <= DEFAULT_LOCK_TTL + 2
  {
    config := LockConfig(DEFAULT_LOCK_TTL, DEFAULT_WATCHDOG_INTERVAL);
    for n := 0 to |opts|
      invariant config == LockConfig(ChosenTtl(opts[..n]), ChosenInterval(opts[..n]))
    {
      assert opts[..n + 1][..n] == opts[..n];
      match opts[n]
      case WithLockTTL(ttl) => config := config.(lockTtl := ttl);
      case WithWatchdogInterval(interval) => config := config.(watchdogInterval := interval);
      case Unrelated =>
    }
    assert opts[..|opts|] == opts;
    if config.watchdogInterval == DEFAULT_WATCHDOG_INTERVAL {
      config := config.(watchdogInterval := Third(config.lockTtl));
    }
  }

  /** 10 s chosen for a lock of 60 s become 20 s. */
  method TenSecondsOverridden() returns (config: LockConfig)
    ensures config == LockConfig(60_000_000_000, 20_000_000_000)
  {
    var opts := [WithLockTTL(60_000_000_000), WithWatchdogInterval(10_000_000_000)];
    assert opts[..1] == [WithLockTTL(60_000_000_000)];
    assert ChosenInterval(opts) == 10_000_000_000 && ChosenTtl(opts) == 60_000_000_000;
    config := ApplyLockOptions(opts);
  }

  // ----- Renewing at every tick -----

  /** Ticks are counted from 1; `effect` says which renewals reach the lock. */
  datatype Renewals = Renewals(start: int, interval: int, ttl: int, effect: nat -> bool)

  function TickAt(r: Renewals, k: nat): int {
    r.start + k * r.interval
  }

  /** The lock after k ticks. */
  function LockAfter(s: LockState, r: Renewals, k: nat): LockState {
    if k == 0 then s
    else if r.effect(k) then Extended(LockAfter(s, r, k - 1), TickAt(r, k), r.ttl)
    else LockAfter(s, r, k - 1)
  }

  ghost predicate HeldFromTick(s: LockState, r: Renewals, k: nat) {
    forall t | TickAt(r, k) <= t <= TickAt(r, k + 1) :: Held(LockAfter(s, r, k), t)
  }

  /** At every instant up to tick n the lock is held, also right before each renewal. */
  ghost predicate KeptAlive(s: LockState, r: Renewals, n: nat) {
    forall k: nat | k < n :: HeldFromTick(s, r, k)
  }

  /** The last of the first k renewals that took effect; 0 is the grant itself. */
  function LastRenewal(effect: nat -> bool, k: nat): (last: nat)
    ensures last <= k && (last == 0 || effect(last))
    ensures forall i :: last < i <= k ==> !effect(i)
  {
    if k == 0 || effect(k) then k else LastRenewal(effect, k - 1)
  }

  function Successes(effect: nat -> bool, k: nat): nat {
    if k == 0 then 0 else Successes(effect, k - 1) + if effect(k) then 1 else 0
  }

  lemma HeldUntilTick(s: LockState, r: Renewals, k: nat)
    requires 0 < r.interval
    ensures HeldFromTick(s, r, k) <==> Held(LockAfter(s, r, k), TickAt(r, k + 1))
  {
    assert TickAt(r, k + 1) == TickAt(r, k) + r.interval;
  }

  lemma {:induction false} DeadlineAfter(s: LockState, r: Renewals, k: nat)
    requires s == Taken(r.start, s.value, r.ttl)
    ensures LockAfter(s, r, k) == Taken(TickAt(r, LastRenewal(r.effect, k)), s.value, r.ttl)
  {
    if k > 0 {
      DeadlineAfter(s, r, k - 1);
    }
  }

  /** Whether a lock renewed at every third of its TTL survives that many failed renewals in a row. */
  predicate Tolerates(misses: nat, ttl: int) {
    misses <= 2 || (misses == 3 && ttl in {4, 5, 8}) || (misses == 4 && ttl == 5)
  }

  lemma ToleratesExactly(misses: nat, ttl: int)
    requires 3 <= ttl
    ensures (misses + 1) * Third(ttl) <= ttl <==> Tolerates(misses, ttl)
  {
    var q := ttl / 3;
    assert 1 <= q && 3 * q <= ttl < 3 * q + 3;
    if misses <= 2 {
      assert (misses + 1) * q == 3 * q - (2 - misses) * q;
    } else if misses == 3 {
      assert (misses + 1) * q == 4 * q;
    } else if misses == 4 {
      assert (misses + 1) * q == 5 * q;
    } else {
      assert (misses + 1) * q == 6 * q + (misses - 5) * q;
    }
  }

  /** The renewals that have failed since the last one that took effect. */
  function MissesAt(r: Renewals, k: nat): nat {
    k - LastRenewal(r.effect, k)
  }

  predicate TolerableAt(r: Renewals, k: nat) {
    (MissesAt(r, k) + 1) * r.interval <= r.ttl
  }

  /** The lock is held at every instant exactly if no renewal comes after more misses than the TTL covers. */
  lemma KeptAliveExactly(s: LockState, r: Renewals, n: nat)
    requires s == Taken(r.start, s.value, r.ttl) && 0 < r.interval
    ensures KeptAlive(s, r, n) <==> forall k: nat | k < n :: TolerableAt(r, k)
  {
    forall k: nat | k < n
      ensures HeldFromTick(s, r, k) <==> TolerableAt(r, k)
    {
      var last := LastRenewal(r.effect, k);
      HeldUntilTick(s, r, k);
      DeadlineAfter(s, r, k);
      assert TickAt(r, k + 1) == TickAt(r, last) + (k - last + 1) * r.interval;
    }
  }

  predicate OneOfNextThree(effect: nat -> bool, k: nat) {
    effect(k + 1) || effect(k + 2) || effect(k + 3)
  }

  lemma OneInThreeKeepsAlive(s: LockState, r: Renewals, n: nat)
    requires s == Taken(r.start, s.value, r.ttl) && 3 <= r.ttl && r.interval == Third(r.ttl)
    requires forall k: nat :: OneOfNextThree(r.effect, k)
    ensures KeptAlive(s, r, n)
  {
    forall k: nat | k < n ensures TolerableAt(r, k) {
      var last := LastRenewal(r.effect, k);
      assert OneOfNextThree(r.effect, last);
      ToleratesExactly(MissesAt(r, k), r.ttl);
    }
    KeptAliveExactly(s, r, n);
  }

  /**
    `done` is the completion signal, made once and closed by every loop that ends. `starts` and `loops`
    count the loops ever started and those that have not ended.
   */
  class Watchdog<T> {
    const key: string
    const lock: ShardedLock<T>
    const interval: int
    const ttl: int
    var running: bool
    var done: bool
    ghost var starts: nat
    ghost var loops: nat
    var startTime: int
    var extendCount: int
    var failedExtends: int
    var lastExtendTime: int
    var lastExtendResult: bool

    /** The signal is closed exactly if a loop has ended, and no second one starts before that. */
    ghost predicate Signalled()
      reads this
    {
      loops <= starts && (done <==> loops < starts) && (1 < starts ==> done)
    }

    /** What starting, stopping and ending loops keep in order: stopping the first loop waits for its end. */
    ghost predicate Sound()
      reads this
    {
      && Signalled()
      && (running ==> 0 < starts)
      && (starts <= 1 && !running ==> loops == 0)
    }

    constructor (key: string, lock: ShardedLock<T>, interval: int, ttl: int)
      ensures Sound() && starts == loops == 0
      ensures !running && this.key == key && this.lock == lock && this.interval == interval && this.ttl == ttl
    {
      this.key, this.lock, this.interval, this.ttl := key, lock, interval, ttl;
      running, done, starts, loops := false, false, 0, 0;
      startTime, extendCount, failedExtends := 0, 0, 0;
      lastExtendTime, lastExtendResult := ZERO_TIME, false;
    }

    /** False stands for the error that the watchdog is running already. */
    method Start(now: int) returns (ok: bool)
      requires Sound()
      modifies this
      ensures Sound()
      ensures ok == !old(running) && running
      ensures if !ok then unchanged(this)
              else
                && starts == old(starts) + 1 && loops == old(loops) + 1 && done == old(done)
                && startTime == now && extendCount == 0 && failedExtends == 0
                && lastExtendTime == ZERO_TIME && !lastExtendResult
    {
      if running {
        return false;
      }
      running := true;
      startTime, extendCount, failedExtends := now, 0, 0;
      lastExtendTime, lastExtendResult := ZERO_TIME, false;
      starts, loops := starts + 1, loops + 1;
      return true;
    }

    /**
      A loop, told to stop or left without a context, closes the completion signal. False stands for the
      panic of closing it a second time: that is how exactly every loop but the first ends.
     */
    method LoopEnds() returns (ok: bool)
      requires Signalled() && 0 < loops
      modifies `done, `loops
      ensures Signalled() && done && loops == old(loops) - 1
      ensures ok <==> starts == 1
    {
      ok := !done;
      done := true;
      loops := loops - 1;
    }

    /**
      Stops the loop and waits for the completion signal, which is no wait at all once it is closed. False
      stands for the error that the watchdog is not running.
     */
    method Stop() returns (ok: bool)
      requires Sound()
      modifies `running, `done, `loops
      ensures Sound() && ok == old(running) && !running
      ensures ok ==> done && (starts == 1 ==> loops == 0)
      ensures loops == old(loops) - if ok && !old(done) then 1 else 0
      ensures !ok ==> done == old(done)
    {
      if !running {
        return false;
      }
      running := false;
      if !done {
        var _ := LoopEnds();
      }
      return true;
    }

    /** One renewal, which may fail to reach the lock. A failed one is only counted. */
    method PerformExtend(now: int, reaches: bool)
      modifies `extendCount, `failedExtends, `lastExtendTime, `lastExtendResult, lock`ttl, lock`expireAt
      ensures lastExtendTime == now && lastExtendResult == (reaches && !lock.unlocked)
      ensures lock.State() == if reaches then Extended(old(lock.State()), now, ttl) else old(lock.State())
      ensures extendCount == old(extendCount) + if lastExtendResult then 1 else 0
      ensures failedExtends == old(failedExtends) + if lastExtendResult then 0 else 1
    {
      var success := false;
      if reaches {
        success := lock.Extend(now, ttl);
      }
      lastExtendTime := now;
      lastExtendResult := success;
      if success {
        extendCount := extendCount + 1;
      } else {
        failedExtends := failedExtends + 1;
      }
    }

    /** Runs until it is stopped after some number of ticks; tells whether the lock was ever expired meanwhile. */
    method WatchdogLoop(start: int, effect: nat -> bool, ticks: nat) returns (ghost lapsed: bool)
      requires 0 < interval
      modifies `extendCount, `failedExtends, `lastExtendTime, `lastExtendResult, lock`ttl, lock`expireAt
      ensures var r := Renewals(start, interval, ttl, effect);
              && lock.State() == LockAfter(old(lock.State()), r, ticks)
              && (lapsed <==> !KeptAlive(old(lock.State()), r, ticks))
      ensures extendCount == old(extendCount) + if lock.unlocked then 0 else Successes(effect, ticks)
      ensures extendCount + failedExtends == old(extendCount + failedExtends) + ticks
    {
      ghost var s, r := lock.State(), Renewals(start, interval, ttl, effect);
      lapsed := false;
      var now := start;
      for n := 0 to ticks
        invariant now == TickAt(r, n)
        invariant lock.State() == LockAfter(s, r, n)
        invariant lapsed <==> !KeptAlive(s, r, n)
        invariant extendCount == old(extendCount) + if lock.unlocked then 0 else Successes(effect, n)
        invariant extendCount + failedExtends == old(extendCount + failedExtends) + n
      {
        HeldUntilTick(s, r, n);
        assert TickAt(r, n + 1) == TickAt(r, n) + interval;
        now := now + interval;
        lapsed := lapsed || !Held(lock.State(), now);
        PerformExtend(now, effect(n + 1));
      }
    }
  }

  /** The loop of a watchdog that is started ends well exactly if it is the first start. */
  method StartAndEnd<T>(w: Watchdog<T>, now: int) returns (ok: bool)
    requires w.Sound() && !w.running
    modifies w
    ensures ok <==> old(w.starts) == 0
  {
    var _ := w.Start(now);
    ok := w.LoopEnds();
  }

  /** Started, stopped and started again: the end of the second loop panics. */
  method RestartedLoopPanics<T>(lock: ShardedLock<T>, now: int) returns (first: bool, second: bool)
    ensures first && !second
  {
    var w := new Watchdog("key", lock, 10, 30);
    var _ := w.Start(now);
    first := w.Stop();
    second := StartAndEnd(w, now);
  }

  // ----- The manager -----

  datatype StopResult = Stopped | NotFound | NotRunning

  class WatchdogManager<T> {
    var watchdogs: map<string, Watchdog<T>>
    ghost var created: set<Watchdog<T>>

    predicate Stored(w: Watchdog<T>)
      reads this
    {
      w.key in watchdogs && watchdogs[w.key] == w
    }

    /**
      Every watchdog the manager ever created was started once, by the manager, and is the one stored under
      its key as long as it runs.
     */
    ghost predicate Valid()
      reads this, created
    {
      && (forall k <- watchdogs :: watchdogs[k] in created && watchdogs[k].key == k)
      && forall w <- created :: w.Sound() && w.starts == 1 && (w.running ==> Stored(w))
    }

    /** Counts as running although its loop has ended. */
    ghost predicate Deserted(w: Watchdog<T>)
      reads w
    {
      w.running && w.loops == 0
    }

    constructor ()
      ensures Valid() && watchdogs == map[] && created == {}
    {
      watchdogs, created := map[], {};
    }

    /** Two watchdogs of one key whose loops have not ended are the same one. */
    lemma OneRenewerPerKey(v: Watchdog<T>, w: Watchdog<T>)
      requires Valid() && v in created && w in created
      requires 0 < v.loops && 0 < w.loops && v.key == w.key
      ensures v == w
      ensures v.loops == 1
    {
      assert Stored(v) && Stored(w);
    }

    method Launch(key: string, lock: ShardedLock<T>, interval: int, ttl: int, now: int) returns (w: Watchdog<T>)
      ensures fresh(w) && w.Sound() && w.starts == 1 && w.running && w.startTime == now
      ensures w.key == key && w.lock == lock && w.interval == interval && w.ttl == ttl
    {
      w := new Watchdog(key, lock, interval, ttl);
      var _ := w.Start(now);
    }

    /** None stands for the error that the key has a running watchdog. */
    method StartWatchdog(key: string, lock: ShardedLock<T>, interval: int, ttl: int, now: int) returns (w: Watchdog?<T>)
      requires Valid()
      modifies this
      ensures Valid()
      ensures w == null <==> key in old(watchdogs) && old(watchdogs[key].running)
      ensures w == null ==> unchanged(this)
      ensures w != null ==>
                && fresh(w) && w.running && w.key == key && w.startTime == now
                && w.lock == lock && w.interval == interval && w.ttl == ttl
                && watchdogs == old(watchdogs)[key := w] && created == old(created) + {w}
    {
      hide Watchdog<T>.Sound;
      if key in watchdogs {
        if watchdogs[key].running {
          return null;
        }
        watchdogs := watchdogs - {key};
      }
      w := Launch(key, lock, interval, ttl, now);
      watchdogs := watchdogs[key := w];
      created := created + {w};
    }

    /** A watchdog that was stopped by hand stays stored, and asking to stop it is an error. */
    method StopWatchdog(key: string) returns (r: StopResult)
      requires Valid()
      modifies `watchdogs, created
      ensures Valid() && created == old(created)
      ensures r == if key !in old(watchdogs) then NotFound
                   else if old(watchdogs[key].running) then Stopped else NotRunning
      ensures watchdogs == if r == Stopped then old(watchdogs) - {key} else old(watchdogs)
      ensures forall w <- created :: w.running == (old(w.running) && !(w.key == key))
    {
      if key !in watchdogs {
        return NotFound;
      }
      var ok := watchdogs[key].Stop();
      if !ok {
        return NotRunning;
      }
      watchdogs := watchdogs - {key};
      return Stopped;
    }

    /**
      Whatever the order, nothing is left stored or running and every loop has ended. False stands for the
      last error.
     */
    method StopAll() returns (ok: bool)
      requires Valid()
      modifies `watchdogs, created
      ensures Valid() && created == old(created)
      ensures watchdogs == map[] && forall w <- created :: !w.running && w.loops == 0
      ensures ok <==> forall k <- old(watchdogs) :: old(watchdogs[k].running)
    {
      hide Watchdog<T>.Signalled;
      ok := true;
      while watchdogs != map[]
        invariant Valid() && created == old(created)
        invariant forall k <- watchdogs :: k in old(watchdogs) && watchdogs[k] == old(watchdogs)[k]
        invariant forall k <- watchdogs :: watchdogs[k].running == old(watchdogs[k].running)
        invariant ok <==> forall k <- old(watchdogs) :: k !in watchdogs ==> old(watchdogs[k].running)
        decreases watchdogs.Keys
      {
        var key :| key in watchdogs;
        var stopped := watchdogs[key].Stop();
        if !stopped {
          ok := false;
        }
        watchdogs := watchdogs - {key};
      }
    }

    /** Stopping one of its watchdogs behind the manager's back does no harm. */
    method StopByHand(w: Watchdog<T>) returns (ok: bool)
      requires Valid() && w in created
      modifies w`running, w`done, w`loops
      ensures Valid() && ok == old(w.running) && !w.running
    {
      ok := w.Stop();
    }

    /** Nor does the end of a loop whose context is gone: no loop the manager started closes twice. */
    method CancelByHand(w: Watchdog<T>) returns (ok: bool)
      requires Valid() && w in created && 0 < w.loops
      modifies w`done, w`loops
      ensures ok && Valid() && Deserted(w)
    {
      ok := w.LoopEnds();
    }

    /** A running watchdog is deserted exactly if its loop has ended by itself, and is then the stored one. */
    lemma DesertedExactly(w: Watchdog<T>)
      requires Valid() && w in created
      ensures Deserted(w) <==> w.running && w.done
      ensures Deserted(w) ==> Stored(w)
    {
    }

    /** Once its context is cancelled, a key is not renewed any more, and a new watchdog is refused. */
    method CancelledKeyIsRefused(key: string, lock: ShardedLock<T>, interval: int, ttl: int, now: int)
      returns (w: Watchdog?<T>)
      requires Valid() && key in watchdogs && 0 < watchdogs[key].loops
      modifies this, created
      ensures Valid() && w == null
      ensures forall o <- created :: o.key == key ==> o.loops == 0
    {
      var _ := CancelByHand(watchdogs[key]);
      w := StartWatchdog(key, lock, interval, ttl, now);
      forall o <- created ensures o.key == key ==> o.loops == 0 {
        assert 0 < o.loops ==> Stored(o);
      }
    }

    /** Starting one again, stored or not, does: exactly if that works, its loop is bound to close twice. */
    method StartByHand(w: Watchdog<T>, now: int) returns (ok: bool)
      requires Valid() && w in created
      modifies w
      ensures ok == !old(w.running) && w.running && w.Sound()
      ensures ok ==> 1 < w.starts && 0 < w.loops
      ensures Valid() <==> !ok
    {
      ok := w.Start(now);
    }
  }
}
