# Verified model of the xAILock lock library

A Dafny model of xAILock's two lock implementations, Redis and local, and of the machinery around them, with proofs that run over every interleaving, every operation list and every map order.

| Part | Files |
|---|---|
| The Redis keys, the fifteen scripts as atomic steps, and the clients of simple, fair and read/write locks as transition systems | `RedisCommands`, `RedisScripts`, `LockProtocol`, `RWProtocol` |
| The client handles on a shared server, with the polling loop of the fair lock under arbitrary interference | `RedisLocks`, `RedisRWLocks` |
| The number of shards and the shard of a key | `ShardIndex` |
| Local locks: states, lease and queue histories, the mutable objects, and runs of the objects | `LocalLocks`, `ShardedLocks`, `LocalRuns` |
| The sharded manager with its pools, reference counts and sweeper, and its refinement of a plain map for clients that keep the handle discipline | `ShardedManager`, `LocalClients` |
| Retrying with a deadline, watchdogs and their manager | `Retry`, `Watchdogs` |
| Concurrent maxima and shard load statistics | `ConcurrentMaximum`, `ShardLoads` |

`dafny verify dfyconfig.toml` checks everything.

## How to read the model

- Time is an integer clock that never goes back. A key, a lease and a local lock are live up to and including their deadline, as the strict `After` test of the code has it.
- Each script, and each method that holds a mutex from beginning to end, is one atomic step. So are `ReleaseLock`, with its decrement and the clean-up it may cause, `Unlock` of a local handle, with the release of its reference, and a sweep over all shards.
- A transition system keeps, beside the server's state, what the clients believe: leases, phases, arrival tickets, grants. `Next` is one step of anybody, a step that is not possible changes nothing, and `Run` is any list of steps.
- Methods that change objects state their whole new state through functions on values; the main results are lemmas about those functions. `LocalRuns.PlaySimple`, `LocalRuns.PlayFair` and `LocalClients.Replay` carry them back to the objects.
- In `ShardedManager` the invariant is stated about a value, the `Catalog`, that records every lock object and every shard at one moment.

## What the caller has to do

Holder values are fresh, one per attempt. A reader of a Redis read/write lock releases once, while its lease runs, and all readers use one TTL other than 0 (`RWProtocol.Careful` is the exact weaker condition). A local handle is not used after the unlock that gave its reference back, and no sweep runs while the only handle of some lock is idle (`LocalClients.Allowed`). A watchdog is not started again. With these the code does what it promises; the following are the cases where it does not.

## Findings

- `FairLockTryAcquireScript`: the second grant branch is unreachable, since the script has just seen the lock key exist.
- Extending a Redis lock is reported as a success even if the TTL is not positive, which deletes the lock. The lease goes on exactly for a positive TTL (`LockProtocol.ExtensionKeepsLease`, run: `LockProtocol.ExtensionByNothing`).
- A failed `TryLock` overwrites the value stored in a Redis handle; a handle that already holds the lock can then no longer release it (`RedisLocks.RetriedHandle`, run: `RedisLocks.LockedTwice`).
- A failed fair `TryLock` leaves its entry in the Redis queue although nobody waits for it (`RedisLocks.RedisFairLock.TryLock`).
- The reader counter does not know its readers. A newcomer with a shorter TTL or one that is not positive, and a release after the lease has lapsed, a second one, or one by somebody who never read, can let a writer in beside an active reader. `RWProtocol.CarefulExactly` says for every such step whether it makes that possible (runs: `RWProtocol.MixedTtlAdmitsWriter`, `RWProtocol.NegativeTtlAdmitsWriter`, `RWProtocol.LateReleaseAdmitsWriter`, `RWProtocol.DoubleReleaseAdmitsWriter`).
- The shard count loop never ends when a positive requested count has low 32 bits above 2^31 (`ShardIndex.DoublingEnds`, input: `ShardIndex.DoublingNeverEnds`).
- The sweeper takes a lock object away from an idle single handle, because a count of 1 counts as unused although every handle holds one reference. Two clients can then hold one key at once: exactly the handles for which this happens are given by `LocalClients.GrantedTwice`, and without such a handle a sweep changes no reply (`LocalClients.SafeToSweepExactly`, `LocalClients.ReplayAfterSweep`; smallest case: `LocalClients.UnusedHandleSwept`).
- The local `GetQueuePosition` looks up the value stored in the shared lock, not the caller's, and that value stays there after an unlock. `LocalLocks.PositionIsTheStoredValues` says when the caller gets its own position, as the comment promises; `LocalLocks.QueuedCallerIsNotFound` is a run in which the first in the queue of a free lock is told that it is not there.
- A free local fair lock with a queue grants nothing until the value of its head entry is tried again, and exactly then something (`LocalLocks.WaitsForTheHead`, run: `LocalLocks.FreeLockNotGranted`). `Lock` draws a new value for each attempt unless one is given. So once its first attempt is refused it never succeeds, and it keeps everybody who comes after it from the lock (`LocalLocks.RefusalBlocks`). A recycled lock can start with such a queue.
- Extending a local lock revives a lease exactly if it had run out unnoticed (`LocalLocks.ExtensionRevives`, run: `LocalLocks.LapsedLeaseRevived`).
- A watchdog interval of exactly 10 s chosen by the user is replaced by a third of the TTL (`Watchdogs.ApplyLockOptions`, input: `Watchdogs.TenSecondsOverridden`).
- A watchdog closes its completion signal once per loop, so a loop ends without a panic exactly if the watchdog was started once (`Watchdogs.Watchdog.LoopEnds`, `Watchdogs.StartAndEnd`, run: `Watchdogs.RestartedLoopPanics`).
- A watchdog whose context is cancelled goes on counting as running, so its key is not renewed and a new watchdog for it is refused (`Watchdogs.WatchdogManager.DesertedExactly`, run: `Watchdogs.WatchdogManager.CancelledKeyIsRefused`).
- The retry loop accepts an interval that is not positive. It still ends at its deadline, but the number of calls is then only bounded by the units of time until then, and that bound is reached (`Retry.BoundIsReached`).
- The statistic named a standard deviation is the sample variance: its square is the variance exactly if that is 0 or 1 (`ShardLoads.DeviationIsRootExactly`, input: `ShardLoads.DeviationIsNotTheRoot`).

## Model

| member | source | states |
|---|---|---|
| `RedisScripts.LockNode.SimpleAcquire` | redis_scripts.go:10-18 | The script grants exactly when no live lock key exists, and then sets value and deadline; otherwise it changes nothing |
| `RedisScripts.LockNode.SimpleRelease` | redis_scripts.go:21-29 | Deletes the lock exactly when the live key holds the value given; a late release changes nothing |
| `RedisScripts.LockNode.SimpleExtend` | redis_scripts.go:32-41 | Moves the deadline exactly when the live key holds the value; after an answer of 1 the value still holds the lock if and only if the TTL is positive |
| `RedisScripts.LockNode.SimpleStatus` | redis_scripts.go:44-54 | Existence and remaining time as Redis reports them |
| `RedisScripts.LockNode.FairTryAcquire` | redis_scripts.go:131-166 | A free lock is granted directly and the queue is left alone; otherwise the value is appended and the queue deadline restarts. The second grant branch (lines 153-162) is shown to be unreachable |
| `RedisScripts.LockNode.FairAcquire` | redis_scripts.go:169-194 | Grants for the TTL exactly when the value is at the head of the live queue and the lock is free, and takes that one entry off the queue, whose deadline stays; tells the two failures apart |
| `RedisScripts.LockNode.FairRelease` | redis_scripts.go:197-208 | Only the holder frees the lock, and every copy of its value leaves the queue |
| `RedisScripts.LockNode.FairExtend` | redis_scripts.go:211-220 | As for the simple lock, in milliseconds; here too an answer of 1 leaves the lock held if and only if the TTL is positive |
| `RedisScripts.LockNode.FairStatus` | redis_scripts.go:223-250 | Reports lock, remaining time, queue length and the first index of the value, -1 if it is absent or not given |
| `RedisScripts.LockNode.FairCleanup` | redis_scripts.go:253-257 | Removes every copy of the value, keeps the others in order, counts what it removed, and leaves the deadline |
| `RedisScripts.Position` | redis_scripts.go:238-247 | The position is the first index of the value, and -1 exactly if it is not queued |
| `RedisCommands.KeyLives` | redis_scripts.go:14 | A key set or extended for some time can be seen for exactly that long |
| `RedisCommands.Without` | redis_scripts.go:204 | Removing a value keeps exactly the other entries |
| `RedisScripts.RWNode.AcquireRead` | redis_scripts.go:59-69 | Counts a reader and restarts the one deadline of the counter exactly when no live writer exists |
| `RedisScripts.RWNode.ReleaseRead` | redis_scripts.go:72-86 | Takes one count off, or the whole key at the last one, leaving the deadline as it is; answers 0 without a live counter |
| `RedisScripts.RWNode.AcquireWrite` | redis_scripts.go:89-99 | Grants exactly when neither a live counter nor a live writer exists |
| `RedisScripts.RWNode.ReleaseWrite` | redis_scripts.go:102-110 | Deletes the writer key exactly when it holds the value |
| `RedisScripts.RWNode.Status` | redis_scripts.go:113-126 | Reader count and presence of a writer |
| `LockProtocol.RunKeepsInv` | redis_scripts.go:10-41 | Every interleaving of script steps, releases, extensions, time-outs and clock advances keeps: leases match the lock key, the queue is sorted by arrival, grants are sorted and precede the queue, every entry is waiting or was left by a failed TryLock |
| `LockProtocol.NextKeepsLeases` | redis_scripts.go:10-41 | One step keeps leases and lock key in agreement, in both directions |
| `LockProtocol.NextKeepsOrder` | redis_scripts.go:131-257 | One step keeps the queue and the grants in strictly increasing order of arrival, without duplicates |
| `LockProtocol.WithoutKeepsOrder` | redis_scripts.go:204 | Removal by value keeps the order of arrival |
| `LockProtocol.EnqueueKeepsOrder` | redis_scripts.go:148-149 | A push, onto a live or an expired queue, keeps the order of arrival |
| `LockProtocol.PopKeepsOrder` | redis_scripts.go:184-190 | A queue grant takes the entry that came first |
| `LockProtocol.LeaseExclusion` | redis_scripts.go:10-41 | In every reachable state a lease is running exactly if the server holds that value, so at most one client has one |
| `LockProtocol.Undisturbed` | redis_scripts.go:21-41 | No list of other clients' steps, late releases and extensions included, changes lease, value or deadline of a running lock |
| `LockProtocol.GrantLasts` | redis_scripts.go:10-194 | Whoever finds the lock free, and is at the head of the queue if it polls, holds the lock for exactly its TTL, whatever others do |
| `LockProtocol.ExtensionLasts` | redis_scripts.go:32-41 | An extended lock lasts for exactly the new TTL |
| `LockProtocol.ReleaseFrees` | redis_scripts.go:21-29 | A release frees the lock if and only if it is the holder's; a fair one takes the value off the queue, a simple one leaves the queue alone |
| `LockProtocol.ExtensionKeepsLease` | redis_scripts.go:32-41 | An extension that the server accepts keeps the lease running if and only if its TTL is positive; otherwise the lock is free |
| `LockProtocol.ExtensionByNothing` | redis_scripts.go:32-41 | A run in which an extension by 0 lets the next client in early |
| `LockProtocol.RunKeepsTickets` | redis_scripts.go:147-149 | Arrival tickets are never reassigned and later arrivals get larger ones |
| `LockProtocol.GrantsFollowArrivals` | redis_scripts.go:169-194 | Whoever joined first is granted first by the queue path, and nobody behind an entry is granted while it is queued |
| `LockProtocol.PollsAreRecorded` | redis_scripts.go:183-190 | The grants that are ordered and counted are exactly the polls that made a client the holder |
| `LockProtocol.NextKeepsWaiting` | redis_scripts.go:131-257 | An entry leaves the queue only by its owner's own poll, time-out or release, or when the whole queue expires |
| `LockProtocol.KeepsWaiting` | redis_scripts.go:131-257 | The same over every run |
| `LockProtocol.QueueRunsOut` | redis_scripts.go:149 | A queue whose deadline passes is empty |
| `LockProtocol.JoiningRestartsDeadline` | redis_scripts.go:148-149 | Joining puts the value at the end and restarts the deadline of the queue |
| `LockProtocol.NextBypass` | redis_scripts.go:131-208 | Position plus number of queue grants never grows for an entry that stays |
| `LockProtocol.BoundedBypass` | redis_scripts.go:131-208 | A queued client never moves back, and the queue path grants at most as many others as it moves up |
| `LockProtocol.RunRemembers` | redis_scripts.go:253-257 | A used value never re-enters the queue and only its owner's steps change its phase |
| `RedisLocks.RedisSimpleLock.TryLock` | redis_simple.go:32-43 | Grants exactly when the lock is free; the handle's value is overwritten either way |
| `RedisLocks.RedisSimpleLock.Unlock` | redis_simple.go:46-58 | Succeeds exactly when the server holds the handle's value, and never for a handle without an attempt; the whole system takes the release step |
| `RedisLocks.RedisSimpleLock.Extend` | redis_simple.go:61-69 | Succeeds exactly when the server holds the handle's value |
| `RedisLocks.RetriedHandle` | redis_simple.go:32-58 | Unlocking frees a lock granted to a handle exactly if the granted attempt was the handle's latest |
| `RedisLocks.LockedTwice` | redis_simple.go:32-58 | A handle that locks, tries again and unlocks: the lock stays held |
| `RedisLocks.RedisFairLock.Lock` | redis_fair.go:26-88 | Under any interference, with the configured times, or 30 s, 5 min and 10 s for those that are not positive: a free lock is taken at once; otherwise the value joins at the end of the queue for the queue TTL; success means the lock is set to this value for the lock TTL; a time-out means no lease is left and the time had passed; either way the value is off the queue; at most timeout / 50 ms + 2 polls, and that many at a time-out if nothing else takes time; the queue passes the lock to no more clients than stood in it |
| `RedisLocks.RedisFairLock.LockWithin` | redis_fair.go:45-87 | The same for given positive times |
| `RedisLocks.Attempted` | redis_fair.go:45-49 | The first script under a fresh value takes a free lock for its TTL, or joins the queue for the queue TTL |
| `RedisLocks.RedisFairLock.TryLock` | redis_fair.go:91-115 | Grants exactly when the lock is free, for the configured TTL or 30 s; a failed attempt leaves an entry at the end of the queue, which lasts for the configured time or 5 min |
| `RedisLocks.RedisFairLock.Unlock` | redis_fair.go:118-130 | Succeeds exactly when the server holds the value, and then purges the queue of it |
| `RedisLocks.RedisFairLock.Extend` | redis_fair.go:133-141 | Succeeds exactly when the server holds the value |
| `RedisLocks.RedisFairLock.GetQueuePosition` | redis_fair.go:190-206 | The first index of the handle's value in the queue |
| `RedisLocks.Joins` | redis_fair.go:45-58 | The first attempt wins a free lock, or joins at the end of the queue |
| `RedisLocks.PollWins` | redis_fair.go:62-71 | A poll that succeeds, after any wait, sets the lock for a full lease, empties the queue of the value, and was passed by no more clients than its first position |
| `RedisLocks.GivesUp` | redis_fair.go:79-83 | After the clean-up no trace of the value is left in queue or lock |
| `RWProtocol.NextKeepsInv` | redis_scripts.go:59-110 | A step of anybody, stray and repeated releases and any read TTL included, keeps the reader/writer invariant if and only if it is refused or careful: a newcomer neither shortens nor deletes the shared deadline, and a release without a running lease finds a spare count |
| `RWProtocol.ReadTryKeepsInv` | redis_scripts.go:59-69 | The exact condition for a read acquisition with any TTL |
| `RWProtocol.ReadReleaseKeepsInv` | redis_scripts.go:72-86 | The exact condition for a read release by anybody |
| `RWProtocol.CarefulExactly` | redis_scripts.go:59-110 | From the invariant, a step that is not refused is careful if and only if no continuation, careful from there on, puts a writer beside an active reader |
| `RWProtocol.CarelessTryAdmits` | redis_scripts.go:64-65 | After a newcomer that shortens the shared deadline, or deletes the counter, such a continuation exists: time passes and a writer comes |
| `RWProtocol.ShortCountAdmits` | redis_scripts.go:72-86 | With fewer counts than active readers one exists: readers leave in time until the counter is gone, and a writer comes |
| `RWProtocol.RunKeepsInv` | redis_scripts.go:59-110 | Every careful run keeps it: the counter is positive while it exists, at least the number of active readers, and outlives them |
| `RWProtocol.CarefulRunsAreExclusive` | redis_scripts.go:59-110 | At most one active writer, and no active reader beside one, in every state of a careful run |
| `RWProtocol.WriteLeaseLasts` | redis_scripts.go:89-99 | A write lease that is granted lasts for exactly its TTL over every run without its own release, both for the server and for the writer |
| `RWProtocol.ReadLeaseLasts` | redis_scripts.go:59-69 | A read lease that is granted lasts for exactly its TTL over every run without its own release |
| `RWProtocol.ReleasesEnd` | redis_scripts.go:72-110 | A release ends the lease of whoever releases, and the writer's frees the lock |
| `RWProtocol.OneTtlIsCareful` | redis_rw.go:38-67 | One TTL for all readers and one release per running lease is careful |
| `RWProtocol.ReadersWritersExclusion` | redis_rw.go:38-108 | Under that discipline readers and writers exclude each other in every reachable state |
| `RWProtocol.MixedTtlAdmitsWriter` | redis_scripts.go:64-65 | With different TTLs a run exists in which a writer is admitted beside an active reader |
| `RWProtocol.LateReleaseAdmitsWriter` | redis_scripts.go:72-86 | With one TTL, a release after the lease has lapsed lets a writer in beside an active reader |
| `RWProtocol.DoubleReleaseAdmitsWriter` | redis_scripts.go:72-86 | A run in which one reader releases twice and a writer gets in beside another |
| `RWProtocol.NegativeTtlAdmitsWriter` | redis_scripts.go:64-66 | A run in which a read acquisition with TTL -1 succeeds and a writer gets in beside an earlier reader |
| `RedisRWLocks.RedisRWLock.TryRLock` | redis_rw.go:38-50 | Grants exactly when no live writer exists; one more reader is counted, until the TTL from now |
| `RedisRWLocks.RedisRWLock.RUnlock` | redis_rw.go:53-67 | Succeeds exactly when the server still counts readers, whoever asks and however often |
| `RedisRWLocks.RedisRWLock.TryWLock` | redis_rw.go:78-91 | Grants exactly when no live reader count and no live writer exist, for the TTL given; the value is stored either way |
| `RedisRWLocks.RedisRWLock.WUnlock` | redis_rw.go:94-108 | Succeeds exactly when the server holds the stored value; a handle without an attempt changes nothing |
| `RedisRWLocks.RedisRWLock.GetReadCount` | redis_rw.go:111-130 | The live count, 0 without one |
| `RedisRWLocks.RedisRWLock.IsWriteLocked` | redis_rw.go:133-152 | True exactly while a live writer exists |
| `ShardIndex.DoublingEnds` | sharded_lock.go:43-51 | The doubling loop reaches the wanted count if and only if the requested count is not positive, and so replaced by 32, or its low 32 bits are at most 2^31 |
| `ShardIndex.DoublingReaches` | sharded_lock.go:48-51 | The same for the 32-bit number the loop compares with |
| `ShardIndex.DoublingNeverEnds` | sharded_lock.go:48-51 | For a requested count of 2^31 + 1 every candidate is too small |
| `ShardIndex.RoundUpShardCount` | sharded_lock.go:43-51 | For every such count the loop ends with the least power of two not below it: less than twice a count up to 2^31, and 32 for a count that is not positive |
| `ShardIndex.RoundedUp` | sharded_lock.go:43-51 | The least power of two is that close |
| `ShardIndex.CandidatesDouble` | sharded_lock.go:48-51 | Below 2^31 the shifted candidate is the exact power of two |
| `ShardIndex.CandidatesVanish` | sharded_lock.go:48-51 | After 32 shifts the candidate is 0 for ever |
| `ShardIndex.MaskIsRemainder` | sharded_lock.go:124 | Masking with 2^k - 1 is the remainder by 2^k |
| `ShardIndex.IndexInRange` | sharded_lock.go:118-136 | For every 32-bit hash the masked index is the remainder by the shard count, and in range |
| `LocalLocks.NextKeepsLeasesInOrder` | sharded_lock.go:276-362 | Each operation keeps the recorded leases in time order without overlap, also when expiry is noticed late |
| `LocalLocks.RunKeepsLeasesInOrder` | sharded_lock.go:276-362 | So does every run |
| `LocalLocks.LeasesDisjoint` | sharded_lock.go:276-362 | In any run from a free lock no instant is covered by two leases |
| `LocalLocks.LeaseLasts` | sharded_lock.go:276-299 | A lease that nobody unlocks or extends lasts for exactly its TTL, whoever tries meanwhile |
| `LocalLocks.ExtensionRevives` | sharded_lock.go:315-326 | An extension sets a lease running that was not if and only if it had run out unnoticed |
| `LocalLocks.LapsedLeaseRevived` | sharded_lock.go:315-326 | A run in which that happens |
| `LocalLocks.NoticingKeepsFifo` | sharded_lock.go:474-492 | Popping the holder on expiry or unlock keeps grants a prefix of arrivals |
| `LocalLocks.AttemptKeepsFifo` | sharded_lock.go:433-452 | An attempt joins the queue or serves its head |
| `LocalLocks.TryingKeepsFifo` | sharded_lock.go:415-455 | So does an attempt that first notices an expired lease |
| `LocalLocks.FirstComeFirstServed` | sharded_lock.go:415-513 | For every run, also with repeated values and unnoticed expiry, the grants are a prefix of the arrivals, the queue is the arrivals not yet served, and its head is the holder |
| `LocalLocks.FreeLockIsFifo` | sharded_lock.go:97-106 | The invariant holds from any free fair lock on, also one recycled with a queue left over |
| `LocalLocks.WaitsForTheHead` | sharded_lock.go:422-441 | A lock whose lease is over, noticed or not, grants something again if and only if the value that heads its queue, less the lapsed holder, is tried; with nobody queued, if and only if anybody tries |
| `LocalLocks.FreeWaitsForTheHead` | sharded_lock.go:436-441 | The case of a lock marked free with a queue |
| `LocalLocks.FreeForAnybody` | sharded_lock.go:436-452 | The case of a lock marked free with nobody queued |
| `LocalLocks.LapsedIsFree` | sharded_lock.go:422-428 | A lapsed lock that is not extended first behaves as if its expiry had been noticed at once |
| `LocalLocks.LapsedLockGranted` | sharded_lock.go:422-452 | A run in which the next attempt after an unnoticed expiry is granted |
| `LocalLocks.RefusalBlocks` | sharded_lock.go:421-441 | After a refused attempt, unless its value is tried again, only entries that came before it are ever granted, and no new value is |
| `LocalLocks.FreeLockNotGranted` | sharded_lock.go:436-441 | A run that leaves the lock free, with a queue, and refuses a newcomer |
| `LocalLocks.PlaceOf` | local_fair.go:67-83 | The place is the first one of the value, counted from 1, and missing exactly if the value is not queued |
| `LocalLocks.PositionIsTheStoredValues` | local_fair.go:67-83 | The reported position is that of the value stored in the shared lock; it is the caller's own if and only if that value is the caller's, or the lock is free and neither value is queued |
| `LocalLocks.QueuedCallerIsNotFound` | local_fair.go:71-82 | A run after which the first in the queue of a free lock is told it is not there |
| `ShardedLocks.ShardedLock.TryLock` | sharded_lock.go:276-299 | Refuses exactly while a lease runs; otherwise grants with a fresh deadline |
| `ShardedLocks.ShardedLock.Unlock` | sharded_lock.go:302-312 | Fails exactly on a lock marked free; asks for no holder |
| `ShardedLocks.ShardedLock.Extend` | sharded_lock.go:315-326 | Restarts the deadline of whatever lease is on record; a success met a lease that was not running if and only if it had run out unnoticed |
| `ShardedLocks.ShardedLock.IsLocked` | sharded_lock.go:329-344 | Answers whether a lease runs and marks an expired lock free |
| `ShardedLocks.ShardedLock.GetTTL` | sharded_lock.go:347-362 | The time left of a running lease; marks an expired lock free |
| `ShardedLocks.LockShard.NewLock` | sharded_lock.go:96-106 | Files a pooled or new object under the key, free, with one reference; a pooled one keeps its other fields and its data, and every other pooled object is left alone |
| `ShardedLocks.LockShard.Recycle` | sharded_lock.go:155-167 | Unfiles the object, resets everything but its data, and pools it once |
| `ShardedLocks.TryFairLock` | sharded_lock.go:415-455 | A lock whose lease is over is free and its holder off the queue; it is granted exactly to the head of the queue or, with nobody queued, to anybody, for the TTL; whoever is refused joins the queue |
| `ShardedLocks.UnlockFair` | sharded_lock.go:458-471 | Frees the lock and takes the holder off the queue |
| `ShardedLocks.IsLockedFair` | sharded_lock.go:474-492 | Notices expiry and takes the lapsed holder off the queue |
| `ShardedLocks.GetTTLFair` | sharded_lock.go:495-513 | The same for the remaining time |
| `ShardedLocks.GetQueuePosition` | local_fair.go:67-83 | Computes the position defined in LocalLocks |
| `LocalRuns.PlaySimple` | sharded_lock.go:276-362 | Any list of operations on a lock object grants leases that, read off its answers alone, are in time order and disjoint |
| `LocalRuns.PlayFair` | sharded_lock.go:415-513 | Any list of operations on a fair lock object grants in the order of arrival |
| `ShardedManager.ShardedLockManager.constructor` | sharded_lock.go:41-80 | A new manager is consistent, its shards are distinct, and their number is the least power of two |
| `ShardedManager.ShardedLockManager.GetShardIndex` | sharded_lock.go:129-136 | The index is the home of the key and in range |
| `ShardedManager.ShardedLockManager.GetShard` | sharded_lock.go:118-126 | Finds the shard at that index: the two agree |
| `ShardedManager.ShardedLockManager.GetLock` | sharded_lock.go:83-107 | One more reference to the entry of the key, or a new entry, free, with one reference, in the shard of the key; everything else as before; consistency is kept |
| `ShardedManager.ShardedLockManager.ReleaseLock` | sharded_lock.go:110-115 | One reference less, also through a stale handle; the last one takes the entry with it and pools the object cleared |
| `ShardedManager.ShardedLockManager.CleanupLock` | sharded_lock.go:139-168 | Drops an entry exactly when it is unreferenced, and only that |
| `ShardedManager.ShardedLockManager.PerformCleanup` | sharded_lock.go:188-226 | Over all shards, exactly the entries that are free or expired and referenced at most once are removed, cleared and pooled once; every other object and entry is untouched |
| `ShardedManager.ShardedLockManager.Collect` | sharded_lock.go:194-206 | Finds exactly the due locks of a shard, each once, in any order of its map |
| `ShardedManager.ShardedLockManager.SweepShard` | sharded_lock.go:192-224 | Sweeps exactly the due locks of one shard |
| `ShardedManager.ShardedLockManager.AddingKeepsConsistent` | sharded_lock.go:96-106 | Filing a pooled object keeps: mapped exactly when shard is set and referenced, under its own key, in the shard of its key, one object per key, pools disjoint from maps |
| `ShardedManager.ShardedLockManager.DroppingKeepsConsistent` | sharded_lock.go:155-167 | So does dropping an unreferenced entry |
| `ShardedManager.ShardedLockManager.ReleasingKeepsConsistent` | sharded_lock.go:110-168 | So does giving back a reference |
| `ShardedManager.ShardedLockManager.RestatingKeepsConsistent` | sharded_lock.go:276-326 | Locking and unlocking objects does not concern the manager |
| `ShardedManager.ShardedLockManager.EntriesAreDistinct` | sharded_lock.go:104 | An object that is not filed is the entry of no key |
| `LocalClients.LocalSimpleLock.Create` | local_simple.go:16-26 | A handle holds one reference to the one object of its key |
| `LocalClients.LocalSimpleLock.TryLock` | local_simple.go:34-36 | Changes the state of that object and nothing else in the manager |
| `LocalClients.LocalSimpleLock.Extend` | local_simple.go:49-51 | The same for an extension |
| `LocalClients.LocalSimpleLock.IsLocked` | local_simple.go:54-56 | The same for a look at the lock |
| `LocalClients.LocalSimpleLock.GetTTL` | local_simple.go:59-61 | The time left, if a lease runs; the same for the rest of the manager |
| `LocalClients.LocalSimpleLock.Unlock` | local_simple.go:39-46 | Gives the reference back exactly if the unlock succeeded |
| `LocalClients.Perform` | sharded_lock.go:83-226 | One allowed client operation on the manager answers as the plain map from key to lock does, and keeps: refCount is the number of open handles, and open handles of a key share its object |
| `LocalClients.Replay` | sharded_lock.go:83-226 | Refinement: for every allowed list of operations, with sharding, pooling and sweeping, all replies are those of the plain map |
| `LocalClients.ReplayFrom` | sharded_lock.go:83-226 | The same from any state in which the manager stands for a plain map |
| `LocalClients.ReplayAfterSweep` | sharded_lock.go:188-226 | After a safe sweep all replies to any allowed list of operations are those of the plain map |
| `LocalClients.GrantedTwice` | sharded_lock.go:202-223 | After any sweep, an attempt through a handle and one through a new handle of its key both succeed if and only if the handle was the only open one of its key and not held; the plain map always refuses the second |
| `LocalClients.SafeToSweepExactly` | sharded_lock.go:202-205 | A sweep is safe if and only if there is no such handle |
| `LocalClients.UnusedHandleSwept` | sharded_lock.go:202-223 | The smallest case: one unused handle, a sweep, and two clients that hold the key at once |
| `LocalClients.ExclusionOverRuns` | local_simple.go:29-56 | In any allowed run, between two successful attempts on a key the lease of the first has run out or the lock has been given back |
| `LocalClients.PlainLeaseLasts` | local_simple.go:29-56 | In the plain map an attempt on a lock that is not held succeeds, and the lease runs for exactly its TTL unless a handle of the key releases or renews it |
| `LocalClients.LinkedAfterNew` | sharded_lock.go:83-107 | Getting a lock keeps that correspondence |
| `LocalClients.LinkedAfterRelease` | sharded_lock.go:110-168 | Giving back a reference keeps it, also when it was the last |
| `LocalClients.LinkedAfterSweep` | sharded_lock.go:188-226 | A sweep keeps it if and only if every lock with a single open handle is held by a running lease |
| `LocalClients.PlainExcludes` | local_simple.go:29-56 | In the plain map no attempt succeeds while a lease runs, and keys do not affect one another |
| `Retry.RetryWithTimeout` | lock.go:815-844 | Ends; stops at the first attempt that is cancelled or too late or does not fail, and says which; success and error carry the result of that call; makes at most timeout / interval + 1 calls, or timeout + 1 with no positive interval |
| `Retry.BoundIsReached` | lock.go:819-843 | For every timeout and interval an operation exists that is called exactly as often as that bound allows |
| `Retry.TimePasses` | lock.go:841-842 | After n failed attempts at least n intervals have passed, or n units of time with no positive interval |
| `Retry.InTime` | lock.go:829-831 | An attempt that starts in time is one of those the bound allows |
| `Watchdogs.ApplyLockOptions` | lock.go:379-403 | The last option counts; a chosen interval is used if and only if it is not the default one, or a third of the TTL equals it |
| `Watchdogs.LastOptionCounts` | lock.go:380-394 | The last option of a kind is the one chosen, the default applies without one |
| `Watchdogs.TenSecondsOverridden` | lock.go:398-400 | 10 s chosen for a lock of 60 s become 20 s |
| `Watchdogs.ToleratesExactly` | lock.go:396-400 | At a third of the TTL, two missed renewals in a row are covered for every TTL of at least 3; three only for 4, 5 and 8, four only for 5 |
| `Watchdogs.DeadlineAfter` | watchdog.go:130-135 | After k ticks the lock has the deadline of the last renewal that took effect |
| `Watchdogs.KeptAliveExactly` | watchdog.go:110-127 | The lock is held at every instant if and only if no gap between effective renewals exceeds the TTL |
| `Watchdogs.OneInThreeKeepsAlive` | watchdog.go:110-127 | At a third of the TTL, one effective renewal in any three keeps the lock held at every instant |
| `Watchdogs.LastRenewal` | watchdog.go:130-135 | The latest effective tick so far |
| `Watchdogs.Watchdog.Start` | watchdog.go:53-76 | Starts exactly if not running, with fresh statistics and one more loop, but with the old completion signal |
| `Watchdogs.Watchdog.Stop` | watchdog.go:79-95 | Fails exactly if not running; waits for the end of the first loop and for no other |
| `Watchdogs.Watchdog.LoopEnds` | watchdog.go:110-111 | Closing the completion signal succeeds if and only if the watchdog was started once; later loops panic |
| `Watchdogs.StartAndEnd` | watchdog.go:53-76 | The loop of a start ends well if and only if the watchdog was never started before |
| `Watchdogs.RestartedLoopPanics` | watchdog.go:110-111 | A watchdog that is started, stopped and started again: its second loop panics |
| `Watchdogs.Watchdog.PerformExtend` | watchdog.go:130-157 | Renews the lock if it can be reached and counts the outcome |
| `Watchdogs.Watchdog.WatchdogLoop` | watchdog.go:110-127 | The loop leaves the lock as the renewals say, counts each tick once, and the lock was expired meanwhile exactly if it was not kept alive |
| `Watchdogs.WatchdogManager.StartWatchdog` | watchdog.go:172-196 | Refuses exactly while the stored watchdog of the key runs; otherwise stores a new running one |
| `Watchdogs.WatchdogManager.StopWatchdog` | watchdog.go:199-215 | Stops and forgets a running watchdog; one that was stopped by hand stays stored and is an error |
| `Watchdogs.WatchdogManager.StopAll` | watchdog.go:227-240 | In any order of the map: nothing stored, nothing created still running, every loop ended, and an error exactly if one had been stopped before |
| `Watchdogs.WatchdogManager.OneRenewerPerKey` | watchdog.go:172-196 | Two watchdogs of one key whose loops have not ended are the same one, with one loop |
| `Watchdogs.WatchdogManager.StopByHand` | watchdog.go:79-95 | Stopping a watchdog directly keeps the manager's invariant |
| `Watchdogs.WatchdogManager.CancelByHand` | watchdog.go:110-120 | The end of a loop whose context is cancelled never panics while nothing is restarted by hand; the watchdog goes on counting as running |
| `Watchdogs.WatchdogManager.DesertedExactly` | watchdog.go:117-119 | A watchdog counts as running without a loop if and only if its loop ended by itself |
| `Watchdogs.WatchdogManager.CancelledKeyIsRefused` | watchdog.go:179-183 | After that no loop renews its key, and starting a new watchdog for it is refused |
| `Watchdogs.WatchdogManager.StartByHand` | watchdog.go:53-76 | Restarting a watchdog directly keeps the invariant if and only if it is refused; if it works, the new loop is bound to panic |
| `ConcurrentMaximum.NextKeepsInv` | metrics.go:333-346 | Every atomic step keeps the invariant and never lowers the maximum |
| `ConcurrentMaximum.RunKeepsInv` | metrics.go:349-360 | So does every interleaving |
| `ConcurrentMaximum.SwapKeepsInv` | metrics.go:342-344 | A successful swap raises the maximum |
| `ConcurrentMaximum.FailureMeansProgress` | metrics.go:342-344 | A swap fails if and only if another recorder's swap succeeded since the load |
| `ConcurrentMaximum.MaximumOfAllRecorded` | metrics.go:333-360 | The maximum is 0 or a value some call was given, at least every value whose call has returned, and when all have returned at least every value given |
| `ConcurrentMaximum.RecordersHoldTheirValues` | metrics.go:333-360 | There is one recorder for each call, with the value it was given |
| `ConcurrentMaximum.ReturnsAlone` | metrics.go:337-345 | A call left to itself returns within one more round |
| `ConcurrentMaximum.FailuresBounded` | metrics.go:337-345 | Each loop loses fewer races than there are recorders, whatever the interleaving |
| `ShardLoads.Aggregate` | metrics.go:583-616 | In any order of the map: minimum and maximum are attained bounds, and the deviation is the two-pass sample variance |
| `ShardLoads.DeviationIsRootExactly` | metrics.go:608-616 | The variance, reported as the deviation, is its own root if and only if it is 0 or 1 |
| `ShardLoads.DeviationIsNotTheRoot` | metrics.go:608-616 | For loads 0 and 2 the deviation reported is 2, whose square is not the variance |
| `ShardLoads.OnePassIsSampleVariance` | metrics.go:608-616 | The one-pass expression equals the two-pass sample variance, is never negative, and is zero if and only if all loads are equal |
| `ShardLoads.MeanIsClosest` | metrics.go:610-611 | The spread about the mean is the sum of squares less sum times mean, and no other centre has a smaller one |
| `ShardLoads.SpreadAbout` | metrics.go:602-603 | The spread about any centre follows from the sum and the sum of squares |
| `ShardLoads.SumFrom` | metrics.go:589-604 | A sum over the map does not depend on the order of its keys |
| `ShardLoads.SpreadZeroExactly` | metrics.go:610-611 | A spread is never negative and zero exactly if every load is the centre |

## Left out

- Network and transport errors, reply decoding, Redis Cluster, and script errors for a non-positive TTL of `SET`: TTLs that reach a `SET` are positive here.
- Fractional seconds and the rounding of TTLs: deadlines are whole units.
- Generation of holder values: they are parameters, assumed fresh.
- RedisLocks.RedisFairLock.Lock: no context cancellation and no failing script call; the code leaves its queue entry behind when a call fails.
- RedisLocks.RedisFairLock.Lock: nothing is promised about who gets the lock when, because an abandoned `TryLock` entry can stand at the head of the queue until the queue expires.
- LockProtocol.GrantsFollowArrivals: only grants of the queue path are ordered; a newcomer takes a free lock directly (`redis_scripts.go` lines 141-145).
- Fine-grained interleaving inside `ReleaseLock`, between the atomic decrement and the clean-up under the mutex.
- ShardedManager.ShardedLockManager.PerformCleanup: the code unlocks each shard before it locks the next, and compares with one time taken at the start; what other clients do in between is not modelled (each shard's sweep by itself is `SweepShard`, for any time).
- LocalClients.LocalSimpleLock.Unlock: the unlock and the release of the reference are two steps in the code; a sweep between them, after which the late release meets an object filed under another key, is not modelled.
- The 32-bit wrap-around of reference counts.
- The FNV hash: any function from keys to 32-bit numbers.
- Objects that the runtime drops from a `sync.Pool`; pools here only lose what they hand out.
- The data of recycled objects: clean-up does not reset it, so a recycled fair or read/write lock starts with what was left in it (`LocalLocks.FreeLockIsFifo` covers the queue).
- LocalClients.Replay: handles of the local simple lock only; fair and read/write handles go through the same manager.
- The local read/write lock: acquiring for writing never looks at the reader count, so there is no exclusion to prove.
- Owner checks of local unlocks: the code makes none.
- Retry.RetryWithTimeout: with no positive interval, the clock is taken to move by at least one unit during each attempt; `RetryLockOperation` and the retry configuration only wrap it.
- Watchdogs.Watchdog.WatchdogLoop: ticks are exact and nobody else changes the lock meanwhile; the renewal time-out is not modelled.
- Watchdogs.Watchdog.Stop: goroutines and channels are reduced to the order of events: starts, ends of loops, and the closing of the completion signal.
- The fields of the configuration other than TTL and watchdog interval, option setters, `Validate` and `Clone`.
- ShardLoads.Aggregate: exact reals instead of floating point.
- ConcurrentMaximum.MaximumOfAllRecorded: no reset of the metrics while recorders run.
- Counters, timings, memory and goroutine gauges, `GetStats` of the manager, structured errors, factories and metrics wrappers.
- Starvation freedom: only safety and bounded bypass are proved, and for the local fair lock when nobody is served any more.
