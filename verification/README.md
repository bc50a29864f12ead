# A model of the hybrid auth-state storage

The library keeps the rows of a chat session (credentials and signal keys) in a
database and serves them through an in-memory L1 cache and an optional Redis L2.
Around that sit a debounced write batcher, a Redis lease lock, age-based pruning,
a worker thread for SQLite, and a path-based layout for the Firebase Realtime
Database. This project models those parts and proves what they keep over all runs,
and, where they do not keep something, exactly when.

`dafny verify dfyconfig.toml` checks everything.

## How the model is laid out

| modules | what they are |
|---|---|
| `MemoryCache`, `LruInclusion` | the L1 cache as a class over an insertion-ordered map; whole traces of it |
| `Records`, `CacheKeys`, `CacheManager` | stored rows; cache keys; the three-level `get`, `getMany`, `onWritten`, `onDeleted` when calls do not overlap |
| `StorageProtocol`, `Provenance`, `Coherence` | every interleaving of reads and writes by any number of instances, as a step system; what holds in all its runs |
| `L1Simulation`, `ManagerSimulation` | the calls of the real L1 and of the cache manager (`get`, `getMany`, `onWritten`, `onDeleted`, `clearSession`, `clearAll`) are runs of that step system |
| `RedisLock`, `LockedWrites` | the lease lock as a step system; lock and storage side by side |
| `WriteBatcher`, `WriteDurability` | the batcher as a class and as a step system with its queue; when a resolved write is stored |
| `SqliteWorker`, `SqliteRpc` | the table and its operations; request/response correlation with the worker |
| `Categories`, `Retention`, `AuthState`, `AuthSession`, `Backup` | key names, pruning, the auth state seen by the bot, export and import |
| `RtdbKeys`, `RtdbRetention`, `Retry` | path segments of the Realtime Database; pruning over them; retry loop |

Code that changes state step by step is a class with methods; each method is proved
equal to a function of the old state (`AfterSet`, `GetOutcome`, `AfterFlushNow`, `Exec`, ...),
and the theorems say what these functions mean, in terms of contents and answers, and what
holds over runs of them. Code between two
awaits is one step, because the program is single-threaded.

### What the storage protocol allows

Reads, writes and messages of any number of instances interleave freely. The rows of
a batch reach the database one at a time, in any order. A database call may fail
before any row lands. L1 entries may vanish at any time (expiry, eviction, sweeps,
cleared sessions), L2 entries may vanish at any time, and a read may go to the
database even if L2 has the entry. Other processes may write the database
(`External`; `deleteSession`, `importSession` and a prune are such writes followed
by a loss of L1 entries). Redis writes and publishes may fail. Each instance
receives invalidations in order. A deletion is a write whose rows have no value.
`seenAt`, `landed` and `overlapped` are bookkeeping for the theorems.

### What each run-level theorem assumes

* `Provenance`: no session id begins with another one and a colon (`SessionIds`); colons
  elsewhere do no harm. Among any other ids the claim fails (`SeparateIsNeeded`). Bounded
  staleness is for runs without Redis and takes as `d` a bound on the time from a
  database call to its L1 entry.
* `Coherence` (TCP mode): session ids as above, writes of one session are serialised,
  every instance is subscribed from the start, nobody writes the database outside the
  locked write path, and no backfill is late. A Redis write may fail if Redis has no entry
  of the row, a publication if no instance holds an entry that differs from the database
  (other than one whose invalidation is under way), and a backfill of Redis always. A
  backfill is late for L1 if a write of its row overlapped the read, no landed write of the
  row is still unpublished, and the instance has no invalidation of it to come; for L2, if a
  write overlapped it and none is still on its way to L2. A write overlaps a read if it
  lands after the read took its value, or if it had landed and reaches L2 after the read
  took the older value from there. A late backfill is harmless only if the two values
  happen to be equal (`LateFillIsStale`), and the code allows it from every state
  (`Coherence.LateBackfillLeavesStaleEntry`). `LockedWrites` replaces serialisation by: writes run
  inside their session's lock and no section outlives its lease. From every state in which
  one has, two sections can overlap (`RedisLock.SlowSectionsOverlap`).
* `WriteBatcher`: hand-over, draining and the account of promises hold with failing flushes;
  last-write-wins and settlement of every promise are for runs in which no flush fails.
* `WriteDurability`: nothing; it gives the exact condition under which a resolved write is
  stored, whatever fails.
* `SqliteRpc`: linearizability is for runs without a worker error; at-most-once
  settlement holds in all runs.
* `AuthState`: no Redis, calls that do not overlap, and a store that lists keys as they
  are. Names given to `keys.set` and `keys.get` have known categories, are not
  `sender-key` with an id that begins with `memory-`, and occur once per call; imports
  may hold any strings under any keys, and imports, deletions, prunes and cache clears may
  name any session. `decode` undoes `encode`, which never yields the empty string. No
  condition on session ids is needed, because only one session's values are compared.

### Where the code and its comments disagree

* `write` "resolves once that value has actually been flushed" (src/utils/write-batcher.ts:30):
  with flushes that may fail that is so exactly if no unstarted task waits in the queue when
  `write` is called (`WriteDurability.ResolvedMeansStored`). Otherwise that task can take
  the value and fail, and the task that owns the promise then finds nothing to flush.
* In HTTP mode a version check is meant to detect other instances' writes
  (src/cache/cache-manager.ts:55-57). Writes take the clock as their version
  (src/factory.ts:74, src/factory.ts:170), so a newer value can hide behind an equal version:
  `CacheManager.HttpGetIsPriorityRead` gives the exact condition and
  `CacheManager.SameMillisecondHidesWrite` two writes that meet it.
* `deleteSession` leaves Redis untouched (src/session-manager.ts:90-94): a deleted row
  can be read again, exactly when Redis still has it (`CacheManager.DeletedSessionRead`).
* Escaping is said to make any id round-trip (src/adapters/firebase-realtime-adapter.ts:26-29):
  it does exactly if the id nowhere holds a tilde, one of the six codes, and then a tilde or
  a forbidden character (`RtdbKeys.RoundTrip`). So `a~b` does, `a~46~b` and `~46.` do not,
  and each id that does not shares its segment with one that does (`RtdbKeys.SharedSegment`).
* A prune over the Realtime Database passes escaped segments to the cache
  (src/adapters/firebase-realtime-adapter.ts:131-136, src/retention.ts:117): a pruned key that
  needed escaping stays readable from L1 and Redis (`RtdbRetention.PrunedRowRead`).
* A session id that begins with another one and a colon shares its cache keys
  (src/cache/cache-manager.ts:4, `CacheKeys.SessionsShareKeys`).
* An empty key at the front stops eviction (src/cache/memory-cache.ts:124-126), so the limits
  hold exactly when no empty key is in the evicted prefix (`MemoryCache.EvictIsMinimal`).
* `sender-key` with id `memory-x` and `sender-key-memory` with id `x` share a row
  (`Categories.AmbiguousCollision`).
* The batched read says it is used by `keys.get` (src/cache/cache-manager.ts:88); `keys.get`
  calls the single read once per id (src/factory.ts:120-123), and that is what the model does.

## Model

| member | source | states |
|---|---|---|
| `MemoryCache.Cache.Get` | src/cache/memory-cache.ts:47-64 | answers a live entry and makes it the most recently used one, drops an expired one; the expiry is never renewed and the byte count stays the sum of the sizes |
| `MemoryCache.Cache.Set` | src/cache/memory-cache.ts:66-78 | new slot at the end with a fresh expiry, then eviction; byte count kept exact |
| `MemoryCache.Cache.Delete` | src/cache/memory-cache.ts:80-86 | removes one key and exactly its bytes |
| `MemoryCache.Cache.DeleteByPrefix` | src/cache/memory-cache.ts:89-95 | deleting while iterating removes exactly the keys with the prefix |
| `MemoryCache.Cache.Clear` | src/cache/memory-cache.ts:97-100 | empties the cache and its byte count |
| `MemoryCache.Cache.Destroy` | src/cache/memory-cache.ts:111-118 | stops the sweep and empties the cache |
| `MemoryCache.Cache.EvictIfNeeded` | src/cache/memory-cache.ts:120-130 | the loop computes `Evict` and keeps the byte count exact |
| `MemoryCache.Cache.SweepExpired` | src/cache/memory-cache.ts:132-139 | removes exactly the expired entries |
| `MemoryCache.BytesWithout` | src/cache/memory-cache.ts:80-86 | removing a key frees exactly the size stored for it |
| `MemoryCache.EvictIsMinimal` | src/cache/memory-cache.ts:120-130 | eviction removes exactly the shortest oldest-first prefix that makes the rest fit, if and only if no key of it is empty; the limits hold afterwards under the same condition |
| `MemoryCache.EmptyKeyBlocksEviction` | src/cache/memory-cache.ts:124-126 | with an empty key in front an over-full cache stays over-full |
| `MemoryCache.SetOutcome` | src/cache/memory-cache.ts:66-78 | after a `set` both limits hold, and the new key survives if and only if its size is within the byte budget and an entry is allowed |
| `MemoryCache.SetLookup` | src/cache/memory-cache.ts:66-78 | after a `set` each key is gone, or has its old entry, or is the new key with the new entry |
| `MemoryCache.GetLookup` | src/cache/memory-cache.ts:47-64 | a `get` changes no mapping except dropping the expired entry it met |
| `MemoryCache.SetThenGet` | src/cache/memory-cache.ts:47-78 | after a `set` the value and version are found until the lifetime is over, if and only if they fit by themselves |
| `MemoryCache.RemovalsAreExact` | src/cache/memory-cache.ts:80-139 | deleting, clearing a prefix and sweeping remove exactly their keys and keep all other entries |
| `MemoryCache.Utf8Bounds` | src/cache/memory-cache.ts:73 | one to four bytes a character, and one each exactly for ASCII |
| `MemoryCache.Utf8Examples` | src/cache/memory-cache.ts:73 | the limits of the four ranges of UTF-8 |
| `LruInclusion.Perform` | src/cache/memory-cache.ts:47-139 | the class performs a step of a trace, for each operation |
| `LruInclusion.LimitsHold` | src/cache/memory-cache.ts:66-139 | on every trace without empty keys, keys stay distinct and both limits hold |
| `LruInclusion.OrderedByUse` | src/cache/memory-cache.ts:59-61 | on every trace the entries stand in the order of the last `set` or live `get` of their keys |
| `LruInclusion.EvictsLeastRecentlyUsed` | src/cache/memory-cache.ts:120-130 | when a `set` evicts a key, every key that is left was used later |
| `LruInclusion.Inclusion` | src/cache/memory-cache.ts:47-139 | two caches differing in `maxEntries`, same trace, byte budget never binding: the smaller stays a subsequence of the larger, with equal entries |
| `LruInclusion.HitsAreMonotone` | src/cache/memory-cache.ts:47-64 | raising `maxEntries` never turns a hit into a miss or changes its answer |
| `CacheKeys.SessionsShareKeys` | src/cache/cache-manager.ts:4 | two sessions have a cache key in common if and only if one id begins with the other and a colon |
| `CacheKeys.CacheKeysAreExact` | src/cache/cache-manager.ts:4 | among some sessions each cache key names one row if and only if no id begins with another one and a colon |
| `CacheKeys.SeparateFamilies` | src/cache/cache-manager.ts:4 | colon-free ids, and ids of one length, meet that condition |
| `CacheKeys.SessionPrefix` | src/cache/cache-manager.ts:142-144 | among such sessions the session prefix selects exactly that session's cache keys |
| `CacheKeys.NestedSessionsShare` | src/cache/cache-manager.ts:4 | every row of session `a:x` has the cache key of a row of session `a` |
| `CacheManager.FailingRedisIsNone` | src/cache/cache-manager.ts:155-183 | while no Redis request succeeds a read answers, and leaves the caches, exactly as without Redis |
| `CacheManager.Manager.SafeL2Set` | src/cache/cache-manager.ts:171-183 | a failing Redis write changes nothing and is swallowed |
| `CacheManager.Manager.Read` | src/cache/cache-manager.ts:49-86 | performs the three-level read, all modes and Redis failures included; what that read answers and leaves is in the next two rows |
| `CacheManager.ReadIsPriority` | src/cache/cache-manager.ts:49-86 | in every mode and with any Redis failures: a live L1 value that Redis does not contradict, else what Redis returns, else the row |
| `CacheManager.ReadLeaves` | src/cache/cache-manager.ts:52-85 | an L1 answer only touches its entry; a Redis answer leaves Redis alone and its value and version in L1; a row goes to both levels; nothing found leaves nothing |
| `CacheManager.Manager.ReadHits` | src/cache/cache-manager.ts:90-101 | live L1 entries answer except in HTTP mode; everything else is a miss; L1 is touched key by key |
| `CacheManager.Manager.ReadMany` | src/cache/cache-manager.ts:89-116 | answers each key from L1 or else from the database, never from Redis, and backfills both levels in the database's order |
| `CacheManager.Manager.Backfill` | src/cache/cache-manager.ts:107-115 | each row found goes to L1, to Redis and into the answer |
| `CacheManager.BackfilledLookup` | src/cache/cache-manager.ts:107-113 | after it, each listed row is in Redis unless that write failed and in L1 unless evicted; all else is as before |
| `CacheManager.BatchAnswerIs` | src/cache/cache-manager.ts:93-113 | a batched answer is a live L1 value outside HTTP mode, else the row |
| `CacheManager.TouchedLast` | src/cache/cache-manager.ts:93-101 | a live key looked at last is the most recently used one |
| `CacheManager.Manager.OnWritten` | src/cache/cache-manager.ts:119-130 | L1, then Redis, then (TCP) one published invalidation; either Redis request may fail |
| `CacheManager.Manager.OnDeleted` | src/cache/cache-manager.ts:132-140 | removes the key from L1 and Redis and (TCP) publishes it; either Redis request may fail |
| `CacheManager.WrittenIsRead` | src/cache/cache-manager.ts:119-130 | after `onWritten` every read gives the value, in every mode, unless the write to Redis failed over an older entry |
| `CacheManager.DeletedIsGone` | src/cache/cache-manager.ts:132-140 | after `onDeleted` a read finds nothing if and only if Redis was reached or has nothing to answer |
| `CacheManager.UpdateFrame` | src/cache/cache-manager.ts:119-140 | neither changes anything for another key |
| `CacheManager.Manager.ClearSession` | src/cache/cache-manager.ts:142-144 | drops the session's entries from L1 only |
| `CacheManager.Manager.ClearAll` | src/cache/cache-manager.ts:146-148 | empties L1 |
| `CacheManager.HttpGetIsPriorityRead` | src/cache/cache-manager.ts:52-85 | in HTTP mode with Redis answering, `get` answers as "L2, else live L1, else database" if and only if L1 and L2 do not hold different values under one version |
| `CacheManager.SameMillisecondHidesWrite` | src/factory.ts:167-170 | after two instances wrote a row in one millisecond, the first one answers its older value for as long as its L1 entry lives, although Redis and the database hold the newer |
| `CacheManager.HttpGetBackfills` | src/cache/cache-manager.ts:77-85 | a read that reached the database leaves its row in both levels, up to eviction |
| `CacheManager.GetFrame` | src/cache/cache-manager.ts:49-86 | a read affects no other key, in any mode and with any Redis failures |
| `CacheManager.DeletedSessionRead` | src/session-manager.ts:90-94 | after `deleteSession` a read finds nothing if and only if Redis had no entry |
| `Provenance.NoThinAir` | src/cache/cache-manager.ts:49-130 | over all interleavings, failures and foreign writes among separate sessions, every cached entry and every answer was an earlier database value of that same row |
| `Provenance.NestedSessionsMixRows` | src/cache/cache-manager.ts:4 | for every `a`, `x` and key, two steps cache a row of session `a:x` under the cache key of a row of `a` that never existed |
| `Provenance.NestedSessionsMisread` | src/cache/cache-manager.ts:69-75 | with Redis, session `a` reads what session `a:x` left there as a row of its own that never existed |
| `Provenance.SeparateIsNeeded` | src/cache/cache-manager.ts:4 | among any sessions that are not separate some run caches a value out of thin air, and with Redis some read answers with one |
| `Provenance.EntriesExpire` | src/cache/memory-cache.ts:53-74 | an L1 entry expires at most one lifetime plus the delay after the database held its value |
| `Provenance.BoundedStaleness` | src/cache/cache-manager.ts:77-86 | without Redis, a hit at t was the database's value later than t - ttl - d, a miss no earlier than t - d, whatever runs meanwhile |
| `Coherence.StepKeepsInv` | src/cache/cache-manager.ts:38-140 | each step of the protocol, under the stated conditions, keeps the coherence invariant |
| `StorageProtocol.EnvironmentIsFree` | src/cache/cache-manager.ts:6-19 | time, losses of Redis entries and foreign writes may come at any moment and do just that |
| `StorageProtocol.FailedWriteLeavesNothing` | src/factory.ts:169 | a write that fails before any row landed leaves no trace |
| `Coherence.AlwaysCoherent` | src/cache/cache-manager.ts:38-140 | in every reachable state an L1 entry is the database's row unless a landed write of it is unpublished or the instance has its invalidation undelivered; an L2 entry unless a landed write of it has not reached L2 |
| `Coherence.SettledMeansEqual` | src/factory.ts:167-179 | with no open write and no undelivered message all levels agree with the database |
| `Coherence.LateFillIsStale` | src/cache/cache-manager.ts:77-82 | a late backfill makes its L1 entry incoherent if and only if its value is no longer the database's |
| `Coherence.LateL2FillIsStale` | src/cache/cache-manager.ts:83 | the same for L2 |
| `Coherence.LateBackfillLeavesStaleEntry` | src/cache/cache-manager.ts:77-83 | from every state a disciplined run reaches, an instance without messages and a row without open writes allow a run in which only the last step, a late backfill, breaks a condition; the write and its message are done with and L1 holds the old value |
| `L1Simulation.SetIsWriteThenShrink` | src/cache/memory-cache.ts:66-78 | the real `set` is the protocol's write followed by a loss of entries |
| `L1Simulation.GetIsShrink` | src/cache/memory-cache.ts:47-64 | the real `get` is at most a loss of entries, and hits exactly when the protocol's entry is live, with its value |
| `L1Simulation.FilterIsShrink` | src/cache/memory-cache.ts:80-139 | deletes, prefix deletes and sweeps are losses of entries |
| `ManagerSimulation.ReadIsRun` | src/cache/cache-manager.ts:49-86 | a read that nothing interrupts is a run of the step system, in every mode and with any Redis failures, with the same answer and the same levels |
| `ManagerSimulation.ReadManyIsRun` | src/cache/cache-manager.ts:89-116 | the same for a batched read: the L1 hits and then the listed rows, each with its value |
| `ManagerSimulation.ClearIsRun` | src/cache/cache-manager.ts:142-148 | the same for `clearSession` and `clearAll` |
| `ManagerSimulation.LandingIsRun` | src/factory.ts:169-176 | a row of a batch that reaches the database is one step |
| `ManagerSimulation.UpdateIsRun` | src/cache/cache-manager.ts:119-140 | `onWritten` or `onDeleted` of a landed row is a run of the step system, with the same levels and messages, after which nothing is left to do for the row |
| `LockedWrites.BeginInsideLockIsDisciplined` | src/factory.ts:168 | a write that begins inside its lock finds no other open write of its session |
| `LockedWrites.SessionsLockApart` | src/lock/redis-lock.ts:44 | different sessions have different locks |
| `LockedWrites.OnlyWritesWait` | src/factory.ts:168 | only a write waits, for its lock, and only a lock call, for its write |
| `LockedWrites.LockedRunsAreCoherent` | src/factory.ts:167-179 | lock and storage side by side: if no section outlives its lease, coherence holds in every state and writes of a session never overlap |
| `RedisLock.Acquire` | src/lock/redis-lock.ts:46-59 | acquires at the first accepted SET or gives up after the deadline, within ceil(maxWait / 50) + 1 attempts |
| `RedisLock.StepKeepsInv` | src/lock/redis-lock.ts:43-69 | whoever holds an unexpired lease is whose token Redis stores |
| `RedisLock.OneLeasePerKey` | src/lock/redis-lock.ts:43-69 | at most one call holds an unexpired lease of a key |
| `RedisLock.SetOutcome` | src/lock/redis-lock.ts:49-52 | a SET takes the key for a whole lifetime if and only if nothing unexpired is stored there |
| `RedisLock.ReleaseFrees` | src/lock/redis-lock.ts:11-17 | a release that reaches Redis within the lease removes the key, and the next SET gets it |
| `RedisLock.ReleaseSparesSuccessors` | src/lock/redis-lock.ts:11-17 | a release, however late, leaves every other lease in place |
| `RedisLock.CallEnds` | src/lock/redis-lock.ts:54-68 | leaving leads to the release, which ends the call and frees the key; giving up touches nothing |
| `RedisLock.ExpiryFrees` | src/lock/redis-lock.ts:65-66 | a row of Redis lasts no longer than its caller's lease, so a lost release frees by expiry |
| `RedisLock.LeaseExcludes` | src/lock/redis-lock.ts:49 | a SET while another lease runs changes nothing |
| `RedisLock.MutualExclusion` | src/lock/redis-lock.ts:61-68 | if no section outlives its lease, two sections of one key never overlap |
| `RedisLock.SlowSectionsOverlap` | src/lock/redis-lock.ts:61-68 | from every reachable state in which a section has outlived its lease, the run can go on so that a fresh call is inside beside it |
| `WriteBatcher.Batcher.Write` | src/utils/write-batcher.ts:31-54 | puts the value, keeps the key's place, and either flushes at once or joins the waiters and arms the timer |
| `WriteBatcher.Batcher.SetPending` | src/utils/write-batcher.ts:32 | the positional update of the pending map |
| `WriteBatcher.UpsertPlaces` | src/utils/write-batcher.ts:32 | an existing key keeps its place and gets the new value, a new key goes to the end, all others stay |
| `WriteBatcher.Batcher.FlushNow` | src/utils/write-batcher.ts:57-66 | disarms the timer, takes all waiters and queues one task for them |
| `WriteBatcher.Batcher.StartTask` | src/utils/write-batcher.ts:66-72 | takes everything pending as one batch, or is over at once if there is nothing |
| `WriteBatcher.Batcher.FinishFlush` | src/utils/write-batcher.ts:72-73 | a successful flush lets its waiters resolve; a failed one drops its batch and its waiters |
| `WriteBatcher.Batcher.Settle` | src/utils/write-batcher.ts:75 | resolves the waiters of one task |
| `WriteBatcher.StepKeepsInv` | src/utils/write-batcher.ts:31-76 | each step, failures included, keeps the accounting of written values |
| `WriteBatcher.HandedOverOnce` | src/utils/write-batcher.ts:31-76 | each written value is exactly once pending, replaced by a later one, or in a batch; the timer is armed exactly while someone waits; pending values have a flush on the way |
| `WriteBatcher.DrainingTerminates` | src/utils/write-batcher.ts:57-76 | without new calls only a bounded number of steps is possible |
| `WriteBatcher.DrainedMeansEmpty` | src/utils/write-batcher.ts:57-76 | when no step is possible nothing is pending or queued, and everything written was replaced or is in a flush that is over |
| `WriteBatcher.EachPromiseOnce` | src/utils/write-batcher.ts:31-76 | failures included, the promise of each write is in exactly one place: waiting for the timer, with a task, resolved, or dropped with a failed flush |
| `WriteBatcher.DrainedMeansSettled` | src/utils/write-batcher.ts:57-76 | when no step is possible a promise has resolved, and once, if and only if no failed flush took it; without failures all have |
| `WriteBatcher.LastWriteWins` | src/utils/write-batcher.ts:13-15 | completed batches, the running one, then pending replay to the same map as all writes in call order |
| `WriteBatcher.RefinesDirectWrites` | src/utils/write-batcher.ts:31-76 | the same from the start; once drained the database holds what direct writes would leave |
| `WriteBatcher.ReplayIsLastWrite` | src/utils/write-batcher.ts:13-15 | replaying leaves each key with the last value written to it |
| `WriteBatcher.ResolvedIsDurable` | src/utils/write-batcher.ts:39-75 | a resolved write's value, or a later one of its key, was in a flush that is over, and in a completed one if none failed |
| `WriteDurability.ResolvedMeansStored` | src/utils/write-batcher.ts:30-76 | in every run, failed flushes included, a write resolves only once its value or a later one is stored, if and only if no task waited in the queue at the call; otherwise it fails even with a queue that starts tasks at once |
| `WriteDurability.StoredIfNoTaskWaits` | src/utils/write-batcher.ts:39-75 | the one half, for every run after the call |
| `WriteDurability.LostIfTaskWaits` | src/utils/write-batcher.ts:66-75 | the other half: from every such state some run resolves the promise with nothing of it stored |
| `WriteDurability.TaskCanWait` | src/utils/write-batcher.ts:57-73 | such a state is reached: a flush runs and `flushNow` has queued a task behind it |
| `SqliteWorker.Table.SetMany` | src/adapters/sqlite-worker.ts:49-65 | the upsert loop is `UpsertAll` |
| `SqliteWorker.Table.DeleteMany` | src/adapters/sqlite-worker.ts:67-71 | removes exactly the session's rows with these keys |
| `SqliteWorker.Table.DeleteSession` | src/adapters/sqlite-worker.ts:78-80 | removes exactly the session's rows |
| `SqliteWorker.Table.GetAllKeys` | src/adapters/sqlite-worker.ts:73-76 | the session's keys, each once |
| `SqliteWorker.Table.Handle` | src/adapters/sqlite-worker.ts:92-139 | one message does what `Exec` says, an error included; what that is, in terms of the rows, is in the next rows |
| `SqliteWorker.GetAnswersRow` | src/adapters/sqlite-worker.ts:38-41 | `get` answers exactly the row of the session and key |
| `SqliteWorker.GetManyAnswersRows` | src/adapters/sqlite-worker.ts:43-47 | `getMany` answers exactly the rows of the listed keys |
| `SqliteWorker.ListingsAnswerKeys` | src/adapters/sqlite-worker.ts:73-90 | the listings answer exactly the session's keys, the sessions with rows, and whether there is a row |
| `SqliteWorker.WriteLeaves` | src/adapters/sqlite-worker.ts:49-80 | a write or deletion leaves the row as it says |
| `SqliteWorker.OtherSpares` | src/adapters/sqlite-worker.ts:92-139 | every other request leaves the row as it is |
| `SqliteWorker.ReadAfterWrite` | src/adapters/sqlite-worker.ts:92-139 | a `get` after a write gives its last value, after a deletion nothing |
| `SqliteWorker.Lifecycle` | src/adapters/sqlite-worker.ts:92-139 | without `init`, or after `close`, reads and writes fail and change nothing; unknown requests are named in the error |
| `SqliteWorker.UpsertAllEffect` | src/adapters/sqlite-worker.ts:49-65 | a batch stores each key's last value, its time and a version raised once per occurrence; other rows are untouched |
| `SqliteRpc.Adapter.Call` | src/adapters/sqlite-adapter.ts:120-128 | takes a fresh id, registers it and posts the request |
| `SqliteRpc.Adapter.OnMessage` | src/adapters/sqlite-adapter.ts:88-107 | settles the call with the answer's id; unknown ids are ignored |
| `SqliteRpc.Adapter.OnError` | src/adapters/sqlite-adapter.ts:109-114 | rejects every waiting call once and forgets them |
| `SqliteRpc.StepKeepsInv` | src/adapters/sqlite-adapter.ts:96-128 | each step keeps channels, waiting calls and sequential execution in step |
| `SqliteRpc.Linearizable` | src/adapters/sqlite-adapter.ts:96-128 | without a worker error: waiting ids are exactly those posted and unanswered, calls settle in posting order with the results of sequential execution, and the table is that execution's |
| `SqliteRpc.SettlesOnce` | src/adapters/sqlite-adapter.ts:96-114 | in every run a call settles at most once, and an answer is its own request's result |
| `SqliteRpc.ReadYourWrites` | src/adapters/sqlite-adapter.ts:96-128 | a `get` posted after a write that succeeded, with nothing between that writes the row, settles with the value written, or with no row after a deletion |
| `SqliteRpc.CallIsAnswered` | src/adapters/sqlite-adapter.ts:120-128 | with a ready worker a call can be posted, handled and delivered, and its promise has its result |
| `SqliteRpc.StartMakesReady` | src/adapters/sqlite-adapter.ts:88-94 | the worker's first message makes the adapter ready |
| `SqliteRpc.CrashRejects` | src/adapters/sqlite-adapter.ts:109-114 | a worker error rejects every waiting call with that error, once each |
| `SqliteRpc.WaitsOrSettled` | src/adapters/sqlite-adapter.ts:96-128 | in every run each posted call either still waits or has settled, and not both |
| `SqliteRpc.QuietMeansAnswered` | src/adapters/sqlite-adapter.ts:96-107 | with both channels empty and no worker error every call has been answered |
| `Categories.ResolveCategory` | src/retention.ts:38-50 | returns the longest matching category, and only that |
| `Categories.ResolveIsLongestMatch` | src/retention.ts:19-50 | the result is the unique longest match, none exactly when nothing matches, whatever order the sort gives to ties |
| `Categories.LongestIsUnique` | src/retention.ts:14-17 | a key has at most one longest match |
| `Categories.KnownCategory` | src/retention.ts:19-30 | each of the ten categories, by name, is recovered from its keys; "creds" has none |
| `Categories.CategoryRecovered` | src/retention.ts:38-50 | the category of a stored key is the one it was stored under, if and only if the name is not ambiguous |
| `Categories.SameStoredKey` | src/factory.ts:157 | two names share a stored key if and only if they are equal or are `sender-key` with `memory-x` and `sender-key-memory` with `x` |
| `Categories.StoredKeyInjective` | src/factory.ts:157 | so names outside that family have distinct stored keys |
| `Categories.AmbiguousCollision` | src/factory.ts:157 | that family does share stored keys, for every x |
| `Retention.PruneExpiredKeys` | src/retention.ts:68-122 | for any list of keys: exactly the listed stale keys leave the database, L1 and Redis, are published and returned; if the list is exactly the session's row keys, as stores give it that keep keys as they are, every stale row is gone |
| `Retention.DropFromCaches` | src/retention.ts:117 | one `onDeleted` per key |
| `Retention.DroppedLookup` | src/retention.ts:117 | exactly the given keys' entries are gone from L1 and, if it was reached, Redis |
| `Retention.InvalidationsAt` | src/retention.ts:117 | one message per key, in order, in TCP mode |
| `Retention.FindCandidates` | src/retention.ts:82-87 | exactly the listed keys with a configured category, never the credentials |
| `Retention.FindStale` | src/retention.ts:93-110 | exactly the candidates whose row exists and is old enough |
| `Retention.PruneIsExact` | src/retention.ts:60-67 | a row goes if and only if its longest matching category is configured and it is at least that old; all others keep value and version |
| `Retention.CredsStay` | src/retention.ts:78-83 | the row under "creds" is never pruned |
| `Retention.PruneTwice` | src/retention.ts:68-122 | a second pass at the same time removes nothing |
| `Retention.PruneLater` | src/retention.ts:107 | a later pass removes at least as much, so an earlier pass in between makes no difference |
| `AuthSession.Session.Collect` | src/factory.ts:148-165 | the nested loops split the changes into entries and deletions, in order |
| `AuthSession.Session.CollectBucket` | src/factory.ts:155-164 | the inner loop, for one category |
| `AuthSession.Session.WriteBatch` | src/factory.ts:168-171 | one database batch, then every entry to the cache in order |
| `AuthSession.Session.DeleteBatch` | src/factory.ts:175-178 | one database batch, then every key out of the cache |
| `AuthSession.Session.KeysSet` | src/factory.ts:137-180 | performs the stored side of `keys.set`; what that stores is in the next rows |
| `AuthSession.ChangesAreItems` | src/factory.ts:151-165 | the changes of a call are exactly the items of all its categories |
| `AuthSession.KeysSetStores` | src/factory.ts:137-180 | afterwards each item's row holds its encoded value, or is gone if it has none |
| `AuthSession.KeysSetSpares` | src/factory.ts:137-180 | and every other row is as before |
| `AuthSession.Session.KeysGet` | src/factory.ts:117-136 | performs the stored side of `keys.get`, with the conversion of one category; an empty stored text reads as absent |
| `AuthSession.Session.ReadOne` | src/cache/cache-manager.ts:49-86 | one cached read without Redis |
| `AuthSession.Session.SaveCreds` | src/factory.ts:183-186 | through the batcher: one batch with the credentials goes to the database and the cache, the write's promise resolves once, and the second flush finds nothing |
| `AuthSession.Session.FlushBegins` | src/utils/write-batcher.ts:31-72 | the write reaches its flush, with or without a debounce window |
| `AuthSession.Session.LoadCreds` | src/factory.ts:78-85 | reads and decodes the credentials, if any |
| `AuthSession.Session.Prune` | src/session-manager.ts:148-156 | performs the stored side of a prune of any session and returns exactly the stale keys |
| `AuthSession.Session.DeleteSession` | src/session-manager.ts:90-94 | any session: rows first, then L1 by prefix |
| `AuthSession.Session.ImportSession` | src/session-manager.ts:124-129 | any strings into any session: rows first, then L1 by prefix |
| `AuthSession.Session.ClearCache` | src/session-manager.ts:132-138 | one session's entries, or all without a session id or with an empty one |
| `AuthState.RowKeyInjective` | src/factory.ts:157 | names outside the colliding family have distinct row keys, the credentials included |
| `AuthState.SetKeepsRows` | src/factory.ts:137-180 | after `keys.set` each name's row is what the plain map holds |
| `AuthState.SetKeepsL1` | src/factory.ts:167-179 | after `keys.set` each L1 entry is the database's row, for any limits |
| `AuthState.ReadIsRow` | src/cache/cache-manager.ts:49-86 | a read answers with the row and keeps L1 in agreement |
| `AuthState.GetIsPlain` | src/factory.ts:117-136 | `keys.get` answers what the plain map holds for these ids |
| `AuthState.SetThenGetKey` | src/factory.ts:117-180 | what is set under a name is what is then read, converted for `app-state-sync-key`, and a deletion reads as nothing |
| `AuthState.CredsSaved` | src/factory.ts:183-186 | the credentials are saved under "creds" |
| `AuthState.CredsLoaded` | src/factory.ts:78-85 | and read and decoded from there |
| `AuthState.WrittenHolds` | src/factory.ts:170 | the last entry of a batch is in L1, with the time as its version, if it fits |
| `AuthState.ClearingCalls` | src/session-manager.ts:90-138 | the calls that clear a session leave none of its entries in L1 and every entry outside its prefix; clearing all leaves none |
| `AuthState.SweepCall` | src/cache/memory-cache.ts:132-139 | a sweep leaves no expired entry and every live one |
| `AuthState.PruneRefines` | src/retention.ts:107-117 | a prune by stored keys is the prune of the plain map by category, where `sender-key` with id `memory` counts as `sender-key-memory` |
| `AuthState.NameOfRowKey` | src/retention.ts:38-50 | the name read from a stored key is the name it was stored under |
| `AuthState.ImportRefines` | src/session-manager.ts:124-129 | importing any strings puts each, decoded, under the name of its key; other sessions' imports change nothing |
| `AuthState.StepRefines` | src/factory.ts:113-186 | each call gives the plain map's answer and keeps the relation |
| `AuthState.AnswersAsPlainMap` | src/factory.ts:113-186 | every sequence of calls, with any imports, any limits, expiry and eviction, answers as the plain map does |
| `Backup.ExportSessionToObject` | src/session-manager.ts:102-121 | the loop collects exactly the session's values |
| `Backup.ImportOverlays` | src/session-manager.ts:124-129 | an import overlays its data on what the session exports |
| `Backup.ImportSparesOthers` | src/session-manager.ts:124-129 | an import changes no other session's export |
| `Backup.BackupRoundTrip` | src/session-manager.ts:96-129 | an export restored into a cleared session exports as it was |
| `RtdbKeys.EscapeIsLegal` | src/adapters/firebase-realtime-adapter.ts:30 | a segment has no forbidden character and is empty only for the empty string |
| `RtdbKeys.CodesAreCharacterCodes` | src/adapters/firebase-realtime-adapter.ts:30 | each of the six forbidden characters is written as its decimal code between tildes, others as they are |
| `RtdbKeys.EscapeFixesLegal` | src/adapters/firebase-realtime-adapter.ts:30 | a string is its own segment if and only if it is legal |
| `RtdbKeys.EscapeIdempotent` | src/adapters/firebase-realtime-adapter.ts:30 | escaping twice is escaping once |
| `RtdbKeys.RoundTrip` | src/adapters/firebase-realtime-adapter.ts:26-30 | a string can be read back from its segment if and only if it nowhere looks like an escaped character itself |
| `RtdbKeys.SegmentRoundTrip` | src/adapters/firebase-realtime-adapter.ts:30 | escaping what was read from a legal segment gives the segment |
| `RtdbKeys.SharedSegment` | src/adapters/firebase-realtime-adapter.ts:26-30 | the string read back from a segment is recoverable and shares it; it is another string if and only if the original is not recoverable |
| `RtdbKeys.TildeFreeIsRecoverable` | src/adapters/firebase-realtime-adapter.ts:26-30 | without a tilde a string is recoverable |
| `RtdbKeys.EscapeInjective` | src/adapters/firebase-realtime-adapter.ts:26-30 | recoverable strings have distinct segments |
| `RtdbKeys.TildesCollide` | src/adapters/firebase-realtime-adapter.ts:30 | a forbidden character and its code between tildes share a segment in any surroundings |
| `RtdbKeys.SegmentKeepsCategory` | src/retention.ts:38-50 | a segment has its key's category, and is "creds" only for "creds" |
| `RtdbKeys.ListedKeysAreHandles` | src/adapters/firebase-realtime-adapter.ts:131-136 | each stored non-empty key is listed as its segment, which addresses the same row and is classified alike |
| `RtdbKeys.HandlesReachTheirRow` | src/adapters/firebase-realtime-adapter.ts:131-136 | each listed segment addresses the row it was listed for |
| `RtdbKeys.LegalPath` | src/adapters/firebase-realtime-adapter.ts:68-71 | legal names appear in the path as they are |
| `RtdbKeys.PathInjective` | src/adapters/firebase-realtime-adapter.ts:68-71 | rows with recoverable non-empty names never share a path |
| `RtdbKeys.BatchReadBack` | src/adapters/firebase-realtime-adapter.ts:73-115 | with recoverable names a batch is read back as written, and other keys and sessions as before |
| `RtdbKeys.DeleteReadBack` | src/adapters/firebase-realtime-adapter.ts:73-129 | with recoverable names exactly the deleted keys of the session are gone |
| `RtdbKeys.Adapter.GetMany` | src/adapters/firebase-realtime-adapter.ts:81-91 | the rows of those keys that have one |
| `RtdbKeys.Adapter.SetMany` | src/adapters/firebase-realtime-adapter.ts:97-115 | one update record, versions read before the batch |
| `RtdbKeys.Adapter.DeleteMany` | src/adapters/firebase-realtime-adapter.ts:121-129 | removes exactly the rows at the keys' paths |
| `RtdbKeys.UpdatesEffect` | src/adapters/firebase-realtime-adapter.ts:101-112 | a batch stores each path's last value, raises its version by one however often it occurs, and leaves other rows alone |
| `RtdbRetention.PruneExpiredKeys` | src/retention.ts:68-122 | the pass over listed segments: their rows go, and `onDeleted` is called with the segments |
| `RtdbRetention.SegmentIsCacheKey` | src/retention.ts:117 | a segment is its key's name in the caches if and only if nothing had to be escaped |
| `RtdbRetention.RowsArePruned` | src/adapters/firebase-realtime-adapter.ts:121-136 | a stored key's row goes if and only if the key is stale |
| `RtdbRetention.CachesArePruned` | src/retention.ts:117 | a stored key's cache entries go if and only if it is stale and needed no escaping |
| `RtdbRetention.PrunedRowRead` | src/retention.ts:116-117 | a pruned row is gone for a reader if and only if its key needed no escaping or no level held a live entry |
| `Retry.WithRetry` | src/utils/retry.ts:20-45 | stops at the first success or after `retries` repetitions; each sleep is twice the one before up to the largest delay, and together they stay under both bounds |
| `Retry.DelaysGrow` | src/utils/retry.ts:36 | a later sleep is at least as long |
| `Retry.DelaysDouble` | src/utils/retry.ts:36 | the first sleep is the smallest delay, each next one twice as long, all cut off at the largest |
| `Retry.SleepBounded` | src/utils/retry.ts:36 | sleeps sum to at most minDelay * (2^n - 1) and n * maxDelay |

## Left out

- Network drivers, SQL text, and the other adapters (Postgres, MySQL, MongoDB, D1, Firestore): the database is a map from session and key to value, time and version.
- Encryption and serialisation: assumed to be undone by their inverses and never to yield the empty string.
- The insides of `p-queue`, `async-mutex` and `p-limit`: a queue that runs one task at a time in order; the in-process mutex is not modelled beyond that.
- `destroy` and `close` of the batcher, cache and auth state beyond emptying L1: `destroy` clears tasks queued after its own flush, so hand-over is claimed up to that point.
- Restarting the SQLite worker after `close`, and its failure to start.
- Timers of the sweep and of automatic pruning: their effects are steps that may happen at any time, their intervals are not modelled.
- Coherence when a prune, `deleteSession` or `importSession` runs beside locked writes: these write the database without the lock, so in `Coherence` they count as foreign writes; `Provenance` covers them.
- `getSessionInfo`, `listSessions`, log messages, and configuration types: reads and text only.
- Lone surrogates: characters are Unicode scalar values, so a byte length is that of well-formed text.
- The auth state over the Realtime Database: `AuthState` and `Session.Prune` are about stores that list keys as they are; what a prune over segments does differently is `RtdbRetention`.
- An empty key in the Realtime Database adapter addresses the session's whole node; only paths of non-empty keys are claimed to be rows. A row whose node is removed by another path is not modelled.
- The concurrent reads of one `keys.get` are done one after the other; the answers do not depend on this, the order of L1 may.
- Manager.Read: the calls of one manager do not overlap here; overlapping calls are the subject of `StorageProtocol`, and `ManagerSimulation` ties the two together.
- UpdateIsRun: one row at a time; the steps of several rows of a batch, and of several calls, follow one another or interleave as the step system allows.
- AnswersAsPlainMap: the values of one session, no Redis, calls that do not overlap, and no `sender-key` id that begins with `memory-` in `keys.set` or `keys.get`, because those share a row with another name.
- WithRetry: the error returned without any call (negative `retries`) stands for the undefined error the code throws.
- Session.SaveCreds: nothing else happens meanwhile and the flush succeeds; overlapping writes, timers and failing flushes are the subject of `WriteBatcher` and `WriteDurability`.
