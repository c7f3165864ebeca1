# Verified models of the concurrency components

This project models, in Dafny 4.11, the stateful and concurrent components of a repository of Go exercises and
proves what their comments and tests promise: caches, a connection pool, worker pools, rate limiters, concurrent
maps, a task scheduler's queue, waiter and cron expressions, and channel combinators.

`dafny verify dfyconfig.toml` checks everything.

## How the models are built

Components that one lock protects are **classes** whose methods update the same fields as the source, with its
loops. Each method is proved against a function on plain values (`Apply`, `LogStep`, `Take`, `Denotes`, ...), and
the properties over whole runs are lemmas about that function. The clock is a parameter: every method that reads
the time takes `now`.

Components whose point is interleaving are **step machines**. A goroutine's state says where it stands; `Step`
takes one locked section, channel operation or atomic store of one goroutine and gives the next state, or none
where that goroutine cannot take it; `Run` replays any sequence of such steps from the initial state, so a lemma
about `Run` with any list of actions speaks about every interleaving and every reachable state. That a machine is
not stuck before its work is done, and that its work is finite, are lemmas as well (`NeverStuck`, `StopsWhenClosed`,
`RunsEnd`, `LessLeft`). What the
environment decides - a fetch that fails, a context that is done, a connection found stale - is part of the action.
A class beside the machine holds the same fields and the sections that update them, or the loop of one goroutine
with an oracle `done` for the choices of its selects.

| file | models |
|---|---|
| `LruSpec.dfy`, `LruTrace.dfy`, `LruCache.dfy` | the LRU cache: a recency list, what it answers over whole traces, and the doubly linked list with its map that refines it |
| `Singleflight.dfy`, `CacheAside.dfy` | call deduplication, and cache-aside reads on top of it |
| `ManagedPool.dfy`, `PoolWait.dfy`, `PoolObject.dfy` | the managed connection pool: all interleavings before Close, when an Acquire waits, and single calls |
| `WorkerPool.dfy`, `WorkerRest.dfy`, `GracefulPool.dfy`, `GracefulRest.dfy` | worker pools, the second one with its ways to shut down, and how both come to an end |
| `FanOut.dfy`, `FanIn.dfy`, `Pipeline.dfy` | channel combinators |
| `TaskWaiter.dfy`, `WaitOrder.dfy` | waiting for tasks on a condition variable, and which of them WaitAny returns |
| `PriorityQueue.dfy`, `ReadyOrder.dfy` | the task heap, and when its array lists tasks in order |
| `Calendar.dfy`, `CronField.dfy`, `CronText.dfy`, `Cron.dfy`, `CronReach.dfy` | cron expressions, the next matching time, and for which expressions there always is one |
| `Buckets.dfy`, `BucketRate.dfy`, `SlidingWindow.dfy` | the four rate limiters |
| `Bits.dfy`, `Shards.dfy`, `ShardedMap.dfy`, `TtlMap.dfy`, `TtlTrace.dfy` | the sharded maps, their rounding to a power of two, and what the expiring one answers over whole traces |
| `Common.dfy` | optional values, counting, remainders |

## What the code does otherwise than its comments say

The models follow the code.

- `GetReadyTasks` is said to be sorted by priority; it returns tasks in heap-array order. `PriorityQueue.ReadyNotSorted`
  shows a heap where that is not sorted, and `ReadyOrder.ReadyByPriorityIffLevel` says for which queues it always is.
- `LeakyBucket.Remaining` is said to return the capacity left; it returns the capacity used, which is the same only
  when half is used (`Buckets.RemainingIsUsed`; `Buckets.RemainingOfNewBucket` shows it on a new bucket).
- `WaitAny` is said to return the first completed task; it returns the first of its arguments that is completed.
  `WaitOrder.FirstListedNotEarliest` is a run where these differ, `WaitOrder.WaitAnyEarliest` says when they do not.
- `parseField` accepts the step 2^63 - 1 in the day and month fields and then returns two negative values besides
  the right one (`CronField.OverflowIsExact`); the times that match do not change (`Cron.ParsedFields`).
- `Next` is said never to run out of its 366 days for a valid expression. It does for a date that some years lack
  (`CronReach.NothingIn2001`), and with restricted weekdays for dates that every year has
  (`CronReach.SundayNewYear`). `CronReach.NextAlwaysFinds` decides it for every parsed expression,
  `CronReach.AnyWeekdayFinds` in terms of the date alone when every weekday is listed, and `CronReach.OneRunFinds` in
  terms of the number of days for days in a row of one month on one weekday.
- `nextPowerOf2` is right up to 2^32 and beyond that only where `Bits.NextPowerOf2` says; the code shifts by no
  more than 16 although an int has 64 bits.

## What waits beside a free slot

An Acquire that has found all slots taken waits for an idle connection, as its comment says, and so is not woken by
a slot that becomes free when a connection is destroyed. `ManagedPool.BlockedBesideFreeSlot` is such a run;
`PoolWait.BlockedBesideFreeSlots` says exactly when it happens, and `PoolWait.NeverBesideFreeSlot` gives a condition
on connections and factory under which it never does.

## Model

| member | source | states |
|---|---|---|
| LruSpec.Inclusion | stage2/05-cache/cache/lru.go:46-124 | replaying one trace of Get/SetWithTTL/Delete/Clear on a smaller and a larger cache, the smaller one's recency order stays a subsequence of the larger one's, with equal values and deadlines and no more extra keys than extra capacity; every hit of the smaller is the same hit in the larger |
| LruSpec.InclusionStep | stage2/05-cache/cache/lru.go:46-124 | each single operation keeps that inclusion |
| LruSpec.HitsAreCoherent | stage2/05-cache/cache/lru.go:46-109 | a hit returns the value last stored under the key, before its deadline, with no Delete or Clear since |
| LruSpec.EntriesAreLastStored | stage2/05-cache/cache/lru.go:79-124 | every cached entry is the one last stored under its key, over whole traces |
| LruSpec.Retention | stage2/05-cache/cache/lru.go:211-232 | an entry is evicted only after at least as many other keys as the capacity have been looked up or stored since: with fewer, and no replacement, deletion or expiry, the next Get hits |
| LruTrace.StoredIsFound | stage2/05-cache/cache/lru.go:46-109 | after a store and any trace that looks up or stores fewer other keys than the capacity and leaves the key alone, or looks it up in time, Get hits if and only if the ttl is 0 or less or at most the ttl has passed |
| LruTrace.HitsAreInTime | stage2/05-cache/cache/lru.go:46-109 | whatever the trace, a hit returns the last value stored under the key, and within its ttl |
| LruTrace.StoredIsDeleted | stage2/05-cache/cache/lru.go:112-124 | Delete finds what has been stored, under the same conditions |
| LruTrace.DeletedWasStored | stage2/05-cache/cache/lru.go:112-124 | Delete finds nothing that has not been stored since the last Delete or Clear |
| LruTrace.CountersCount | stage2/05-cache/cache/lru.go:46-71 | the counters are the numbers of Gets that hit and that missed |
| LruTrace.EvictsWhenFull | stage2/05-cache/cache/lru.go:97-109 | an eviction happens, and is counted, exactly when a new key is stored in a full cache |
| LruSpec.RunValid | stage2/05-cache/cache/lru.go:79-109 | over every trace keys stay distinct and their number within capacity |
| LruSpec.DropAt | stage2/05-cache/cache/lru.go:197-209 | dropping a key takes out exactly its entry and keeps the order of the others |
| LruCache.LRUCache.constructor | stage2/05-cache/cache/lru.go:35-43 | an empty cache; a capacity of 0 or less becomes 100 |
| LruCache.LRUCache.AddToFront | stage2/05-cache/cache/lru.go:182-194 | both pointer chains become the new node followed by the old chain |
| LruCache.LRUCache.RemoveNode | stage2/05-cache/cache/lru.go:197-209 | both pointer chains lose exactly this node |
| LruCache.LRUCache.MoveToFront | stage2/05-cache/cache/lru.go:212-218 | both pointer chains become this node followed by the others in their old order |
| LruCache.LRUCache.EvictLRU | stage2/05-cache/cache/lru.go:221-232 | takes out the last entry of the recency list, from the map as well, and counts it |
| LruCache.LRUCache.Get | stage2/05-cache/cache/lru.go:46-71 | answers and changes state as the recency list does: hit, miss or expired, with the counters; list and map stay consistent |
| LruCache.LRUCache.GetNode | stage2/05-cache/cache/lru.go:57-70 | an expired node is dropped and counted as a miss, another one moves to the front and is a hit |
| LruCache.LRUCache.SetWithTTL | stage2/05-cache/cache/lru.go:79-109 | changes state as the recency list does: update in front, evict the least recently used at capacity, insert in front; the entry in front then holds the value and expires the ttl after now, or never if that is 0 or less |
| LruCache.LRUCache.Delete | stage2/05-cache/cache/lru.go:112-124 | takes the key out and tells whether it was there |
| LruCache.LRUCache.Clear | stage2/05-cache/cache/lru.go:139-146 | empties list and map and keeps the counters |
| LruCache.LRUCache.Len | stage2/05-cache/cache/lru.go:127-131 | the size of the map is the length of the recency list |
| LruCache.LRUCache.Keys | stage2/05-cache/cache/lru.go:235-244 | the walk along next yields the keys from most to least recently used, all of them |
| PriorityQueue.RootFirst | stage2/07-task-scheduler/scheduler/priority_queue.go:41-48 | no task in a heap has to run before the first one |
| PriorityQueue.RiseStep | stage2/07-task-scheduler/scheduler/priority_queue.go:70-75 | one exchange on the way up keeps the heap order everywhere but at the new place |
| PriorityQueue.SinkStep | stage2/07-task-scheduler/scheduler/priority_queue.go:79-86 | one exchange on the way down keeps the heap order everywhere but around the new place |
| PriorityQueue.FillHole | stage2/07-task-scheduler/scheduler/priority_queue.go:123-134 | moving the last task into any place leaves a heap but for that place |
| PriorityQueue.PriorityQueue.Swap | stage2/07-task-scheduler/scheduler/priority_queue.go:51-53 | exchanges two tasks and keeps the bag of tasks |
| PriorityQueue.PriorityQueue.Pop | stage2/07-task-scheduler/scheduler/priority_queue.go:61-68 | cuts off the last task and returns it |
| PriorityQueue.PriorityQueue.Up | stage2/07-task-scheduler/scheduler/priority_queue.go:71-75 | container/heap's up: restores the heap order from a task that may have to rise, keeping the bag of tasks |
| PriorityQueue.PriorityQueue.Down | stage2/07-task-scheduler/scheduler/priority_queue.go:79-86 | container/heap's down: restores the heap order from a task that may have to sink, and tells whether it moved |
| PriorityQueue.PriorityQueue.PushTask | stage2/07-task-scheduler/scheduler/priority_queue.go:71-75 | adds exactly this task and keeps the heap order |
| PriorityQueue.PriorityQueue.PopTask | stage2/07-task-scheduler/scheduler/priority_queue.go:79-86 | nil on an empty queue; else removes exactly one task that nothing queued has to run before |
| PriorityQueue.PriorityQueue.PeekTask | stage2/07-task-scheduler/scheduler/priority_queue.go:89-96 | nil on an empty queue; else a task that nothing queued has to run before |
| PriorityQueue.PriorityQueue.GetReadyTasks | stage2/07-task-scheduler/scheduler/priority_queue.go:107-120 | exactly the pending tasks that are due, in the order of the heap array |
| PriorityQueue.ReadyNotSorted | stage2/07-task-scheduler/scheduler/priority_queue.go:105-119 | that order need not be sorted: a heap of three ready tasks shows it |
| ReadyOrder.ReadyByPriorityIffLevel | stage2/07-task-scheduler/scheduler/priority_queue.go:105-119 | if all queued tasks are ready, every heap they can form is listed by priority if and only if they are at most two, or all but one of the highest priority are of one priority |
| ReadyOrder.ReadySortedIffFlat | stage2/07-task-scheduler/scheduler/priority_queue.go:105-119 | the same for the order in which tasks have to run, time included: if and only if they are at most two, or all but one that nothing has to run before are of equal rank |
| ReadyOrder.OutOfPriority | stage2/07-task-scheduler/scheduler/priority_queue.go:105-119 | any other queue can be arranged as a heap that lists a task before one of a higher priority |
| ReadyOrder.OutOfOrder | stage2/07-task-scheduler/scheduler/priority_queue.go:105-119 | any other queue can be arranged as a heap that lists a task before one that has to run before it |
| ReadyOrder.FlatIsSorted | stage2/07-task-scheduler/scheduler/priority_queue.go:105-119 | in a queue with at most two tasks, or of equal ranks but for one on top, the ready tasks are sorted, whichever they are |
| PriorityQueue.PriorityQueue.RemoveAt | stage2/07-task-scheduler/scheduler/priority_queue.go:123-134 | container/heap's Remove: takes out exactly the task at the index and keeps the heap order |
| PriorityQueue.PriorityQueue.RemoveTask | stage2/07-task-scheduler/scheduler/priority_queue.go:123-134 | removes exactly the first task with the id, or finds none and changes nothing; keeps the heap order |
| PriorityQueue.PriorityQueue.UpdatePriority | stage2/07-task-scheduler/scheduler/priority_queue.go:137-151 | sets the priority of the first task with the id only, restores the heap order in either direction and keeps the bag of tasks |
| PriorityQueue.PopsConserve | stage2/07-task-scheduler/scheduler/priority_queue.go:79-86 | tasks popped and tasks left are the tasks there were |
| PriorityQueue.PopsInOrder | stage2/07-task-scheduler/scheduler/priority_queue.go:41-48 | popped tasks come in non-increasing priority and, within a priority, in non-decreasing time |
| PriorityQueue.DrainSorts | stage2/07-task-scheduler/scheduler/priority_queue.go:79-86 | any sequence of pops that ends with an empty queue is sorted and holds every queued task once |
| PriorityQueue.PriorityQueue.Drain | stage2/07-task-scheduler/scheduler/priority_queue.go:79-86 | a loop over PopTask until nil: every queued task comes out once, in the order in which they have to run |
| Buckets.SameAnswers | stage1/01-concurrent-counter/ratelimiter/token_bucket.go:52-105 | a token bucket and a leaky bucket of equal parameters, driven by the same calls, answer alike forever; their levels add up to the capacity |
| Buckets.GrantedFromLevel | stage1/01-concurrent-counter/ratelimiter/token_bucket.go:91-105 | what is granted from now on was in the bucket or has flowed in since its last refill |
| Buckets.GrantBound | stage1/01-concurrent-counter/ratelimiter/token_bucket.go:67-78 | between any two calls at most the capacity and what flows in between them is granted (in plain numbers: BucketRate.RateBound) |
| Buckets.LeakyGrantBound | stage1/01-concurrent-counter/ratelimiter/leaky_bucket.go:68-79 | the same bound for the leaky bucket |
| BucketRate.GrantedExactly | stage1/01-concurrent-counter/ratelimiter/token_bucket.go:52-105 | a request is granted if and only if it fits into the capacity and, whichever earlier call one starts from, what was granted since and the request, times the interval, are at most the capacity times the interval and the rate times the time since |
| BucketRate.LeakyGrantedExactly | stage1/01-concurrent-counter/ratelimiter/leaky_bucket.go:55-106 | the leaky bucket grants exactly the same |
| BucketRate.RateBound | stage1/01-concurrent-counter/ratelimiter/token_bucket.go:67-105 | between any two calls either bucket grants, times the interval, at most the capacity times the interval and the rate times the time between them |
| BucketRate.EmptiedGrants | stage1/01-concurrent-counter/ratelimiter/token_bucket.go:67-105 | a bucket emptied at t grants 0 < n <= capacity if and only if n times the interval is at most the rate times the time since t |
| BucketRate.FilledAdmits | stage1/01-concurrent-counter/ratelimiter/leaky_bucket.go:68-106 | a leaky bucket filled at t admits 0 < n <= capacity if and only if n times the interval is at most the rate times the time since t |
| BucketRate.LevelExactly | stage1/01-concurrent-counter/ratelimiter/token_bucket.go:81-105 | what a bucket holds after any calls, in the same terms |
| BucketRate.NoInterval | stage1/01-concurrent-counter/ratelimiter/token_bucket.go:91-105 | with an interval of 0 and a positive rate any time fills a token bucket and empties a leaky one |
| Buckets.QueriesInvisible | stage1/01-concurrent-counter/ratelimiter/token_bucket.go:81-87 | calls of Tokens change no later answer |
| Buckets.LeakyQueriesInvisible | stage1/01-concurrent-counter/ratelimiter/leaky_bucket.go:82-88 | calls of Remaining change no later answer |
| Buckets.RefillTwice | stage1/01-concurrent-counter/ratelimiter/token_bucket.go:91-105 | refilling on the way makes no difference to a later refill, and keeps the level within 0 and capacity |
| Buckets.TokenBucket.constructor | stage1/01-concurrent-counter/ratelimiter/token_bucket.go:40-48 | starts full |
| Buckets.TokenBucket.RefillNow | stage1/01-concurrent-counter/ratelimiter/token_bucket.go:91-105 | adds what has flowed in, up to the capacity; the time stands still when nothing has (how much flows in is BucketRate.GrantedExactly) |
| Buckets.TokenBucket.Allow | stage1/01-concurrent-counter/ratelimiter/token_bucket.go:52-63 | refills, and takes one token exactly when there is one |
| Buckets.TokenBucket.AllowN | stage1/01-concurrent-counter/ratelimiter/token_bucket.go:67-78 | refills, and takes n tokens exactly when there are as many |
| Buckets.TokenBucket.Tokens | stage1/01-concurrent-counter/ratelimiter/token_bucket.go:81-87 | refills and tells the level |
| Buckets.LeakyBucket.constructor | stage1/01-concurrent-counter/ratelimiter/leaky_bucket.go:43-51 | starts empty |
| Buckets.LeakyBucket.LeakNow | stage1/01-concurrent-counter/ratelimiter/leaky_bucket.go:92-106 | takes away what has leaked, down to 0 (how much leaks is BucketRate.LeakyGrantedExactly) |
| Buckets.LeakyBucket.Allow | stage1/01-concurrent-counter/ratelimiter/leaky_bucket.go:55-66 | leaks, and pours one in exactly when it fits |
| Buckets.LeakyBucket.AllowN | stage1/01-concurrent-counter/ratelimiter/leaky_bucket.go:68-79 | leaks, and pours n in exactly when they fit |
| Buckets.LeakyBucket.Remaining | stage1/01-concurrent-counter/ratelimiter/leaky_bucket.go:82-88 | leaks and tells the level |
| Buckets.RemainingIsUsed | stage1/01-concurrent-counter/ratelimiter/leaky_bucket.go:81-88 | the level is the capacity used: after any calls it adds up to the capacity with what a token bucket driven alike holds, so it is the capacity left if and only if it is half the capacity |
| Buckets.RemainingOfNewBucket | stage1/01-concurrent-counter/ratelimiter/leaky_bucket.go:43-88 | a new bucket of capacity 10 answers 0 |
| SlidingWindow.LogIsHistory | stage1/01-concurrent-counter/ratelimiter/sliding_window.go:53-116 | however often the log has been cleaned up, filtering it gives what filtering the whole history of admissions gives |
| SlidingWindow.AdmitsWhenRoom | stage1/01-concurrent-counter/ratelimiter/sliding_window.go:69-83 | a request is admitted if and only if the window ending now, over the whole history, has room for it |
| SlidingWindow.AdmitsExactly | stage1/01-concurrent-counter/ratelimiter/sliding_window.go:53-116 | a request is admitted if and only if it and the admissions of the last window are at most the limit, each counted by its place in the history |
| SlidingWindow.LogExact | stage1/01-concurrent-counter/ratelimiter/sliding_window.go:53-83 | no window of the given length, ending at any time whatever, ever holds more than limit admissions |
| SlidingWindow.CutIsAfter | stage1/01-concurrent-counter/ratelimiter/sliding_window.go:96-116 | cutting a sorted log at the first admission inside the window keeps exactly the admissions inside it |
| SlidingWindow.SlidingWindowLog.FindFirstValid | stage1/01-concurrent-counter/ratelimiter/sliding_window.go:97-110 | the scan finds the first admission inside the window, or the end |
| SlidingWindow.SlidingWindowLog.Cleanup | stage1/01-concurrent-counter/ratelimiter/sliding_window.go:96-116 | the log becomes its admissions later than the start of the window |
| SlidingWindow.SlidingWindowLog.Allow | stage1/01-concurrent-counter/ratelimiter/sliding_window.go:53-65 | cleans up, and logs one admission exactly when fewer than limit are left |
| SlidingWindow.SlidingWindowLog.AllowN | stage1/01-concurrent-counter/ratelimiter/sliding_window.go:69-83 | cleans up, and logs n admissions exactly when they fit |
| SlidingWindow.SlidingWindowLog.Count | stage1/01-concurrent-counter/ratelimiter/sliding_window.go:86-92 | cleans up and tells the length of the log |
| SlidingWindow.AdvanceExact | stage1/01-concurrent-counter/ratelimiter/sliding_window.go:182-196 | after advancing, the elapsed time lies within the window, both counts are still those of their windows over all admissions and at most limit: the reset forgets nothing of the last window |
| SlidingWindow.RunExact | stage1/01-concurrent-counter/ratelimiter/sliding_window.go:161-196 | the same over every run |
| SlidingWindow.AdmittedExactly | stage1/01-concurrent-counter/ratelimiter/sliding_window.go:161-196 | after any calls, a request is admitted if and only if the admissions of the window before, times the part of it that still counts, and those of the current window, times the window, are below the limit times the window; windows follow one another, and after two empty ones start with the call |
| SlidingWindow.CounterBound | stage1/01-concurrent-counter/ratelimiter/sliding_window.go:161-196 | every half-open interval of the window's length holds at most twice the limit |
| SlidingWindow.CounterBoundIsTight | stage1/01-concurrent-counter/ratelimiter/sliding_window.go:161-196 | for every limit from 1: some run puts twice the limit into an interval as long as the window if and only if the window, in nanoseconds, is longer than twice the limit |
| SlidingWindow.TwiceNotReached | stage1/01-concurrent-counter/ratelimiter/sliding_window.go:161-196 | in a shorter window every such interval holds less than twice the limit |
| SlidingWindow.SlidingWindowCounter.AdvanceWindow | stage1/01-concurrent-counter/ratelimiter/sliding_window.go:182-196 | resets after two windows, shifts after one, else changes nothing |
| SlidingWindow.SlidingWindowCounter.Allow | stage1/01-concurrent-counter/ratelimiter/sliding_window.go:161-178 | advances, and counts the request exactly when the weighted count is below the limit |
| Bits.NextPowerOf2 | stage2/08-concurrent-map/cmap/sharded_map.go:65-76 | on 64-bit ints: the least power of two not below max(n, 1) for every n up to 2^32; for any n > 1 it is that if and only if n <= 2^62 and n - 1 has no 32 zeros in a row below its leading one; for 2^32 + 1, the first failure, it is 2^33 - 1 |
| Bits.FailsAboveTwoTo32 | stage2/08-concurrent-map/cmap/sharded_map.go:70-75 | why: the leading one of 2^32 is smeared over all places but the last |
| Bits.SmearStep | stage2/08-concurrent-map/cmap/sharded_map.go:70-74 | one shift-and-or doubles the number of places over which every bit is smeared |
| Bits.SmearedOnes | stage2/08-concurrent-map/cmap/sharded_map.go:70-75 | after the last one the bits from the leading one down are all ones exactly when there was no gap of 32 |
| Bits.AndMask | stage2/08-concurrent-map/cmap/sharded_map.go:106-110 | masking a hash with 2^k - 1 is the remainder modulo 2^k |
| Shards.SpotIsModulo | stage2/08-concurrent-map/cmap/sharded_map.go:106-110 | with 2^k shards a key lives in the shard of its hash modulo 2^k, which exists |
| Shards.BelowNext | stage2/08-concurrent-map/cmap/sharded_map.go:150-158 | the shards are disjoint: one more shard adds exactly its own keys |
| Shards.WalkMeans | stage2/08-concurrent-map/cmap/sharded_map.go:162-173 | what Range has visited: no key twice, only pairs of the map, the callback called on until it said stop |
| ShardedMap.ShardedMap.constructor | stage2/08-concurrent-map/cmap/sharded_map.go:46-62 | an empty map over the rounded-up number of shards |
| ShardedMap.ShardedMap.GetShard | stage2/08-concurrent-map/cmap/sharded_map.go:106-110 | the shard of the key's place, an index always in range |
| ShardedMap.ShardedMap.Get | stage2/08-concurrent-map/cmap/sharded_map.go:113-119 | answers as one flat map |
| ShardedMap.ShardedMap.Set | stage2/08-concurrent-map/cmap/sharded_map.go:122-127 | updates the flat map at the key; every key stays in its own shard only |
| ShardedMap.ShardedMap.Delete | stage2/08-concurrent-map/cmap/sharded_map.go:130-135 | removes the key from the flat map |
| ShardedMap.ShardedMap.GetOrSet | stage2/08-concurrent-map/cmap/sharded_map.go:138-147 | returns the value there is, or stores the new one, and tells which |
| ShardedMap.ShardedMap.Len | stage2/08-concurrent-map/cmap/sharded_map.go:150-158 | the sum over the shards is the size of the flat map |
| ShardedMap.ShardedMap.Range | stage2/08-concurrent-map/cmap/sharded_map.go:162-173 | visits pairs of the map, no key twice, until the callback says stop, and all of them when it never does |
| ShardedMap.ShardedMap.ShardStats | stage2/08-concurrent-map/cmap/sharded_map.go:176-184 | the size of each shard |
| TtlMap.CleanupUnobservable | stage2/08-concurrent-map/cmap/ttl_map.go:224-235 | cleanups anywhere in a trace change no answer of Get, Set, Delete, Touch, GetOrSet, ActiveLen and Range |
| TtlMap.LiveDecides | stage2/08-concurrent-map/cmap/ttl_map.go:84-204 | expired entries play no part in any of those answers, nor in what an operation leaves live |
| TtlMap.StatsAgainstActiveLen | stage2/08-concurrent-map/cmap/ttl_map.go:244-263 | what Stats counts as active exceeds ActiveLen by exactly the entries that expire at this instant |
| TtlTrace.SetThenGet | stage2/08-concurrent-map/cmap/ttl_map.go:84-114 | after Set and any later calls, cleanups included, that do not set, delete, touch or GetOrSet the key, Get finds the value if and only if at most the ttl has passed |
| TtlTrace.DeleteThenGet | stage2/08-concurrent-map/cmap/ttl_map.go:84-127 | after Delete and any later calls that do not set, touch or GetOrSet the key, Get finds nothing |
| TtlTrace.NewThenGet | stage2/08-concurrent-map/cmap/ttl_map.go:51-103 | in a new map Get finds nothing under a key that has not been set |
| TtlTrace.TouchThenGet | stage2/08-concurrent-map/cmap/ttl_map.go:130-143 | Touch succeeds exactly if a Get would have found the key; it then keeps the value and counts the ttl anew, else changes nothing |
| TtlTrace.GetOrSetThenGet | stage2/08-concurrent-map/cmap/ttl_map.go:146-160 | GetOrSet loads exactly what a Get would have found and leaves it as it is; else it sets |
| TtlTrace.OthersKeepAnswers | stage2/08-concurrent-map/cmap/ttl_map.go:84-235 | calls that concern other keys, lookups and cleanups change no answer for a key |
| TtlTrace.SetThenRange | stage2/08-concurrent-map/cmap/ttl_map.go:190-204 | Range visits what has been set strictly before its deadline |
| TtlTrace.RangeIsFound | stage2/08-concurrent-map/cmap/ttl_map.go:190-204 | after any trace Range visits no pair that a Get would not find |
| TtlTrace.ActiveLenIsRange | stage2/08-concurrent-map/cmap/ttl_map.go:174-204 | ActiveLen counts what Range visits |
| TtlTrace.CleanupThenLen | stage2/08-concurrent-map/cmap/ttl_map.go:163-235 | after a cleanup Len counts exactly the keys that a Get would find |
| TtlMap.TTLMap.constructor | stage2/08-concurrent-map/cmap/ttl_map.go:51-74 | an empty map over the rounded-up number of shards |
| TtlMap.TTLMap.Get | stage2/08-concurrent-map/cmap/ttl_map.go:84-103 | answers as the flat expiring map and removes the entry if it has expired |
| TtlMap.TTLMap.Set | stage2/08-concurrent-map/cmap/ttl_map.go:106-114 | stores the value with the deadline ttl after now, and touches no other key |
| TtlMap.TTLMap.Delete | stage2/08-concurrent-map/cmap/ttl_map.go:122-127 | removes the key |
| TtlMap.TTLMap.Touch | stage2/08-concurrent-map/cmap/ttl_map.go:130-143 | moves the deadline of an entry that has not expired, and tells whether there was one |
| TtlMap.TTLMap.GetOrSet | stage2/08-concurrent-map/cmap/ttl_map.go:146-160 | returns the value that has not expired, or stores the new one, and tells which |
| TtlMap.TTLMap.Len | stage2/08-concurrent-map/cmap/ttl_map.go:163-171 | the size of the flat map, expired entries included |
| TtlMap.TTLMap.ActiveLen | stage2/08-concurrent-map/cmap/ttl_map.go:174-187 | the number of entries whose deadline is still to come |
| TtlMap.TTLMap.Range | stage2/08-concurrent-map/cmap/ttl_map.go:190-204 | visits active pairs, no key twice, until the callback says stop, and all of them when it never does |
| TtlMap.TTLMap.Cleanup | stage2/08-concurrent-map/cmap/ttl_map.go:224-235 | removes exactly the expired entries, shard by shard |
| TtlMap.TTLMap.Stats | stage2/08-concurrent-map/cmap/ttl_map.go:244-263 | counts all entries, those that have expired, and as active the rest |
| CronField.ParseField | stage2/07-task-scheduler/scheduler/cron.go:96-152 | a field is parsed into exactly what it denotes, or refused; only a step that overflows goes wrong |
| CronField.StepSlice | stage2/07-task-scheduler/scheduler/cron.go:108-112 | every step-th value; with the largest int as step from 1 the loop wraps around and yields two negative values |
| CronField.OverflowIsExact | stage2/07-task-scheduler/scheduler/cron.go:103-112 | that happens for the step 2^63 - 1 in a field that starts at 1, and for no other |
| CronField.FieldInRange | stage2/07-task-scheduler/scheduler/cron.go:96-152 | a well-formed field denotes at least one value, and only values in range |
| CronField.EveryMeaning | stage2/07-task-scheduler/scheduler/cron.go:108-111 | */n stands for the values in range at a multiple of n from the first |
| CronField.ListMeaning | stage2/07-task-scheduler/scheduler/cron.go:116-127 | a list stands for its numbers, each in range |
| CronField.RangeMeaning | stage2/07-task-scheduler/scheduler/cron.go:154-160 | a range stands for all values from its first to its last |
| CronField.RangeSlice | stage2/07-task-scheduler/scheduler/cron.go:154-160 | the loop fills in that range |
| CronField.ParseList | stage2/07-task-scheduler/scheduler/cron.go:117-126 | the loop accepts a list exactly when every part is a number in range |
| CronField.ShownIsDenoted | stage2/07-task-scheduler/scheduler/cron.go:25-29 | a field written in any documented form, with decimal numbers, is read back as what it means |
| CronField.SplitJoin | stage2/07-task-scheduler/scheduler/cron.go:116-131 | splitting joined parts gives the parts back |
| CronField.AtoiDecimal | stage2/07-task-scheduler/scheduler/cron.go:104-147 | reading a decimal number gives it back |
| CronText.AtoiExactly | stage2/07-task-scheduler/scheduler/cron.go:104-147 | exactly the texts of a sign, zeros and decimal digits are numbers, within 64 bits |
| CronText.AcceptedIsWritten | stage2/07-task-scheduler/scheduler/cron.go:96-152 | whatever is accepted is written in a documented form and stands for what that means |
| Cron.FieldsJoin | stage2/07-task-scheduler/scheduler/cron.go:49 | splitting at white space finds fields joined by blanks, tabs or line ends again |
| Cron.ParseCron | stage2/07-task-scheduler/scheduler/cron.go:48-93 | six fields, each within its own bounds; another number of fields, or a malformed one, is refused with its own error; the text is kept |
| Cron.RefusedExactly | stage2/07-task-scheduler/scheduler/cron.go:48-82 | an expression is refused if and only if it has not six fields, or one that is malformed or out of its bounds |
| Cron.ParsedFields | stage2/07-task-scheduler/scheduler/cron.go:54-82 | every parsed field is non-empty and in range, but for an overflowing step in day or month, which still selects the right days and months |
| Cron.ShownIsParsed | stage2/07-task-scheduler/scheduler/cron.go:10-29 | an expression of six fields in any documented forms, joined by blanks, is read back as what they mean |
| Cron.Contains | stage2/07-task-scheduler/scheduler/cron.go:189-196 | the scan is membership |
| Cron.MatchesTime | stage2/07-task-scheduler/scheduler/cron.go:180-187 | a time matches when all six parts of its civil time are listed |
| Cron.MatchesListed | stage2/07-task-scheduler/scheduler/cron.go:180-187 | the second that a civil time stands for matches if and only if its second, minute, hour, day, month and weekday are listed |
| Cron.Next | stage2/07-task-scheduler/scheduler/cron.go:163-177 | the earliest listed civil time strictly after the instant, in whole seconds, or none when there is none within 366 days |
| Cron.NextIsEarliest | stage2/07-task-scheduler/scheduler/cron.go:163-173 | the least matching second after an instant is that of the earliest listed civil time after it |
| Cron.NoneWithinMeaning | stage2/07-task-scheduler/scheduler/cron.go:163-177 | Next finds none if and only if no listed civil time comes within the 366 days after the instant |
| CronReach.NextAlwaysFinds | stage2/07-task-scheduler/scheduler/cron.go:163-177 | for every parsed expression, Next finds a time from every instant on if and only if each of the 10,227 days of the years 2001 to 2028 has a listed day among the 366 from it on |
| CronReach.EveryTimeIsListed | stage2/07-task-scheduler/scheduler/cron.go:48-187 | for every civil time there is an expression whose six fields list just its parts |
| CronReach.FindsBySoon | stage2/07-task-scheduler/scheduler/cron.go:165-173 | times of day do not matter for that: it is listed days that have to come within 366 days of every day |
| CronReach.TwinDay | stage2/07-task-scheduler/scheduler/cron.go:165-173 | 28 years stand for all: every day of every year has a twin there whose next 366 days have the same months, days and weekdays |
| CronReach.AnyWeekdayFinds | stage2/07-task-scheduler/scheduler/cron.go:163-177 | if every weekday is listed, Next finds a time from every instant on if and only if some listed month and day exist in every year |
| CronReach.NothingIn2001 | stage2/07-task-scheduler/scheduler/cron.go:175-176 | without such a day it finds nothing from the start of 2001, whatever the weekdays |
| CronReach.SundayNewYear | stage2/07-task-scheduler/scheduler/cron.go:175-176 | such a day is not enough if weekdays are restricted: midnight of 1 January on Sundays is missed from the start of 2001 |
| CronReach.NineDaysFind | stage2/07-task-scheduler/scheduler/cron.go:163-177 | nine listed days in a row within the first 28 of a listed month are enough, whatever the weekdays |
| CronReach.OneRunFinds | stage2/07-task-scheduler/scheduler/cron.go:163-177 | if one month, days in a row within its first 28 and one weekday are listed, Next finds a time from every instant on if and only if the days are nine or more |
| Calendar.DayToDate | stage2/07-task-scheduler/scheduler/cron.go:180-187 | every day number has one date, which exists |
| Calendar.DateToDay | stage2/07-task-scheduler/scheduler/cron.go:180-187 | every existing date is that of its day number |
| Calendar.NextDay | stage2/07-task-scheduler/scheduler/cron.go:180-187 | the day after a date is the next of its month, the first of the next, or New Year's Day |
| Calendar.NextWeekday | stage2/07-task-scheduler/scheduler/cron.go:180-187 | weekdays follow one another, and 1 January 2001 was a Monday |
| Calendar.CivilToSecond | stage2/07-task-scheduler/scheduler/cron.go:180-187 | every existing civil time is that of its second |
| Calendar.SecondToCivil | stage2/07-task-scheduler/scheduler/cron.go:180-187 | every second has a civil time, which exists |
| Calendar.SameDateNextYear | stage2/07-task-scheduler/scheduler/cron.go:167-173 | a date existing in two successive years comes back after 365 or 366 days |
| Singleflight.MutualExclusion | stage2/05-cache/cache/singleflight.go:43-69 | over all interleavings at most one goroutine at a time is between registering and removing a call for a key |
| Singleflight.RemovesOwnCall | stage2/05-cache/cache/singleflight.go:63-66 | the leader's delete always removes its own call |
| Singleflight.JoinsUnreturnedCall | stage2/05-cache/cache/singleflight.go:47-51 | who joins a call joins one of the same key whose leader has not returned yet |
| Singleflight.SameResult | stage2/05-cache/cache/singleflight.go:50-68 | all goroutines that return from one call return the same value and error under the same key |
| Singleflight.ReleasedCanReturn | stage2/05-cache/cache/singleflight.go:49-61 | a follower can return exactly when its call has been released; until then the leader is still at work on it |
| Singleflight.NeverStuck | stage2/05-cache/cache/singleflight.go:43-69 | some step is possible until all calls of Do have returned |
| Singleflight.LessLeft | stage2/05-cache/cache/singleflight.go:43-69 | every step but a new call of Do leaves one step fewer to do |
| Singleflight.StepKeepsInv | stage2/05-cache/cache/singleflight.go:43-69 | every step of every goroutine keeps the protocol's invariant |
| Singleflight.Singleflight.Enter | stage2/05-cache/cache/singleflight.go:44-57 | finds the call in flight for the key, or registers a new one |
| Singleflight.Singleflight.Write | stage2/05-cache/cache/singleflight.go:60 | writes the outcome into this call only |
| Singleflight.Singleflight.Release | stage2/05-cache/cache/singleflight.go:61 | releases the followers of this call only |
| Singleflight.Singleflight.Remove | stage2/05-cache/cache/singleflight.go:64-66 | removes the key, and nothing else, from the calls in flight |
| CacheAside.FetchedOnce | stage2/05-cache/cache/singleflight.go:93-119 | however Gets interleave and fetches fail, a key is fetched successfully at most once, and every successful Get of it returns that one value |
| CacheAside.NeverStuck | stage2/05-cache/cache/singleflight.go:93-119 | some step is possible until all Gets have returned |
| CacheAside.LessLeft | stage2/05-cache/cache/singleflight.go:93-119 | every step but a new Get leaves its goroutine fewer steps to do and the others no more |
| CacheAside.FetchesOnlyMissing | stage2/05-cache/cache/singleflight.go:93-109 | a Get of a cached key answers at its first look; another fetches only if it leads and the key is still missing |
| CacheAside.RunsSingleflight | stage2/05-cache/cache/singleflight.go:100-116 | what happens inside Do is a run of the singleflight protocol |
| CacheAside.StoredBeforeChecked | stage2/05-cache/cache/singleflight.go:101-114 | whatever has been fetched under a key is in the cache by the time a new leader looks again |
| CacheAside.StepKeepsInv | stage2/05-cache/cache/singleflight.go:93-119 | every step keeps the invariant of cache, calls and fetches |
| CacheAside.Cache.Get | stage2/05-cache/cache/cache.go:58-89 | returns the cached value and counts a hit or a miss |
| CacheAside.Cache.Set | stage2/05-cache/cache/cache.go:92-120 | stores the value under the key |
| CacheAside.CacheAside.Get | stage2/05-cache/cache/singleflight.go:93-119 | an undisturbed Get returns the cached value or the fetched one, caches a successful fetch only, and leaves nothing in flight |
| TaskWaiter.NoLostWakeup | stage2/07-task-scheduler/scheduler/waiter.go:42-169 | in every reachable state, Resets included, whoever is parked on a satisfied request is awaited by a MarkComplete of one of its tasks that has unlocked and not broadcast |
| TaskWaiter.WokenReturns | stage2/07-task-scheduler/scheduler/waiter.go:63-74 | a woken waiter whose condition holds returns at its next look, and not with a cancellation unless its context is done |
| TaskWaiter.LookExactly | stage2/07-task-scheduler/scheduler/waiter.go:63-158 | whoever looks goes to sleep if and only if what it waits for does not hold and its context is live; else it returns, and gives up if and only if its context is done and it has not found the outcome first, as Wait does always and WaitAny on entry |
| TaskWaiter.NobodyGivesUpEarly | stage2/07-task-scheduler/scheduler/waiter.go:63-158 | over every run: who is told of a cancellation had its context cancelled, and what it waited for did not hold, unless it was a WaitAll or a WaitAny after a wakeup |
| TaskWaiter.CancelledMeaning | stage2/07-task-scheduler/scheduler/waiter.go:42-60 | a context is done if and only if it was at the last call or has been cancelled since |
| TaskWaiter.BroadcastWakes | stage2/07-task-scheduler/scheduler/waiter.go:50-169 | the broadcast of a MarkComplete, or of a context that is done, can be made and wakes everybody asleep |
| TaskWaiter.RestIsWaiting | stage2/07-task-scheduler/scheduler/waiter.go:42-169 | when no waiter, MarkComplete or done context can move, and only then, whoever still waits sleeps on something that does not hold, with a live context |
| TaskWaiter.AnswersAreTruthful | stage2/07-task-scheduler/scheduler/waiter.go:42-160 | every Wait, WaitAny and WaitAll returns what the last MarkComplete calls before it recorded; WaitAny the first completed in the order of its arguments |
| WaitOrder.WaitAnyEarliest | stage2/07-task-scheduler/scheduler/waiter.go:77-114 | in every reachable state what a WaitAny returned is the first of its tasks to complete if and only if no other argument had completed before the first completed one in argument order |
| WaitOrder.OnlyOneIsEarliest | stage2/07-task-scheduler/scheduler/waiter.go:77-114 | it is whenever at most one argument is completed at the look that finds it |
| WaitOrder.FirstListedNotEarliest | stage2/07-task-scheduler/scheduler/waiter.go:77-89 | a run that marks b, then a: WaitAny of a and b returns a |
| WaitOrder.OrderMeaning | stage2/07-task-scheduler/scheduler/waiter.go:164-184 | the order of completion lists exactly the tasks recorded as completed, once each |
| TaskWaiter.ParksUnsatisfied | stage2/07-task-scheduler/scheduler/waiter.go:63-158 | a caller goes to sleep only on an unsatisfied request with a live context |
| TaskWaiter.TaskWaiter.Record | stage2/07-task-scheduler/scheduler/waiter.go:164-167 | records completion and error of this task only |
| TaskWaiter.TaskWaiter.Reset | stage2/07-task-scheduler/scheduler/waiter.go:179-184 | clears this task only |
| TaskWaiter.TaskWaiter.LookOne | stage2/07-task-scheduler/scheduler/waiter.go:63-73 | one locked look of Wait: completion before context; sleeps only on an uncompleted task with a live context, gives up only with a context that is done |
| TaskWaiter.TaskWaiter.ScanAny | stage2/07-task-scheduler/scheduler/waiter.go:82-114 | the loop finds the first completed task in argument order |
| TaskWaiter.TaskWaiter.LookAny | stage2/07-task-scheduler/scheduler/waiter.go:82-115 | one locked look of WaitAny: completion first on entry, the context first afterwards; when it sleeps and when it gives up |
| TaskWaiter.TaskWaiter.LookAll | stage2/07-task-scheduler/scheduler/waiter.go:137-158 | one locked look of WaitAll: the context first, then all errors once all are completed; when it sleeps and when it gives up |
| FanOut.OutputsArePrefixes | stage1/04-pubsub/pubsub/fanout.go:91-108 | at every step each output is a prefix of the input consumed, lengths do not increase with the index and differ by at most one |
| FanOut.CompleteAtClose | stage1/04-pubsub/pubsub/fanout.go:84-98 | once an output is closed nothing is sent any more; without cancellation each has then delivered the whole input |
| FanOut.StopsWhenClosed | stage1/04-pubsub/pubsub/fanout.go:84-108 | some step is possible until all outputs are closed |
| FanOut.RunsEnd | stage1/04-pubsub/pubsub/fanout.go:84-108 | no run has more steps than copying every message to every output and closing them takes |
| FanOut.Distribute | stage1/04-pubsub/pubsub/fanout.go:91-108 | the goroutine's loop, for every choice of its selects |
| FanIn.OutputInterleavesPrefixes | stage1/04-pubsub/pubsub/fanout.go:133-149 | at every step the output interleaves prefixes of the inputs, each in its order, with at most one message per input under way, and nothing else |
| FanIn.NeverSendsAfterClose | stage1/04-pubsub/pubsub/fanout.go:157-161 | nobody sends on the merged channel after it is closed |
| FanIn.CompleteAtClose | stage1/04-pubsub/pubsub/fanout.go:127-164 | without cancellation it has then carried every input to its end, and nothing besides |
| FanIn.StopsWhenClosed | stage1/04-pubsub/pubsub/fanout.go:127-164 | some step is possible until the merged channel is closed |
| FanIn.RunsEnd | stage1/04-pubsub/pubsub/fanout.go:127-164 | no run has more steps than two for every message, one for every input and one to close |
| FanIn.Multiplex | stage1/04-pubsub/pubsub/fanout.go:133-149 | one goroutine's loop, for every choice of its selects |
| Pipeline.OutputIsPrefixOfComposedMap | stage1/04-pubsub/pubsub/fanout.go:172-203 | at every step the output is a prefix of the composed map of the input, with at most one message in flight per stage |
| Pipeline.CompleteAtClose | stage1/04-pubsub/pubsub/fanout.go:172-203 | without cancellation it is the composed map of the whole input when it closes |
| Pipeline.StopsWhenClosed | stage1/04-pubsub/pubsub/fanout.go:172-203 | some step is possible until all stages are closed |
| Pipeline.RunsEnd | stage1/04-pubsub/pubsub/fanout.go:172-203 | no run has more steps than it takes to bring every message in, transform and hand it on at every stage, and close the stages |
| Pipeline.MapCompose | stage1/04-pubsub/pubsub/fanout.go:173-175 | stage after stage is the map of their composition |
| Pipeline.PipelineStage | stage1/04-pubsub/pubsub/fanout.go:182-200 | one stage's loop, for every choice of its selects |
| Pipeline.Chain | stage1/04-pubsub/pubsub/fanout.go:172-177 | the loop over the stages |
| WorkerPool.JobsConserved | stage1/02-worker-pool/pool/pool.go:67-91 | in every reachable state every job, as often as it was accepted, is queued, in a worker's hands or answered |
| WorkerPool.ResultsAreProcessed | stage1/02-worker-pool/pool/pool.go:80-82 | every result carried is that of its job |
| WorkerPool.OneResultPerJob | stage1/02-worker-pool/pool/pool.go:100-109 | with at least one worker and no cancellation the results, when they close, have carried exactly one result per accepted job |
| WorkerRest.NeverStuck | stage1/02-worker-pool/pool/pool.go:67-109 | with its jobs closed, some step is possible until all workers have exited, the results are closed and all are received: without a cancellation one for every accepted job |
| WorkerRest.RunsEnd | stage1/02-worker-pool/pool/pool.go:67-109 | the pool takes at most four steps of its own for every accepted job, one for every worker and one to close the results |
| WorkerRest.TakenInOrder | stage1/02-worker-pool/pool/pool.go:67-91 | jobs are taken in the order in which they were accepted, and the queue fits into its buffer |
| WorkerPool.WorkerPool.Work | stage1/02-worker-pool/pool/pool.go:67-85 | one worker's loop on closed jobs answers the jobs it takes, in order, and all of them unless cancelled |
| GracefulPool.JobsConserved | stage1/02-worker-pool/pool/graceful_pool.go:91-137 | in every reachable state every accepted job is queued, in a worker's hands, answered or dropped |
| GracefulPool.DropsOnlyAfterCancel | stage1/02-worker-pool/pool/graceful_pool.go:83-106 | reports are dropped, and a send on the closed results recovered, only after a timeout or a forced shutdown has cancelled the pool |
| GracefulPool.OneReportPerJob | stage1/02-worker-pool/pool/graceful_pool.go:173-223 | with at least one worker and no cancellation the results, when they close, have carried exactly one report per accepted job |
| GracefulPool.CleanShutdown | stage1/02-worker-pool/pool/graceful_pool.go:173-208 | a GracefulShutdown that returns no error has seen all workers exit, and unless somebody cancelled no accepted job is lost |
| GracefulPool.ReportsAreProcessed | stage1/02-worker-pool/pool/graceful_pool.go:112-122 | every report carried is that of its job, a panic turned into an error |
| GracefulPool.NothingAcceptedAfterDrain | stage1/02-worker-pool/pool/graceful_pool.go:125-165 | once a shutdown has begun no job is accepted any more, neither into the buffer nor by a worker that waits for one |
| GracefulPool.CallKeepsInv | stage1/02-worker-pool/pool/graceful_pool.go:160-223 | every step of Drain, GracefulShutdown and ForceShutdown, by any number of callers, keeps the invariant |
| GracefulPool.JobsClosedByThen | stage1/02-worker-pool/pool/graceful_pool.go:160-223 | whoever shuts down has closed the jobs by the time it waits for the workers or returns |
| GracefulRest.ShutdownCompletes | stage1/02-worker-pool/pool/graceful_pool.go:173-223 | when nothing is left to happen after a shutdown has begun, it has returned, all workers have exited, jobs and results are closed, exactly one report of every accepted job has been received unless the pool was cancelled, and the pool is marked as stopped unless Drain was called on its own |
| GracefulRest.NeverStuck | stage1/02-worker-pool/pool/graceful_pool.go:83-223 | after a Drain or shutdown has begun some step is possible until all workers have exited, all callers have returned and all reports have been received |
| GracefulRest.ShutdownEnds | stage1/02-worker-pool/pool/graceful_pool.go:83-223 | once the pool does not accept jobs, no more steps can follow than are left to do, other than beginnings of further shutdowns |
| GracefulRest.TakenInOrder | stage1/02-worker-pool/pool/graceful_pool.go:91-137 | jobs are taken in the order in which they were accepted, and the queue fits into its buffer |
| GracefulPool.GracefulPool.Submit | stage1/02-worker-pool/pool/graceful_pool.go:125-137 | accepts the job exactly when the pool runs |
| GracefulPool.GracefulPool.Drain | stage1/02-worker-pool/pool/graceful_pool.go:160-165 | stops accepting and closes the jobs |
| GracefulPool.GracefulPool.Work | stage1/02-worker-pool/pool/graceful_pool.go:91-108 | one worker's loop on drained jobs answers them in order, panics included; only a cancellation makes it leave jobs or drop one report |
| GracefulPool.GracefulPool.GracefulShutdown | stage1/02-worker-pool/pool/graceful_pool.go:173-208 | without a timeout all jobs are answered, in order, when the results close |
| ManagedPool.SlotsAccountedFor | stage2/06-connection-pool/pool/managed.go:155-301 | over all interleavings of Acquire, Release, cleanup, WarmUp and EnsureMinConnections the slots taken are the connections idle, held, in some goroutine's hands or being created, never more than the maximum; created less destroyed are there |
| ManagedPool.OnePlaceOnly | stage2/06-connection-pool/pool/managed.go:155-301 | no connection is idle twice, idle and held, held twice or in the hands of two goroutines |
| ManagedPool.NeverFullNeverStuck | stage2/06-connection-pool/pool/managed.go:174-206 | the branches for a full pool are unreachable, and no receive from the semaphore blocks |
| ManagedPool.OnlyBlockedWaits | stage2/06-connection-pool/pool/managed.go:155-480 | whoever is inside a call can go on, but for an Acquire that waits when nothing is idle |
| ManagedPool.TakesOldestIdle | stage2/06-connection-pool/pool/managed.go:216-259 | an Acquire that looks takes the connection that has been idle longest, if there is any |
| ManagedPool.SecondReleaseIgnored | stage2/06-connection-pool/pool/managed.go:23-34 | releasing again what is released and not acquired since does nothing |
| ManagedPool.BlockedBesideFreeSlot | stage2/06-connection-pool/pool/managed.go:257-272 | a run in which the only connection is destroyed on release and a blocked Acquire stays blocked beside the free slot |
| PoolWait.BlockedBesideFreeSlots | stage2/06-connection-pool/pool/managed.go:238-272 | in every reachable state, a blocked Acquire stands beside as many free slots as were given back less those taken since it blocked: beside a free one if and only if more were given back than taken |
| PoolWait.NeverBesideFreeSlot | stage2/06-connection-pool/pool/managed.go:155-301 | as long as no connection is found stale and the factory does not fail, whoever is blocked is so because all slots are taken |
| PoolWait.TakenBalance | stage2/06-connection-pool/pool/managed.go:155-480 | over any steps from any reachable state the slots taken change by those taken less those given back |
| ManagedPool.StepExplained | stage2/06-connection-pool/pool/managed.go:155-480 | every step of every goroutine moves, makes or destroys exactly one thing, or none |
| ManagedPool.StepKeepsInv | stage2/06-connection-pool/pool/managed.go:155-480 | every step keeps the accounting |
| PoolObject.ManagedPool.constructor | stage2/06-connection-pool/pool/managed.go:108-126 | an empty pool; a maximum of 0 or less becomes 10 |
| PoolObject.ManagedPool.Acquire | stage2/06-connection-pool/pool/managed.go:212-273 | an undisturbed Acquire destroys exactly the stale connections at the front, returns the first healthy one if there is one, else creates one, and would block only when users hold all slots |
| PoolObject.ManagedPool.StaleFrontMeaning | stage2/06-connection-pool/pool/managed.go:185-226 | the stale front is what is invalid, too old or unused for too long, and the connection behind it is none of that |
| PoolObject.ManagedPool.DestroysUnfit | stage2/06-connection-pool/pool/managed.go:185-202 | a connection is destroyed if and only if it is invalid, older than the longest lifetime or unused for longer than the longest idle time, where there are such limits |
| PoolObject.ManagedPool.Release | stage2/06-connection-pool/pool/managed.go:23-34 | returns a held connection to the end of the queue or destroys it; a second call changes nothing |
| PoolObject.ManagedPool.CleanupIdleConnections | stage2/06-connection-pool/pool/managed.go:155-182 | keeps exactly the healthy idle connections in their order and gives back the slots of the others |
| PoolObject.ManagedPool.WarmUp | stage2/06-connection-pool/pool/managed.go:386-431 | makes idle connections up to the minimum size, and tells why it stops short of it: the context is done, no slot is free, or the factory failed |
| PoolObject.ManagedPool.EnsureMinConnections | stage2/06-connection-pool/pool/managed.go:436-480 | makes up the difference to the minimum size exactly, or tells why it stops short of it |

## Left out

- Buckets.GrantBound: assumes requests for n >= 0, a clock that does not go back, a positive interval and rate and capacity not below 0; reals stand for floats, so rounding is not modelled.
- Buckets.TokenBucket.Allow: an interval of 0, where the source's float quotient is infinite or not a number, is modelled by what its comparisons come to; the bounds on what is granted are for a positive interval.
- SlidingWindow.SlidingWindowCounter.Allow: a window of 0 likewise; the weighted count is a real, not a float, and the bounds are for a positive window.
- SlidingWindow.SlidingWindowLog.Cleanup: assumes, as all properties of the sliding windows do, a clock that does not go back.
- LruCache.LRUCache.Get: counters are unbounded, not 64 bits wide, here as in the other components that count.
- PriorityQueue.PriorityQueue.UpdatePriority: assumes that the queue refers to the task only once, and that nobody changes a queued task meanwhile.
- CacheAside.Cache.Get: without expiry, its lazy deletion and the access statistics of an entry.
- CacheAside.Cache.Set: without expiration, the metadata of an entry and eviction at the maximum size.
- CacheAside.FetchedOnce: for an unbounded cache without expiry that only Get writes; eviction, expiry, Set and Invalidate are not part of it, and fetch functions do not panic.
- ManagedPool.SlotsAccountedFor: before Close, and without a Release by a former holder after somebody else acquired the connection; the statistics other than created and destroyed are not modelled.
- PoolObject.ManagedPool.WarmUp: of an open pool; the check for a closed one is left out, as Close is.
- PoolObject.ManagedPool.EnsureMinConnections: which of several ready branches its select takes is the oracle's choice; the counters of warmed-up connections and errors are left out.
- ReadyOrder.ReadySortedIffFlat: for queues whose tasks are all ready, as is ReadyOrder.ReadyByPriorityIffLevel; when some are not, ReadyOrder.FlatIsSorted gives the sufficient half only, since where the others can stand in the heap then decides too.
- CronReach.NextAlwaysFinds: for an expression with listed weekdays that is none of the other lemmas' kinds, the condition is a check of 10,227 days, not one of the fields alone.
- GracefulPool.GracefulPool.Submit: of a pool with room in the jobs buffer; in the step machine of the same module a full buffer blocks, and the context's branch of the select, which changes nothing, is no step.
- GracefulPool.GracefulPool.GracefulShutdown: with one worker's loop in line; the other workers, the wait group and the order of exits are in the step machine, shutdown callbacks nowhere.
- GracefulPool.NothingAcceptedAfterDrain: Submit finds the pool running and sends in one step; a Submit caught between the two by a Drain, which would panic, is not modelled.
- GracefulPool.GracefulPool.Work: runs one worker on its own with room in the results channel; shutdown callbacks, signals and the worker counter are not modelled.
- TaskWaiter.NoLostWakeup: says nothing about how soon a cancellation is noticed; the context's broadcast is made without the lock.
- ShardedMap.ShardedMap.Range: methods are atomic; what a Range sees of concurrent writers to other shards is not modelled. The default FNV hash is any function from keys to hashes, and replacing it on a filled map is left out.
- TtlMap.TTLMap.constructor: does not start the cleanup goroutine; TtlMap.CleanupUnobservable covers cleanups at any point of a trace.
- TtlMap.TTLMap.Get: lazy deletion is atomic with the look, so its race with a fresh Set is not modelled; the cleanup goroutine's ticker, and SetNoExpire's deadline of 292 years, are not either.
- ShardedMap.ShardedMap.constructor: for counts up to 2^62, beyond which making the shards panics.
- Cron.Next: in UTC; time zones and daylight saving are not modelled.
- Pipeline.Chain: runs the stages one after the other on whole message sequences; their interleaving is in the step machine of the same module.
- Broadcast drops messages to slow receivers by design; DynamicPool, the basic connection pool, MutexMap, RWMutexMap and SyncMap, DistributedLock and the counters would only add easy members.
- The scheduler's run loop marks a failed task completed, so what it promises is not what it does; it is left out, as are the broker, the crawler, the HTTP servers, middleware and command lines, which are input and output.
- The scheduling of real goroutines: that a step which stays possible is taken at last is not part of the machines, nor that consumers keep receiving.
