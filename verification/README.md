# RainWebServer, modelled and verified in Dafny

RainWebServer is a C++ web server on a reactor event loop, with its own memory
allocator, LFU cache and asynchronous log. This project models the parts of it whose
guarantees hold over whole runs, in Dafny 4.11, and proves those guarantees.

Check everything with `dafny verify dfyconfig.toml`.

## What is modelled

Each component comes in two layers. A value layer describes the state and what one step
does to it, and the invariants and run theorems are proved about that. A class then has
the fields of the C++ class and methods that update them in place, loops included, and
each method is proved to perform exactly the step of the value layer.

| files | component |
|---|---|
| `SizeClasses`, `FreeLists`, `PoolOwnership`, `PoolSafety`, `PoolTransfers`, `PoolLoss`, `PoolLeaks`, `MemoryPool` | thread caches and central cache of the memory pool |
| `PageSpans`, `PageCache` | page cache: best fit, splitting, merging |
| `LfuCache`, `LfuLimits`, `LfuOverfill`, `LfuReference`, `FreqLists`, `RainLfu` | LFU cache: aging, cached minimum, linked frequency lists |
| `FixedBuffers`, `AsyncLog`, `LogStreams` | double-buffered log, integer formatting |
| `EventLoops` | functor queue and wakeup of the event loop |
| `Buffers`, `Pollers`, `TcpConnections` | byte buffer, channel and epoll books, output path of a connection |
| `TimerQueues` | ordered timer set with a one-shot alarm |
| `HashRings` | consistent-hash ring |
| `Sequences`, `Decimals` | sequences without repetition, decimal text |

`MemoryPool` and `PageCache` carry that value in a ghost field `view`; the other classes
compute it from their fields with `View()` or `Value()`. For the log, the event loop and
the connection `After(schedule)` is the state that a schedule leads to, the run theorems
are lemmas about it for every schedule, and `RunSchedule` performs a schedule on the
object and ends in that state.

### The memory pool

Memory is a map from word addresses to words, and free lists are threaded through the
first word of each free block. `PoolOwnership` cuts the calls of any number of threads
at the locks of the central cache; what a thread does on its own data is one step, each
locked region is one step, and user code may write any word of a block it holds between
any two of them. Every carved block is in exactly one place, in every state of every
run: in the user's hands, in one thread list, in one central list, in the one chain that
a thread carries between its own list and a central list, or lost.

Blocks are lost because `returnRange` looks for the end of the returned chain within a
bound and cuts the chain there. `PoolLoss` says exactly when: a step loses blocks if and
only if the chain is longer than the bound and than one block. The bound of a
`deallocate` is too small if and only if its size was 0 and two blocks or more are
returned, or if fetches that failed have left the counter so low that the bytes it stands
for are fewer than the blocks returned. `RunLosesIffShort` carries this over whole runs:
blocks are lost if and only if some `deallocate` started such a return and the return took
place. A run with neither cause loses nothing, and `PoolLeaks` has a run for each cause
alone: with no failed fetch and all sizes 0, 48 blocks are lost; with all sizes 8 and 344
failed fetches, one.

The thread counter `freeListSize_` is a `size_t` that is decremented before the list is
known to be non-empty, so it may wrap. It is modelled modulo 2^64. A counter grows by at
most 64 a step, so the theorems cover runs of fewer than 2^64 / 64 steps; beyond that the
counter itself could overflow upwards. The number of bytes handed to `returnRange` as a
bound on the number of blocks is reduced modulo 2^64 as well, and is proved not to have
wrapped because the blocks of one list are disjoint and addresses lie below 2^47.

Three points where the code is followed literally: `std::max(sizeof(1), ...)`
(src/memory/ThreadCache.cpp:171) makes every batch at least 4 blocks; the block count
computed for blocks above 32 KB is 0, and one block is handed out all the same
(src/memory/CentralCache.cpp:41-55); and a chain of a single block is never terminated by
the carving code, which relies on the zero fill of src/memory/PageCache.cpp:137. The
central cache never gives a span back, so every span it carves is a fresh one from the
system.

### The page cache

`allocateSpan` dereferences the head of the list that `lower_bound` finds
(src/memory/PageCache.cpp:15-18), but merging can leave a key with a null head
(lines 86 and 91). The model requires that the list found is not empty.
`RequestIsServedIff` shows that this is the exact condition under which a request can be
served, `FreeLeavesNullHeadIff` says exactly which frees create a null head (allocations
never do), and `NullHeadIsReachable` gives a run of well-formed calls that does.

### The LFU cache

`updateMinFreq` starts from `INT8_MAX` (include/util/RainLfu.h:310), so it cannot see a
minimum of 127 or more. `MinimumIsTrustedIff` proves that the cached minimum is right
after every run exactly when the limit on the average lies between 2 and 250: inside
these limits a pigeonhole argument bounds the minimum by the average; outside them a run
of one `put` and some `get`s of one key ends with a wrong minimum. The default limit of
1000000 (include/util/RainLfu.h:115), which src/main.cc:87 uses, lies outside; the
default of the sharded cache, 10, lies inside. The order in which the hash map is
traversed while aging is a parameter.

`LfuReference` is the cache without lists and without a cached minimum: counts, times of
last touch, the least used and oldest victim, and aging when there are more accesses per
key than the limit. Inside 2..250 every run is a run of this reference, aging included;
outside, every run is up to its first aging pass.

A wrong cached minimum that names an empty list is always 1, and list 1 exists whenever
the cache has entries, so no null pointer is followed under any limit (`RunIsTame`).
`kickOut` then finds the tail sentinel, which `removeNode` leaves alone
(include/util/RainLfu.h:87); nothing leaves, the total drops by the sentinel's frequency
of 1, and the new key enters a full cache. `CapacityIsRespectedIff` proves that for every
capacity of at least 1 the size stays within the capacity in every run exactly when the
limit lies between 2 and 250: under any other limit `OverfilledRun` fills the cache,
brings all its keys out of reach of `updateMinFreq`, and puts one more. `kickOut` also
erases the sentinel's key, which is never initialised, from the node map; the model takes
it to be none of the cache's keys. A total that has become negative is converted to
`size_t` and the quotient to `int` in the average (line 258), and the model does so too.

### The log, the event loop and the connection

`AsyncLogging` leaves its loop without a last swap (src/log/AsyncLogging.cc:58, 101).
In every run the file is a prefix of the accepted lines; once the backend has finished it
holds all of them if and only if no non-empty one came after the last swap, and
`StopMayDropLine` shows one that did. A line of 4,000,000 bytes or more fits no buffer and
is dropped by `FixedBuffer::append`.

The loop thread wakes itself only while it runs functors, so work that it queues before
it enters `loop` is not signalled. `SleepsOnWorkIff` is exact: over every interleaving the
loop is about to sleep on pending work if and only if this is its first poll, its own
thread queued something early, and no other thread has pushed or quit.

Connections are modelled with all calls made in the loop thread. A fault of the direct
write (EPIPE or ECONNRESET) drops that one message; any other error queues it. A send that
reaches `sendInLoop` after the close is logged and goes on (src/net/TcpConnection.cc:79-82);
its bytes may still go out and its completion callback be queued.
`SendAfterCloseStaysUnwatchedIff` says exactly when the interest mask stays empty, and
that otherwise the closed connection is watched for writability again.

### The timer queue and the hash ring

`now()` and the alarm are on different clocks, so nothing is assumed about how they
relate: the alarm may go off before `now()` says that its timer is due. Then `handleRead`
finds nothing and leaves the alarm off. `IdleQueueIsArmedIff` says exactly when an idle
queue has its alarm set, and `PunctualQueueIsArmed` that it always has when `now()` never
lags behind the alarm.

`getNode` uses `upper_bound`, the first hash strictly greater than the key's, although its
comment says greater or equal (include/util/ConsistenHash.h:90-91). The model follows the
code.

## Model

| member | source | states |
|---|---|---|
| SizeClasses.RequestFitsItsClass | include/memory/Common.h:26-37 | a request of 1 byte to 256 KB falls in the smallest class whose blocks hold it, and `roundUp` is the block size of that class |
| SizeClasses.ZeroIsRoundedToZero | include/memory/Common.h:26-37 | size 0 is rounded to 0 although its class is that of 8 bytes |
| SizeClasses.BatchNumRange | src/memory/ThreadCache.cpp:145-172 | a batch is 4 to 64 blocks, for every class |
| SizeClasses.BatchNumIs | src/memory/ThreadCache.cpp:145-172 | a batch is 64 blocks up to 32 bytes, beyond that the largest power of two of blocks that take at most 2 KB, and never fewer than 4 |
| SizeClasses.CarvedBlocksFitTheSpan | src/memory/CentralCache.cpp:142-158 | the blocks carved from a span fit in its pages, also for classes whose computed count is 0 |
| SizeClasses.SpanIsUsedUp | src/memory/CentralCache.cpp:142-158 | a span of 32 KB is carved up to less than a block, and a larger block gets the least number of pages that hold it |
| FreeLists.ChainIsAcyclic | src/memory/CentralCache.cpp:75-92 | a list read off memory to its null end never meets a block twice |
| FreeLists.ChainIsUnique | src/memory/CentralCache.cpp:75-92 | the head and memory alone determine the list |
| FreeLists.ChainCut | src/memory/ThreadCache.cpp:124-131 | writing null into the n-th block cuts a list into its first n blocks and the rest |
| FreeLists.ChainJoin | src/memory/CentralCache.cpp:119-131 | linking the last block of one list to the head of another joins the two |
| FreeLists.ChainSplice | src/memory/CentralCache.cpp:128-131 | linking the n-th block of one list to the head of another drops the blocks behind it |
| FreeLists.ChainPush | src/memory/ThreadCache.cpp:47-49 | pushing a block that is in no list puts it in front |
| PoolSafety.AllocKeeps | src/memory/ThreadCache.cpp:6-35 | `allocate` up to a miss keeps the ownership invariant |
| PoolSafety.FetchSharedKeeps | src/memory/CentralCache.cpp:73-93 | cutting a batch off the shared list keeps the ownership invariant |
| PoolSafety.CarveKeeps | src/memory/CentralCache.cpp:27-72 | carving a fresh span keeps the ownership invariant |
| PoolSafety.CarvedBlockInSpan | src/memory/CentralCache.cpp:40-71 | a carved block is 8-aligned and lies wholly inside its span |
| PoolSafety.CarvedBlocksApart | src/memory/CentralCache.cpp:40-71 | two blocks of one span do not overlap |
| PoolSafety.CarvedBlockIsNew | src/memory/CentralCache.cpp:40-71 | a carved block overlaps no block carved before |
| PoolSafety.FailKeeps | src/memory/ThreadCache.cpp:75-77 | a fetch that fails keeps the ownership invariant, with the counter one lower |
| PoolSafety.FinishKeeps | src/memory/ThreadCache.cpp:69-90 | the end of a fetch keeps the ownership invariant, and there is a block to hand out |
| PoolSafety.PushKeeps | src/memory/ThreadCache.cpp:45-52 | taking a block back keeps the ownership invariant |
| PoolSafety.SplitKeeps | src/memory/ThreadCache.cpp:92-142 | cutting the surplus off a thread list keeps the ownership invariant, for every size passed |
| PoolSafety.ReturnKeeps | src/memory/CentralCache.cpp:106-140 | putting the reached part of a returned chain in front of the shared list keeps the ownership invariant |
| PoolSafety.LimitReachesTheEnd | src/memory/ThreadCache.cpp:100-139 | the bound passed to `returnRange` has not wrapped, and is at least the length of the chain unless a fetch for the list has failed |
| PoolSafety.ListFitsAddressSpace | src/memory/CentralCache.cpp:119-127 | the blocks of a list take no more than the address space, because they are disjoint |
| PoolSafety.StepKeepsInvariant | src/memory/ThreadCache.cpp:6-142 | every step of every thread keeps the invariant, and no carved block disappears |
| PoolSafety.RunIsSafe | src/memory/ThreadCache.cpp:6-142 | every state of every interleaving satisfies the invariant |
| PoolSafety.RunForgetsNothing | src/memory/CentralCache.cpp:9-140 | a carved block stays accounted for in the rest of the run, with its class |
| PoolSafety.ExactlyOnePlace | src/memory/ThreadCache.cpp:6-142 | in every state a carved block is either in exactly one list, once, or in no list and then the user's or lost |
| PoolSafety.AllocHandsOutOneFreeBlock | src/memory/ThreadCache.cpp:25-31 | `allocate` hands out a block that nobody held, big enough for the request, and no other block changes hands |
| PoolSafety.FinishHandsOutOneFreeBlock | src/memory/ThreadCache.cpp:82-89 | the end of a fetch hands out a block of the class fetched for that nobody held, and no other block changes hands |
| PoolSafety.MissedRequestIsServed | src/memory/ThreadCache.cpp:69-90 | in every run, whatever other threads do in between, the block that ends a miss was held by nobody and is big enough for the request that missed |
| PoolSafety.CounterCoversList | src/memory/ThreadCache.cpp:22-34 | between calls the counter covers the list up to the number of failed fetches; without such the stored counter has not wrapped and is at least the length of the list |
| PoolSafety.UnderflowIsCancelled | src/memory/ThreadCache.cpp:22-34 | a decrement at 0 wraps to 2^64 - 1, and whatever other threads do before the call ends with a block the counter is then its old value plus the batch minus one modulo 2^64, and covers the list unless a fetch has failed |
| PoolSafety.SplitMakesCounterExact | src/memory/ThreadCache.cpp:124-134 | a return that splits the list leaves the counter equal to its length |
| PoolTransfers.AllocTakesHead | src/memory/ThreadCache.cpp:18-34 | `allocate` takes exactly the head of the list of the class of the request, or leaves an empty list to fetch; the stored counter goes down by one, from 0 to 2^64 - 1 |
| PoolTransfers.FetchDelivers | src/memory/CentralCache.cpp:9-104 | a fetch delivers a full batch or empties the shared list; chain followed by shared list is the old shared list, or, when that was empty, all blocks that a fresh span holds in the order of their addresses |
| PoolTransfers.FinishKeepsOthers | src/memory/ThreadCache.cpp:69-90 | the blocks behind the first become the thread list in order, and the counter grows by a whole batch however many came |
| PoolTransfers.FailMovesNothing | src/memory/ThreadCache.cpp:75-77 | a failed fetch moves no block and does not undo the decrement |
| PoolTransfers.FreeKeepsQuarter | src/memory/ThreadCache.cpp:37-142 | the freed block is put in front; with a counter over 64 and a list of at least a quarter of it the thread keeps exactly that quarter, the rest is carried away in order, and the counter is cut to what is kept |
| PoolTransfers.ReturnPutsInFront | src/memory/CentralCache.cpp:106-140 | what the bound reaches of the chain goes in front of the shared list in order: the bound or a single block at least, and all of the chain exactly if it is no longer than that |
| PoolTransfers.MissFillsList | src/memory/ThreadCache.cpp:69-90 | in every run the call that ends a miss leaves the thread with a batch less one block, unless its fetch emptied the shared list |
| PoolLoss.LostByStepIff | src/memory/CentralCache.cpp:119-131 | a block is lost by a step if and only if it lies behind the bound in a returned chain |
| PoolLoss.BoundIsTooSmallIff | src/memory/ThreadCache.cpp:97-139 | the bound of a free is too small exactly when its size was 0 and two blocks or more are returned, or the counter is too far below the list; the latter needs a failed fetch |
| PoolLoss.RunLosesIff | src/memory/CentralCache.cpp:106-140 | in every run blocks are lost if and only if some return goes beyond its bound |
| PoolLoss.RunLosesIffShort | src/memory/ThreadCache.cpp:37-142 | in every run blocks are lost if and only if some `deallocate` started a return under too small a bound, which depends on size, counter and list alone, and that return took place |
| PoolLoss.NothingIsLost | src/memory/ThreadCache.cpp:6-142 | a run in which no block is freed with size 0 and no fetch fails loses nothing |
| PoolLeaks.ZeroSizesLoseBlocks | src/memory/ThreadCache.cpp:37-59 | a run in which no fetch fails and all sizes are 0 loses 48 blocks |
| PoolLeaks.FailedFetchesLoseBlocks | src/memory/ThreadCache.cpp:22-34 | a run in which all sizes are 8 and fetches fail loses a block |
| PoolLeaks.LosingRun | src/memory/ThreadCache.cpp:92-142 | for z of 0 or 8 and every f up to 1000 with f + 49 > max(49 z, 1), a run whose sizes are all z, and in which fetches fail only if f > 0, loses f + 49 - max(49 z, 1) blocks |
| MemoryPool.LinkBlocks | src/memory/CentralCache.cpp:49-55 | the loop links the given blocks into a null-terminated chain and writes nothing else |
| MemoryPool.LinkChains | src/memory/CentralCache.cpp:44-71 | both chains of a zero-filled span are null-terminated, also a chain of one block that the code leaves unlinked |
| MemoryPool.BuildChains | src/memory/CentralCache.cpp:40-71 | a fresh span becomes the thread's chain and the shared chain, and no older word of memory changes |
| MemoryPool.MemoryPool.constructor | src/memory/ThreadCache.cpp:6-35 | the empty pool satisfies the invariant |
| MemoryPool.MemoryPool.Allocate | src/memory/ThreadCache.cpp:6-35 | the pointer returned is the head of the thread's list, null exactly on a miss; lists, counters and owners change as the step says |
| MemoryPool.MemoryPool.FinishFetch | src/memory/ThreadCache.cpp:69-90 | returns the first fetched block, keeps the others, and adds the batch to the wrapped counter |
| MemoryPool.MemoryPool.Deallocate | src/memory/ThreadCache.cpp:37-59 | for every size up to 256 KB, 0 included, the block becomes the head of its class's list, and a list over the threshold is split |
| MemoryPool.MemoryPool.PushBlock | src/memory/ThreadCache.cpp:45-52 | the block becomes the head and the counter grows by one |
| MemoryPool.MemoryPool.ReturnToCentralCache | src/memory/ThreadCache.cpp:92-142 | the list is cut after its kept quarter, unless it is shorter than that; then nothing changes |
| MemoryPool.MemoryPool.CutOwnList | src/memory/ThreadCache.cpp:124-141 | cutting at the split node gives the kept list, an exact counter, and the chain to return if there is one |
| MemoryPool.MemoryPool.WalkTo | src/memory/ThreadCache.cpp:110-122 | the walk ends at the n-th block, or at null when the list is shorter |
| MemoryPool.MemoryPool.FindEnd | src/memory/CentralCache.cpp:120-126 | the bounded walk reaches the last block if and only if the chain is no longer than the bound or a single block |
| MemoryPool.MemoryPool.ReturnRange | src/memory/CentralCache.cpp:106-140 | the part of the returned chain within the bound ends up in front of the shared list |
| MemoryPool.MemoryPool.UserWrite | src/memory/ThreadCache.cpp:29-30 | whatever the user stores in a block it holds, no list is damaged |
| MemoryPool.MemoryPool.FetchRange | src/memory/CentralCache.cpp:9-104 | the locked region cuts a batch off the shared list, or carves a span when that is empty; a full batch is delivered or the shared list is empty |
| MemoryPool.MemoryPool.FailFetch | src/memory/CentralCache.cpp:33-37 | with an empty shared list and no span the call ends with a null pointer and the counter as it was decremented |
| MemoryPool.MemoryPool.CutShared | src/memory/CentralCache.cpp:75-92 | at most a batch of blocks, from the front, becomes the thread's chain; the rest stays shared |
| MemoryPool.MemoryPool.CarveSpan | src/memory/CentralCache.cpp:29-71 | the two chains of a fresh span are headed as the code heads them |
| PageSpans.ReuseKeeps | src/memory/PageCache.cpp:12-47 | best fit with splitting keeps the span invariant |
| PageSpans.ObtainKeeps | src/memory/PageCache.cpp:49-62 | a span from the system keeps the span invariant |
| PageSpans.MergeKeeps | src/memory/PageCache.cpp:76-118 | looking for the following span, and swallowing it when it is free, keeps the span invariant and the start of the span |
| PageSpans.FreeKeeps | src/memory/PageCache.cpp:65-124 | freeing a span keeps the span invariant |
| PageSpans.StepKeepsInvariant | src/memory/PageCache.cpp:6-124 | every step keeps the span invariant |
| PageSpans.RunIsSound | src/memory/PageCache.cpp:6-124 | in every state of every run live and free spans are disjoint, their pages sum to the pages obtained, the list of key n holds exactly the free n-page spans, and the span map points at existing spans by their start |
| PageSpans.HandsOutOneFreeSpan | src/memory/PageCache.cpp:6-63 | an allocation makes exactly one span live that was not, of the size asked for, which overlaps no span a caller holds |
| PageSpans.ReuseIsBestFit | src/memory/PageCache.cpp:12-47 | a request is served by the smallest free span that is large enough, and what is too much becomes one free span behind it; nothing else changes |
| PageSpans.ReuseKeepsOrder | src/memory/PageCache.cpp:18-42 | the head of a list is taken, a remainder heads another, and all lists keep their order otherwise |
| PageSpans.ObtainOnlyWhenNoneFits | src/memory/PageCache.cpp:12-62 | the system is asked only when no free span has enough pages |
| PageSpans.FreeMergesIff | src/memory/PageCache.cpp:65-124 | a freed span swallows its follower, wherever that is in its list, if and only if the span map knows the follower and nobody holds it; it then has the pages of both, and record and map entry of the follower are gone; an unknown address changes nothing |
| PageSpans.FreeKeepsOrder | src/memory/PageCache.cpp:84-123 | the freed span heads the list of its size, the follower is cut out of its own, and all lists keep their order otherwise |
| PageSpans.FreeLeavesNullHeadIff | src/memory/PageCache.cpp:76-123 | a free leaves a null head at a key exactly when there was one or the lookup of the follower creates or empties that key, and never at the key under which the span is filed |
| PageSpans.AllocationLeavesNoNullHead | src/memory/PageCache.cpp:12-42 | an allocation creates no null head |
| PageSpans.RequestIsServedIff | src/memory/PageCache.cpp:12-25 | a request can be served if and only if the list that `lower_bound` finds is not null |
| PageSpans.NullHeadIsReachable | src/memory/PageCache.cpp:86-92 | well-formed calls can lead to a key with a null list head |
| PageCache.PageCache.LowerBoundKey | src/memory/PageCache.cpp:10-13 | the least key that is at least n, if there is one |
| PageCache.PageCache.AllocateSpan | src/memory/PageCache.cpp:6-63 | serves from the least sufficient key, or from the system when there is none; null is returned exactly when both fail, with nothing changed; otherwise the address starts the one span that becomes live, of the size asked for |
| PageCache.PageCache.TakeFromSystem | src/memory/PageCache.cpp:54-62 | new memory becomes a live recorded span |
| PageCache.PageCache.TakeFree | src/memory/PageCache.cpp:15-46 | the first span of a list becomes live, and what is too much goes back as a new span |
| PageCache.PageCache.TakeHead | src/memory/PageCache.cpp:15-25 | the head is unlinked, and the key disappears with its last span |
| PageCache.PageCache.SplitSpan | src/memory/PageCache.cpp:28-42 | the first pages stay live and the others are pushed on the list of their size |
| PageCache.PageCache.DeallocateSpan | src/memory/PageCache.cpp:65-124 | an unknown address changes nothing; a known span is filed with its pages, plus those of a follower that the span map knows and nobody holds |
| PageCache.PageCache.MergeNext | src/memory/PageCache.cpp:80-118 | the follower is unlinked, swallowed and deleted exactly when it is anywhere in the list of its size |
| PageCache.Unlink | src/memory/PageCache.cpp:84-108 | the walk finds the span if and only if it is in the list, and then bypasses it |
| PageCache.PageCache.DeleteSpan | src/memory/PageCache.cpp:111-117 | the pages of the unlinked span move to its predecessor and its record is gone |
| PageCache.PageCache.FileSpan | src/memory/PageCache.cpp:120-123 | the span becomes the head of the list of its size |
| LfuCache.MinIsExactIff | include/util/RainLfu.h:307-318 | `updateMinFreq` finds the true minimum if and only if that is below 127 |
| LfuCache.AgingIs | include/util/RainLfu.h:277-301 | an aging pass keeps every entry, files each under its frequency less half the limit and at least 1, and does not raise the sum |
| LfuCache.AgingIsFair | include/util/RainLfu.h:277-301 | after an aging pass a key is at 1 if and only if it had at most half the limit plus 1; keys above half the limit keep their distances, and no key overtakes another |
| LfuCache.AverageIs | include/util/RainLfu.h:251-259 | the average is the quotient rounded down; a negative total is first converted to `size_t`, and the quotient to `int` |
| LfuCache.CountedKeeps | include/util/RainLfu.h:251-264 | counting an access, with aging when the average is over the limit, restores an exact minimum within the limit |
| LfuCache.BumpedKeeps | include/util/RainLfu.h:195-207 | moving a key one list up keeps the cached minimum exact |
| LfuCache.EvictedKeeps | include/util/RainLfu.h:214-220 | a full cache has a real entry of the true minimum frequency to evict, and evicting it makes room for one |
| LfuCache.InsertedKeeps | include/util/RainLfu.h:177-192 | a new key leaves the cache exact and within its capacity |
| LfuCache.PutKeeps | include/util/RainLfu.h:127-144 | after `put` the key is present with the value put, and the invariant holds |
| LfuCache.PurgeKeeps | include/util/RainLfu.h:169-173 | `purge` empties the cache, resets neither the total nor the cached minimum, and keeps the invariant |
| LfuCache.StepKeepsInvariant | include/util/RainLfu.h:127-318 | put, get and purge keep the invariant under a limit between 2 and 250 |
| LfuCache.RunIsExact | include/util/RainLfu.h:127-318 | after every run under such a limit the cached minimum of a non-empty cache is the true one, and the size is within the capacity |
| LfuCache.RunIsTame | include/util/RainLfu.h:127-318 | under every capacity and limit, in every state of every run, the list of the cached minimum exists while there are entries, so no null pointer is followed |
| LfuCache.PutStores | include/util/RainLfu.h:127-192 | under every limit a key that was put is present with its value |
| LfuCache.ZeroCapacityHoldsNothing | include/util/RainLfu.h:127-132 | a cache of capacity 0 never holds or counts anything |
| LfuLimits.BadLimitFails | include/util/RainLfu.h:308-318 | under any other limit some run ends with a wrong cached minimum |
| LfuLimits.MinimumIsTrustedIff | include/util/RainLfu.h:251-318 | the cached minimum is right after every run if and only if the limit lies between 2 and 250 |
| LfuOverfill.FullCacheOverfillsIff | include/util/RainLfu.h:177-220 | a put of a new key makes a full cache too large if and only if the list of the cached minimum is empty |
| LfuOverfill.OverfilledRun | include/util/RainLfu.h:127-318 | for every capacity of at least 1, under a limit outside 2..250 some run ends with one entry too many |
| LfuOverfill.CapacityIsRespectedIff | include/util/RainLfu.h:127-318 | for every capacity of at least 1, the size stays within the capacity in every run if and only if the limit lies between 2 and 250 |
| LfuReference.VictimRefines | include/util/RainLfu.h:214-220 | the entry evicted is least used, and touched longest ago among the least used |
| LfuReference.TouchRefines | include/util/RainLfu.h:195-211 | an access is an access of the reference, aging included |
| LfuReference.InsertRefines | include/util/RainLfu.h:177-192 | an insertion is one of the reference, eviction and aging included |
| LfuReference.StepRefines | include/util/RainLfu.h:127-249 | every step under a limit between 2 and 250, and under any limit every step that does not age the cache, is a step of the reference |
| LfuReference.CrowdedIff | include/util/RainLfu.h:251-264 | the cache ages exactly when there are at least limit + 1 accesses per key |
| LfuReference.AgeRefines | include/util/RainLfu.h:277-305 | an aging pass lowers the count of each key by half the limit in the order of the traversal, which is from then on the order among equals |
| LfuReference.RunRefines | include/util/RainLfu.h:127-318 | under a limit between 2 and 250 every run, aging included, is step by step a run of the reference: same keys, same values, same counts, same total, same victims; under any other limit this holds up to the first aging pass |
| FreqLists.AppendRing | include/util/RainLfu.h:71-80 | `addNode` appends the node, and the list can be walked both ways |
| FreqLists.RemoveRing | include/util/RainLfu.h:83-94 | `removeNode` joins the neighbours and leaves the rest of the list alone |
| FreqLists.AppendLinked | include/util/RainLfu.h:234-249 | appending to one frequency list leaves all others linked |
| FreqLists.RemoveLinked | include/util/RainLfu.h:223-231 | so does removing from one |
| FreqLists.NewListLinked | include/util/RainLfu.h:55-62 | a new pair of sentinels is an empty list |
| FreqLists.FirstNode | include/util/RainLfu.h:65-68 | the node after the head sentinel is the oldest key, or the tail sentinel when the list is empty |
| RainLfu.RainLfu.constructor | include/util/RainLfu.h:115-122 | a new cache is empty |
| RainLfu.RainLfu.AddNode | include/util/RainLfu.h:71-80 | the four pointer writes in front of the tail sentinel |
| RainLfu.RainLfu.RemoveNode | include/util/RainLfu.h:83-94 | the pointer writes of a removal, none for an unlinked node |
| RainLfu.RainLfu.IsEmpty | include/util/RainLfu.h:65-68 | true exactly for an empty list |
| RainLfu.RainLfu.AddToFreqList | include/util/RainLfu.h:234-249 | the node becomes the youngest of the list of its frequency, which is created on demand |
| RainLfu.RainLfu.RemoveFromFreqList | include/util/RainLfu.h:223-231 | the node is on no list any more and all lists stay linked |
| RainLfu.RainLfu.UpdateMinFreq | include/util/RainLfu.h:308-318 | the loop computes the least frequency below 127 with a non-empty list, or 1 |
| RainLfu.RainLfu.Age | include/util/RainLfu.h:289-300 | one round of aging takes half the limit off one frequency, to 1 at least, and files the node again |
| RainLfu.RainLfu.HandleOverMaxAverageNum | include/util/RainLfu.h:277-305 | the loop ages every node and then recomputes the minimum |
| RainLfu.RainLfu.AddFreqNum | include/util/RainLfu.h:252-264 | counts an access, and ages exactly when the average exceeds the limit |
| RainLfu.RainLfu.GetInternal | include/util/RainLfu.h:195-211 | the key moves one list up, the minimum follows when its list ran empty, the value is returned |
| RainLfu.RainLfu.KickOut | include/util/RainLfu.h:214-220 | the oldest node of the list of the cached minimum leaves, and the total drops by that minimum; from an empty list nothing leaves and the total drops by 1 |
| RainLfu.RainLfu.PutInternal | include/util/RainLfu.h:177-192 | eviction if full, which may find nothing to evict, then a new node of frequency 1 |
| RainLfu.RainLfu.Put | include/util/RainLfu.h:127-144 | the object performs the `put` of the value layer, under every capacity and limit |
| RainLfu.RainLfu.Get | include/util/RainLfu.h:147-158 | a hit returns the stored value, a miss changes nothing |
| RainLfu.RainLfu.PurgeAll | include/util/RainLfu.h:169-173 | nodes and lists are gone, the counters keep their values |
| RainLfu.Perform | include/util/RainLfu.h:127-173 | on a sound object every call is a step of the value layer for some traversal order, a get answers with the stored value or a miss, a put key maps to its value, and the object stays sound |
| RainLfu.RunSchedule | include/util/RainLfu.h:71-318 | every schedule of put, get and purge on the linked structure, under every capacity and limit, is a run of the value layer event by event, with each get answered from the state before it; no null pointer is followed and the lists stay linked; under a limit between 2 and 250 the cached minimum is the true one and the capacity is respected |
| RainLfu.RunAgainstReference | include/util/RainLfu.h:71-318 | under a limit between 2 and 250 every schedule on the linked structure, aging included, is step by step a run of the reference with the same answers; under any other limit it is up to the first aging pass |
| FixedBuffers.FixedBuffer.Append | include/log/FixedBuffer.h:28-35 | the bytes are added if at least one byte stays free, otherwise nothing changes |
| FixedBuffers.FixedBuffer.Add | include/log/FixedBuffer.h:50-54 | position and size advance together |
| FixedBuffers.FixedBuffer.Reset | include/log/FixedBuffer.h:57-61 | the buffer is empty again |
| AsyncLog.AsyncLogging.Append | src/log/AsyncLogging.cc:21-45 | a line is accepted exactly when it is shorter than a buffer, and then joins the pending bytes in lock order |
| AsyncLog.AsyncLogging.RotateBuffers | src/log/AsyncLogging.cc:31-40 | queueing the current buffer and starting a spare or new one keeps the pending bytes |
| AsyncLog.AsyncLogging.SwapBuffers | src/log/AsyncLogging.cc:60-74 | everything pending is handed to the backend and the front end gets two empty buffers |
| AsyncLog.AsyncLogging.WriteOne | src/log/AsyncLogging.cc:76-79 | one swapped-out buffer moves to the file |
| AsyncLog.AsyncLogging.Recycle | src/log/AsyncLogging.cc:81-98 | both spares are non-null and empty again, and neither is taken from an empty vector |
| AsyncLog.AsyncLogging.EnterLoop | src/log/AsyncLogging.cc:58 | the backend ends at its loop test once stopped |
| AsyncLog.AsyncLogging.BackendStep | src/log/AsyncLogging.cc:58-101 | the object performs the backend's next step |
| AsyncLog.NextIsSound | src/log/AsyncLogging.cc:25-44 | a missing spare means that a buffer is queued, at every lock release |
| AsyncLog.RunKeepsStream | src/log/AsyncLogging.cc:21-102 | in every interleaving file, then unwritten batch, then pending buffers is the concatenation of the accepted lines in lock order |
| AsyncLog.PendingIff | src/log/AsyncLogging.cc:60-74 | bytes are pending if and only if a non-empty accepted line comes after the last swap |
| AsyncLog.FinishedFileIsCompleteIff | src/log/AsyncLogging.cc:58-101 | the file of a finished run holds every accepted line if and only if no non-empty one comes after the last swap; what is missing is what is pending |
| AsyncLog.PendingIsPacked | src/log/AsyncLogging.cc:21-45 | in every interleaving the queued buffers and the current one are the lines since the last swap, packed greedily into buffers of 4,000,000 bytes; a line that no buffer can hold starts a new one all the same |
| AsyncLog.RoundWritesAll | src/log/AsyncLogging.cc:58-99 | an undisturbed round of the backend writes everything pending, leaves the front end two empty buffers and the backend two spare ones, and ends at the loop test |
| AsyncLog.FinishedIff | src/log/AsyncLogging.cc:58-101 | the backend has finished if and only if one of its loop tests came after the stop |
| AsyncLog.RunSchedule | src/log/AsyncLogging.cc:21-102 | the object ends in the state that the schedule leads to: its file a prefix of the accepted lines, complete once finished exactly in that case, its buffers packed and its end reached as above |
| AsyncLog.StopMayDropLine | src/log/AsyncLogging.cc:58-101 | a line appended before the stop can miss the file |
| Decimals.SignedParses | src/log/LogStream.cc:7-30 | the text of every integer parses back to it |
| Decimals.SignedIsCanonical | src/log/LogStream.cc:7-30 | the text has no leading zero, and no minus sign before zero |
| LogStreams.SignedLength | src/log/LogStream.cc:9 | the text of every supported value has at most 20 characters |
| LogStreams.LongestNumbers | src/log/LogStream.cc:9 | the most negative and the largest value need 20 |
| LogStreams.TableIsMirrored | src/log/LogStream.cc:4-20 | a truncated remainder of either sign picks the right digit from the mirrored table |
| LogStreams.ReverseRange | src/log/LogStream.cc:26 | reversal in place of a part of an array |
| LogStreams.LogStream.FormatInteger | src/log/LogStream.cc:7-30 | appends exactly the decimal text when 32 bytes are free, and nothing otherwise, for every value of every supported width |
| LogStreams.LogStream.WriteDigits | src/log/LogStream.cc:15-20 | the loop writes the digits, lowest first |
| EventLoops.EventLoop.PushFromOther | src/net/EventLoop.cc:114-126 | the functor is queued and its thread is about to write the eventfd, and nothing else changes |
| EventLoops.EventLoop.PushFromOwner | src/net/EventLoop.cc:114-126 | the functor is queued, and the loop thread wakes itself exactly while it runs functors |
| EventLoops.EventLoop.Wakeup | src/net/EventLoop.cc:138-146 | after the write the eventfd is readable, even when the write failed because the counter is full |
| EventLoops.EventLoop.QuitFromOther | src/net/EventLoop.cc:91-100 | the flag is set and a wakeup follows |
| EventLoops.EventLoop.EnterLoop | src/net/EventLoop.cc:61-68 | entering the loop forgets an earlier quit |
| EventLoops.EventLoop.TestQuit | src/net/EventLoop.cc:68 | the loop goes to poll or stops |
| EventLoops.EventLoop.HandleWakeupRead | src/net/EventLoop.cc:128-136 | the eventfd is drained and nothing else changes |
| EventLoops.EventLoop.SwapPending | src/net/EventLoop.cc:169-173 | the pending functors become the local batch |
| EventLoops.EventLoop.RunOne | src/net/EventLoop.cc:175-179 | the next functor of the batch runs |
| EventLoops.EventLoop.EndPending | src/net/EventLoop.cc:181 | the flag is cleared and the loop goes to its head |
| EventLoops.EventLoop.DoPendingFunctors | src/net/EventLoop.cc:163-182 | undisturbed, the pending functors are executed once each, in order |
| EventLoops.NextKeepsOrder | src/net/EventLoop.cc:114-182 | every step keeps the order of what is executed, in the batch and pending, and adds exactly what it enqueues |
| EventLoops.RunKeepsOrder | src/net/EventLoop.cc:61-182 | in every interleaving executed, batch and pending functors are those that the schedule enqueued, in lock order, each once |
| EventLoops.SleepsOnWorkIff | src/net/EventLoop.cc:61-146 | in every interleaving the loop is about to sleep on pending work if and only if this is its first poll, its own thread queued work before the loop, and no other thread has pushed or quit |
| EventLoops.NoLostWakeup | src/net/EventLoop.cc:61-146 | with nothing queued early, a loop about to block with work or a stop pending has a readable eventfd or a wakeup on its way |
| EventLoops.QuitIff | src/net/EventLoop.cc:61-100 | in every interleaving the quit flag is set if and only if a quit came after the loop was entered, or came and the loop is not entered yet |
| EventLoops.StoppedIff | src/net/EventLoop.cc:61-100 | in every interleaving the loop has stopped if and only if one of its tests came after a quit, of whichever thread, that entering the loop did not forget |
| EventLoops.ReadableIff | src/net/EventLoop.cc:128-146 | in every interleaving the eventfd is readable if and only if it was written after it was last read |
| EventLoops.Perform | src/net/EventLoop.cc:61-182 | the object performs exactly the step of the event |
| EventLoops.RunSchedule | src/net/EventLoop.cc:61-182 | the object ends in the state that the schedule leads to, in which order, wakeup, stop and eventfd are as above |
| EventLoops.QueueBeforeLoopIsNotSignalled | src/net/EventLoop.cc:114-126 | work that the loop thread queues before its loop is slept on |
| Buffers.Buffer.constructor | include/net/Buffer.h:25-28 | a new buffer is empty |
| Buffers.Buffer.Retrieve | include/net/Buffer.h:62-73 | the oldest bytes are dropped, all of them when too many are asked for |
| Buffers.Buffer.RetrieveAll | include/net/Buffer.h:79-83 | the buffer is empty and all its room is writable |
| Buffers.Buffer.RetrieveAsString | include/net/Buffer.h:96-101 | what is returned followed by what is left is what was there |
| Buffers.Buffer.EnsureWritableBytes | include/net/Buffer.h:108-114 | there is room afterwards and the contents are the same, whichever way it was made |
| Buffers.Buffer.Compact | include/net/Buffer.h:176-184 | copying forward in place preserves the contents although source and target overlap |
| Buffers.Buffer.Append | include/net/Buffer.h:119-125 | the bytes are added at the end |
| Buffers.Buffer.ReadFd | src/net/Buffer.cc:9-50 | a scatter read appends exactly the bytes read, in order, also when they spill into the stack buffer; a failed one changes nothing and reports the error |
| Pollers.Channel.SetEvents | include/net/Channel.h:41-65 | a change of interest leaves poller, kernel and all channels in agreement |
| Pollers.Channel.EnableReading | include/net/Channel.h:41-45 | afterwards the kernel watches the descriptor with the new mask |
| Pollers.Channel.EnableWriting | include/net/Channel.h:51-55 | afterwards the kernel watches the descriptor with the new mask |
| Pollers.Channel.DisableWriting | include/net/Channel.h:56-60 | the descriptor is dropped from the kernel exactly when nothing is left to watch |
| Pollers.Channel.DisableAll | include/net/Channel.h:61-65 | an added channel becomes deleted |
| Pollers.EPollPoller.UpdateChannel | src/net/EPollPoller.cc:62-91 | ADD is issued exactly for absent descriptors, MOD and DEL for present ones, so no call fails |
| Pollers.EPollPoller.RemoveChannel | src/net/EPollPoller.cc:93-106 | the descriptor is neither in the books nor in the kernel any more, and no call fails |
| Pollers.RunSchedule | src/net/EPollPoller.cc:62-140 | over every schedule on distinct descriptors no `epoll_ctl` fails; each channel has the mask the schedule gave it last and the index the schedule leads to; the kernel watches exactly the descriptors of the channels left added, with those masks, and the books hold exactly the channels not left new |
| TcpConnections.TcpConnection.NoStalledOutput | src/net/TcpConnection.cc:73-130 | until close the kernel watches for writability exactly while output is queued |
| TcpConnections.TcpConnection.ConnectEstablished | src/net/TcpConnection.cc:151-159 | the connection is connected and watched for reading |
| TcpConnections.TcpConnection.Send | src/net/TcpConnection.cc:54-69 | only a connected connection takes data |
| TcpConnections.TcpConnection.SendInLoop | src/net/TcpConnection.cc:73-130 | in every state: a direct write when nothing is queued, its rest or the whole message queued, a faulty message dropped, the callbacks queued exactly when due |
| TcpConnections.TcpConnection.QueueOutput | src/net/TcpConnection.cc:115-129 | the rest is queued, the callback is queued exactly on an upward crossing, and writability is watched |
| TcpConnections.TcpConnection.HandleWrite | src/net/TcpConnection.cc:197-230 | the oldest queued bytes move to the wire, and a buffer that has drained stops the watch and queues the completion callback |
| TcpConnections.TcpConnection.OutputDrained | src/net/TcpConnection.cc:206-218 | a half-close that had to wait is completed |
| TcpConnections.TcpConnection.Shutdown | src/net/TcpConnection.cc:132-140 | a connected connection is disconnecting from then on, and its write side is closed at once if nothing is queued; any other is left alone |
| TcpConnections.TcpConnection.ShutdownInLoop | src/net/TcpConnection.cc:142-149 | the write side is closed at once unless output is queued |
| TcpConnections.TcpConnection.HandleClose | src/net/TcpConnection.cc:232-241 | the connection is disconnected and watched for nothing |
| TcpConnections.TcpConnection.ConnectDestroyed | src/net/TcpConnection.cc:161-170 | the poller and the kernel forget the descriptor |
| TcpConnections.NextKeepsInvariant | src/net/TcpConnection.cc:54-241 | every event keeps the watch for writability in step with the queue and the write side closed at most once |
| TcpConnections.ShutdownOnlyWhenDrained | src/net/TcpConnection.cc:132-149 | the write side is closed only once, with an empty buffer |
| TcpConnections.HalfCloseBegins | src/net/TcpConnection.cc:132-149 | `shutdown` on a connected connection begins the half-close, closes the write side exactly if nothing is queued, and changes nothing else |
| TcpConnections.HalfCloseIff | src/net/TcpConnection.cc:132-218 | in every run the write side is closed once if and only if at some moment a half-close asked for before any close found the output drained, and never otherwise |
| TcpConnections.LifecycleIff | src/net/TcpConnection.cc:132-241 | in every run the state follows from which of establishment, half-close, close and destruction came first |
| TcpConnections.EstablishingWatches | src/net/TcpConnection.cc:151-159 | a new connection becomes connected and watched for reading |
| TcpConnections.EndingKeepsStream | src/net/TcpConnection.cc:161-170 | closing or destroying a connection stops the watch and leaves stream, callbacks and write side alone |
| TcpConnections.SendAfterCloseStaysUnwatchedIff | src/net/TcpConnection.cc:79-129 | a send after the close leaves the interest mask empty if and only if nothing has to be queued; otherwise the descriptor is watched for writability again |
| TcpConnections.RunKeepsStream | src/net/TcpConnection.cc:73-230 | over every run the bytes on the wire followed by the output buffer are the concatenation of the accepted messages |
| TcpConnections.RunReportsCrossings | src/net/TcpConnection.cc:117-124 | over every run the high-water callback is queued exactly once per upward crossing, with the size then, if it is set |
| TcpConnections.RunReportsCompletions | src/net/TcpConnection.cc:84-218 | over every run the completion callback is queued once per event that leaves nothing to write, if it is set, and the wire holds as many bytes as the socket took |
| TcpConnections.RunHasOutcome | src/net/TcpConnection.cc:54-241 | state, stream, both callbacks and half-close of every run together |
| TcpConnections.RunIsSound | src/net/TcpConnection.cc:54-241 | the invariant holds after every run |
| TcpConnections.Perform | src/net/TcpConnection.cc:54-241 | the object performs exactly the step of the event |
| TcpConnections.RunSchedule | src/net/TcpConnection.cc:54-241 | the object ends with the outcome of the schedule as above; the kernel watches for writability exactly while output is queued, for nothing after a close, and does not know a destroyed connection |
| TimerQueues.InsertedIsSorted | src/util/TimerQueue.cc:167-182 | insertion keeps the order of the set and adds exactly the entry |
| TimerQueues.DueIsExact | src/util/TimerQueue.cc:112-121 | the prefix taken is exactly the entries due at or before now |
| TimerQueues.AddKeeps | src/util/TimerQueue.cc:60-70 | adding a timer keeps the invariant, also while callbacks run |
| TimerQueues.FireKeeps | src/util/TimerQueue.cc:123-131 | taking the due entries keeps the invariant, takes them in time order, and takes some exactly when the head is due |
| TimerQueues.CallKeeps | src/util/TimerQueue.cc:132-136 | running a callback keeps the invariant |
| TimerQueues.ResetKeeps | src/util/TimerQueue.cc:142-165 | restarting or deleting a timer of the batch, and setting the alarm, keeps the invariant |
| TimerQueues.StepKeepsInvariant | src/util/TimerQueue.cc:60-182 | every step keeps the invariant |
| TimerQueues.RunIsSound | src/util/TimerQueue.cc:60-182 | in every state of every run each timer is in exactly one of set and batch, and no freed timer is in either |
| TimerQueues.AlarmsAndRuns | src/util/TimerQueue.cc:72-98 | a set alarm goes off when the head is due or 100 microseconds after it was set, whichever is later; a freed timer was one-shot and ran exactly once, a waiting one-shot timer never |
| TimerQueues.TimersMove | src/util/TimerQueue.cc:60-165 | a timer changes only when its turn comes to be restarted, to `now` plus its interval, and goes only then if it does not repeat |
| TimerQueues.ExpirationHasCause | src/util/TimerQueue.cc:60-165 | in every run a timer is due as it was made, or one interval after the `now` of its last restart |
| TimerQueues.BatchHasFire | src/util/TimerQueue.cc:112-136 | while `handleRead` is at work the batch is exactly what was due when it read `now`, and the first callbacks of it have run, once each and in order, and no other |
| TimerQueues.IdleQueueIsArmedIff | src/util/TimerQueue.cc:123-165 | an idle non-empty queue has its alarm set if and only if the head was due by `now()` when it last went off, or a timer added since is the earliest |
| TimerQueues.PunctualQueueIsArmed | src/util/TimerQueue.cc:123-165 | when `now()` never lags behind the alarm, an idle non-empty queue always has its alarm set |
| TimerQueues.StarvedQueueIsReachable | src/util/TimerQueue.cc:123-165 | an alarm that goes off early by `now()` leaves a timer without an alarm |
| TimerQueues.NeverEarly | src/util/TimerQueue.cc:132-135 | a callback runs only when its timer is due by the `now` that this `handleRead` read, and counts once |
| TimerQueues.TimerQueue.Insert | src/util/TimerQueue.cc:167-182 | the entry is put in its place, and the result says whether it precedes all others |
| TimerQueues.TimerQueue.ResetTimerfd | src/util/TimerQueue.cc:73-98 | the alarm goes off at the expiration or 100 microseconds from now, whichever is later |
| TimerQueues.TimerQueue.AddTimerInLoop | src/util/TimerQueue.cc:60-70 | the object performs the step, setting the alarm only for a new earliest timer |
| TimerQueues.TimerQueue.GetExpired | src/util/TimerQueue.cc:112-121 | the due prefix moves from the set to the batch |
| TimerQueues.TimerQueue.BeginRead | src/util/TimerQueue.cc:123-131 | the object performs the first step of `handleRead` |
| TimerQueues.TimerQueue.RunNext | src/util/TimerQueue.cc:132-136 | the object performs one round of the callback loop |
| TimerQueues.TimerQueue.ResetNext | src/util/TimerQueue.cc:142-165 | the object performs one round of the reset loop |
| HashRings.SortedIs | include/util/ConsistenHash.h:48 | sorting orders the hashes and keeps each as often as it occurs |
| HashRings.VirtualNodesDiffer | include/util/ConsistenHash.h:43 | the virtual nodes of a node are different strings, the index in decimal behind the name |
| HashRings.OwnerIsUnique | include/util/ConsistenHash.h:90-97 | a ring determines the owner of a key |
| HashRings.AddingMovesToNewOnly | include/util/ConsistenHash.h:37-49 | adding a node moves a key only to one of the new hashes, and moves it if and only if a new hash comes before its old owner on the way round |
| HashRings.LookUpAcrossAddition | include/util/ConsistenHash.h:37-98 | `getNode` after `addNode` answers as before or with one of the new hashes, the former if and only if no new hash lies closer |
| HashRings.ConsistentHash.AddNode | include/util/ConsistenHash.h:37-49 | the ring gains exactly the replica hashes, sorted, which name the node from then on |
| HashRings.ConsistentHash.UpperBound | include/util/ConsistenHash.h:91 | the binary search splits the hashes into those up to the key's and those above |
| HashRings.ConsistentHash.GetNode | include/util/ConsistenHash.h:82-98 | the nearest hash strictly after the key's, the least one when there is none, and an error exactly for an empty ring |

## Left out

- Requests above 256 KB, which go to `malloc` and `free`.
- PoolSafety.RunIsSafe: covers runs of fewer than 2^64 / 64 steps, because the thread counter is a `size_t` that each step may raise by 64.
- Memory ordering: each region under a lock or spin lock, each system call and each store that other threads see is one atomic step.
- PageCache.PageCache.AllocateSpan: requires that the list found by `lower_bound` is not null, where the original would follow a null pointer; RequestIsServedIff and FreeLeavesNullHeadIff say exactly when that fails, and NullHeadIsReachable that it can.
- Remainders of a split span: they are not in the span map, so they are never merged until they have been allocated once; this is how the code behaves, and no claim of full coalescing is made.
- LfuCache.Evicted: erasing the key of the tail sentinel, which is never initialised, is taken to hit no key of the cache.
- Overflow of `curTotalNum_`, `freq` and of microsecond times: unbounded integers; capacities and keys are natural numbers, values integers.
- `RainLfuHash`: a key always goes to the same shard, and each shard is a `RainLfu` to which the theorems apply.
- Lifetime of nodes, channels and connections under shared and weak pointers, and the frequency lists that `purge` leaks.
- Log file rolling, flushing, the 3-second wait and its notifications, `Logger` prefixes, timestamps and floating-point formatting.
- Running a functor at once when `runInLoop` is called in the loop thread, which bypasses the queue; entering `loop` a second time.
- `epoll_wait` and the dispatch of events to channels; `disableReading`, which has the form of `disableWriting`.
- Sends from other threads, which bind a raw pointer into the caller's string (src/net/TcpConnection.cc:66).
- `sendFile`, whose re-queued chunks can interleave with direct sends.
- Running the high-water, write-complete, connection and message callbacks: queueing them is counted.
- `writeFd` failing in `handleWrite`: the same as taking no bytes.
- `TimerQueue` inside an event loop: `EventLoop` does not construct one (src/net/EventLoop.cc:38), so it is modelled on its own.
- `removeNode` of the hash ring, which hashes other strings than `addNode` does, and `getNextLoop`, which uses a hash as a vector index.
- The order in which `std::sort` and `std::reverse` move elements: sorting is a function, reversal a loop of swaps.
- Acceptor, Socket, InetAddress, TcpServer, Thread, EventLoopThread and the pool of loops: calls into libraries.
