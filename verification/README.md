# Verified models of the my_cyber kernel and the SHM_TEST allocator

This project models, in Dafny, the lock-free and message-passing core of
`IntelligentDriving/my_cyber` (a copy of the CyberRT runtime) and the shared-memory
allocator of `IntelligentDriving/SHM_TEST`, and proves what that code is meant to
guarantee. `dafny verify dfyconfig.toml` checks all of it.

## How the models are built

**Concurrent code** (`ConcurrentQueue`, `ObjectPool`, `AtomicHashMap`, `AtomicRwLock`,
`ReentrantRwLock`, `Wakeup`, `RegistryRace`, `ShmBlocks`) is a state machine. The state holds the shared
variables and, for each thread, a program point with its local variables. `Step` is total:
it lets one thread perform one atomic load, store or compare-and-swap and the local
computation after it. An action names the thread, the call it starts if it is idle, and
whether a weak compare-and-swap fails spuriously. Any sequence of actions is a schedule,
any schedule is a run, and there are any number of threads. `Execute` folds a schedule; the
theorems called `...OverRuns` and `...Refine...` quantify over all schedules. Each rests on
an inductive invariant `Inv`, kept by one small lemma per step.

Beside each state machine a module follows the **calls**: from the schedule alone it keeps, for
every thread, its latest call with its arguments, and what the thread's steps have brought about
since. Theorems over all schedules then say that every call that has returned has done exactly
what it was asked for, once and with its own arguments. Theorems called `...Alone...` say, of
every reachable state, when a thread that is left alone gets what it asks for, and in how many
steps.

**Code used under a mutex or by one thread** is a class whose methods update its fields and
arrays in place: `SequentialQueue.BoundedQueue`, `HashBucket.Bucket`,
`ChannelData.CacheBuffer`, `ChannelBuffer` and `DataVisitor`, `IdRegistry.Registry`,
`ShmLayout.ShmConf` and `AllocMemory`, `MessageFraming.MessageHeader`. Their contracts tie
the new state to an abstract value (a sequence, a map, the last messages), and lemmas state
the laws of that value.

| file | models |
|---|---|
| `Common.dfy`, `Ring.dfy` | shared types; counters reduced to ring slots |
| `ConcurrentQueue.dfy`, `QueueCalls.dfy`, `SequentialQueue.dfy` | `base/bounded_queue.h`, with any number of threads, its calls, and with one thread |
| `ObjectPool.dfy`, `PoolCalls.dfy` | `base/concurrent_object_pool.h` and its calls |
| `AtomicHashMap.dfy`, `MapCalls.dfy`, `HashBucket.dfy` | `base/atomic_hash_map.h`, with any number of threads, its calls, and with one thread |
| `IdRegistry.dfy`, `RegistryRace.dfy`, `RegistryCalls.dfy` | the registries of `common/global_data.cc`, with calls one after another, with calls that overlap, and what each call does |
| `ChannelData.dfy`, `Delivery.dfy` | `data/cache_buffer.h`, `data/channel_buffer.h`, `data/data_visitor.h` |
| `Wakeup.dfy`, `RoutineStates.dfy` | `croutine/`, `scheduler/processor.cc`, `scheduler/policy/`, `data/data_dispatcher.h`, `data/data_notifier.h` |
| `AtomicRwLock.dfy`, `RwLockCalls.dfy` | `base/atomic_rw_lock.h` and its calls |
| `ReentrantRwLock.dfy`, `GuardCalls.dfy`, `Reentrancy.dfy`, `LockNesting.dfy` | `base/reentrant_rw_lock.h`: exclusion and the count, the calls, nested guards, one thread's nestings |
| `ShmLayout.dfy`, `ShmBlocks.dfy`, `BlockUse.dfy`, `BlockCallers.dfy`, `Tickets.dfy` | `SHM_TEST/shm_src/`, `SHM_TEST/lockless.h`: the layout, the blocks in use, what callers get, how many callers a block bears, which blocks writers try |
| `MessageFraming.dfy` | `message/message_header.h`, `message/message_traits.h`, `message/raw_message.h` |

## Assumptions

- Atomic operations are sequentially consistent, and a read or write of a queue slot, of a
  node's `next` or of `write_thread_id_` is one step.
- The 64-bit counters of the queue, the buffers and the pool's version count do not wrap
  within a run, and fewer than 2^31 guards are open on a lock at a time.
- Callbacks may yield with SLEEP, IO_WAIT or DATA_WAIT; the last is what HangUp does. A
  routine parked inside its callback goes on when it is made READY, which for IO_WAIT and
  DATA_WAIT takes a cleared flag.
- Guards of the reader/writer locks are closed by the thread that opened them, innermost
  first. Blocks and pool objects are released by whoever acquired them, once.
- No process dies while it holds a shared-memory block. A caller that holds several blocks at
  once counts as several threads.
- A shared-memory segment in use has at least one block. The configuration does not see to
  that: `SHM_TEST/shm_src/shm_config.cpp:68-70` lets a count of 0 through, and
  `SHM_TEST/shm_src/alloc_memory_base.cpp:182` then divides by it.
- Memory deleted by the hash map is not reused within a run.

## Where the code does not meet the obvious property

Ten laws one would expect are false of the code. Each is shown to fail on a concrete run or
input, and the exact condition under which it holds is proved.

- A concurrent `Enqueue` that returns false has not always seen a full queue: for every size
  there is a run in which the queue is empty when it answers and at most one ticket was
  outstanding at any instant of the call (`FullAnswerOnEmptyQueue`). The answer is earned
  exactly when `head_` had not passed the tail the call had loaded (`FullAnswer`), and always
  if one thread makes all the Enqueue calls (`OneProducerIsToldTheTruth`).
- The write depth of `ReentrantRWLock` can be lost, and the lock with it (`LostRecord`,
  `LostForGood`). It stays exact throughout a run if and only if the run has no step of one
  kind (`ExactExactlyWithoutMiscounts`). It is exact in every run in which nobody opens a read
  guard inside a write guard (`FlatRunsAccountExactly`), but that alone does not keep the lock
  in use, because of the next point.
- `ReentrantRWLock` is not always reentrant. With write guards alone, WriteUnlock of one
  thread can erase the ownership record of the next (`RecordIsErased`). A thread that has the
  lock and asks for another guard gets it if and only if it is the recorded owner
  (`ReentrantExactly`), and then without waiting (`OwnerIsGranted`); otherwise it waits behind
  its own guard for ever and nobody else ever opens a guard, while the count stays exact
  (`ErasedOwnerIsStuck`). What callers can do: open nothing at all inside a write guard, and
  the thread inside never waits and frees the lock when it closes its guard
  (`BareRunsStayAlive`).
- Nesting guards in one thread does not always come back: it can be completed if and only if
  no write is opened inside an outermost read (`NestingRestores`). Such a write blocks for
  ever, whatever other threads do (`UpgradeBlocksForGood`), and in write-first mode it shuts
  out every reader that is not past its check (`UpgradeShutsReadersOut`).
- Calls on a registry that overlap do not always leave each name its own id, and may read a
  string that has been deleted: Set deletes the string it replaces, also when the same name is
  registered again (`CollisionLosesName`, `PointerDangles`). Some calls are safe under every
  interleaving if and only if no two different names among them have the same hash, no name is
  registered by more than two of them, and none that is registered by two is looked up
  (`OverlapIsSafeExactly`).
- A refused acquire of a shared-memory block does not always leave the block as it was. Callers
  are safe from that if and only if they are at most 64 threads, however these are spread over
  processes (`RefusalsAreCleanExactly`): any 65, say 63 processes of one thread and one of two,
  can strand one of them (`OneTooMany`). Of a single call, the law holds if and only if it was
  refused before its compare-and-swap (`RefusedCleanlyExactly`); otherwise the block is out of use for good (`StrandedReachable`, `StrandedForGood`).
- The writers' ticket counter does not always go round all the blocks in turn: every `blockNum`
  tickets in a row stand for all the blocks if and only if `blockNum` divides 2^32
  (`EveryRoundTriesAllExactly`), since otherwise a block is left out where the counter wraps
  round. Any `2 * blockNum` tickets do (`AllTriedInTwoRounds`).
- A shared-memory segment does not always accept the messages it was configured for: created
  from the default configuration, made for 8 MB, it refuses everything over 16 KB
  (`CreateDefault`); created from a property it accepts them if and only if the block size
  fits 32 bits or its lower 32 bits exceed 16 MB (`CreateFromProperty`). As the repository uses
  them both are out of reach: `SHM_TEST/shm_src/shm_config.cpp:63-70` caps a property at 32 MB
  and 32 blocks, for which the ceiling is always kept (`CreateFromConfiguration`), and a default
  configuration is only ever used to open a segment (`SHM_TEST/shm_src/shm_manager.cpp:93-98`).
- `SerializeToHC` does not always stay within the bytes it is offered: it does if and only if
  the size is not negative (`WithinOfferExactly`, `NegativeSizeIsWrittenTo`).
- A framed message does not always parse back: it does if and only if it is not empty
  (`FrameRoundTrip`).

`NotifyProcessor` (`my_cyber/scheduler/policy/scheduler_classic.cc:187-210`, and likewise
`scheduler_choreography.cc:266-306`) sets the update flag only if one of two loads of the
state shows the routine waiting, as the comment at `my_cyber/croutine/croutine.h:67-69` asks.
`Wakeup` proves its results for that notifier, with the two loads as two steps, and for one
that always sets the flag.

## Model

| member | source | states |
|---|---|---|
| `ConcurrentQueue.FifoOverRuns` | IntelligentDriving/my_cyber/base/bounded_queue.h:122-192 | in every run the values dequeued, in the order of the CASes on `head_`, are a prefix of the values published, which are a prefix of the values that won a ticket on `tail_`: nothing lost, duplicated, reordered or overwritten, although Dequeue copies the slot before it wins it |
| `ConcurrentQueue.TicketsOverRuns` | IntelligentDriving/my_cyber/base/bounded_queue.h:107-146 | in every run head+1 <= commit <= tail <= head+size+1, a ticket is owned exactly if it lies in [commit, tail), and by one thread only |
| `ConcurrentQueue.WritersDisjointOverRuns` | IntelligentDriving/my_cyber/base/bounded_queue.h:122-146 | no two pending writers share a slot, and no pending writer's slot holds a waiting element |
| `ConcurrentQueue.StepsRefineQueue` | IntelligentDriving/my_cyber/base/bounded_queue.h:122-192 | each step of each run is a step of a bounded FIFO queue: a commit appends and stays within `size`, a take removes the oldest, Dequeue answers "empty" only when nothing committed waits, every other step leaves the queue as it is |
| `ConcurrentQueue.ContentIsPublished` | IntelligentDriving/my_cyber/base/bounded_queue.h:176-192 | the slots between head and commit hold exactly the published values not yet taken, in order |
| `ConcurrentQueue.FullAnswer` | IntelligentDriving/my_cyber/base/bounded_queue.h:126-136 | when Enqueue answers "full", the tail it loaded is current and `size` tickets are outstanding if and only if head had not passed that tail |
| `ConcurrentQueue.FullAnswerOnEmptyQueue` | IntelligentDriving/my_cyber/base/bounded_queue.h:126-136 | for every size a run in which Enqueue answers "full" on an empty queue although at every instant between its two loads at most one ticket was outstanding, so that from size 2 on the queue was never full during the call |
| `ConcurrentQueue.OneProducerIsToldTheTruth` | IntelligentDriving/my_cyber/base/bounded_queue.h:126-136 | in every run in which one thread makes all the Enqueue calls, whatever the others dequeue, every answer "full" is given with `size` tickets outstanding |
| `ConcurrentQueue.RoundTrip` | IntelligentDriving/my_cyber/base/bounded_queue.h:122-192 | from any quiet state, one thread's Enqueue followed by its Dequeue, undisturbed, gives back the value, leaves the queue quiet and never has more than one ticket outstanding |
| `ConcurrentQueue.StepKeepsInv` | IntelligentDriving/my_cyber/base/bounded_queue.h:122-192 | every step keeps the invariant on counters, ticket owners, slots and what each thread relies on |
| `QueueCalls.CallsAnsweredOverRuns` | IntelligentDriving/my_cyber/base/bounded_queue.h:122-192 | in every run each Enqueue(v) that has returned has won one ticket, for `v`, and published `v`, or was told "full" and did nothing; each Dequeue has taken one element or was told "empty"; a call under way has at most won its ticket |
| `QueueCalls.ValuesAreArguments` | IntelligentDriving/my_cyber/base/bounded_queue.h:122-146 | in every run the values that win tickets and that are published are, in order, the arguments of the Enqueue calls that did so, whatever retries they made |
| `QueueCalls.CallersValuesComeOut` | IntelligentDriving/my_cyber/base/bounded_queue.h:122-192 | end to end: in every run what Dequeue calls return is, in order, a prefix of the arguments of the Enqueue calls that published, and these of those that won a ticket |
| `QueueCalls.AloneReturns` | IntelligentDriving/my_cyber/base/bounded_queue.h:122-192 | from any state, a thread inside a call that is left alone returns within six steps, or has won its ticket and waits for an earlier one to be published |
| `SequentialQueue.BoundedQueue.Init` | IntelligentDriving/my_cyber/base/bounded_queue.h:104-119 | a queue that was granted memory is an empty bounded sequence of capacity `size` |
| `SequentialQueue.BoundedQueue.Enqueue` | IntelligentDriving/my_cyber/base/bounded_queue.h:122-146 | fails exactly when `size` elements wait, and then changes nothing; otherwise appends the element and nothing else |
| `SequentialQueue.BoundedQueue.Dequeue` | IntelligentDriving/my_cyber/base/bounded_queue.h:176-192 | fails exactly on the empty queue, leaving the caller's variable alone; otherwise removes and returns the oldest element |
| `SequentialQueue.BoundedQueue.Size` | IntelligentDriving/my_cyber/base/bounded_queue.h:255-258 | with one thread, the number of elements waiting |
| `Ring.CloseCounters` | IntelligentDriving/my_cyber/base/bounded_queue.h:267-270 | two counters less than the ring apart share a slot only if they are equal |
| `ObjectPool.PartitionOverRuns` | IntelligentDriving/my_cyber/base/concurrent_object_pool.h:79-168 | in every run the free list is finite and repeats no node, and free nodes, held nodes and nodes being released partition the arena |
| `ObjectPool.PopInstallsCurrentSuccessor` | IntelligentDriving/my_cyber/base/concurrent_object_pool.h:104-121 | ABA safety: when the CAS of FindFreeHead succeeds, the `next` it read earlier is the popped node's successor now, and nobody held or was releasing that node |
| `ObjectPool.StepsRefineStack` | IntelligentDriving/my_cyber/base/concurrent_object_pool.h:104-168 | each step of each run is a step of a stack of free nodes: pop takes the top, release pushes, nullptr is returned only by a load that sees the stack empty |
| `ObjectPool.HandedOutOnce` | IntelligentDriving/my_cyber/base/concurrent_object_pool.h:124-168 | in every run each object has been handed out exactly once more than it has been given back while it is held, and equally often otherwise: never two holders |
| `ObjectPool.ListIsUnique` | IntelligentDriving/my_cyber/base/concurrent_object_pool.h:104-121 | the links determine the free list, so the list the other results speak of is the one a thread would walk |
| `ObjectPool.BuildChain` | IntelligentDriving/my_cyber/base/concurrent_object_pool.h:79-85 | the constructor's loop links every node to the next and the last to nullptr, which is where every run starts |
| `ObjectPool.StepKeepsInv` | IntelligentDriving/my_cyber/base/concurrent_object_pool.h:104-168 | every step keeps the partition and changes the free list by at most one node at its top |
| `PoolCalls.CallsAnsweredOverRuns` | IntelligentDriving/my_cyber/base/concurrent_object_pool.h:124-168 | in every run each ReleaseObject(x) that has returned has given back and pushed `x` and nothing else, each GetObject has handed out one object or nullptr, and the pool takes for held exactly the objects its clients got and have not released since |
| `PoolCalls.AccountsBalance` | IntelligentDriving/my_cyber/base/concurrent_object_pool.h:124-168 | in every run each object has been handed out once more than clients have called ReleaseObject with it while it is out, and equally often otherwise |
| `PoolCalls.AloneReturns` | IntelligentDriving/my_cyber/base/concurrent_object_pool.h:104-168 | in every run a thread inside a call that is left alone returns within four steps |
| `AtomicHashMap.StepsRefineMap` | IntelligentDriving/my_cyber/base/atomic_hash_map.h:112-188 | linearization: each successful CAS is one insertion of an absent key or one update of a present key of an atomic map, and each answer of Has and Get is that map's answer at a step inside the call |
| `AtomicHashMap.VisitAnswers` | IntelligentDriving/my_cyber/base/atomic_hash_map.h:112-145 | a traversal that ends without the key ends at an instant at which the key is not in the map, and one that ends on the key at an instant at which it is |
| `AtomicHashMap.BucketsOverRuns` | IntelligentDriving/my_cyber/base/atomic_hash_map.h:112-188 | in every run each bucket is a finite list, strictly sorted by key and so free of duplicates, of exactly the keys of the map that belong to it |
| `AtomicHashMap.KeysStay` | IntelligentDriving/my_cyber/base/atomic_hash_map.h:147-188 | however a run goes on, inserted keys never vanish and never move to another entry |
| `AtomicHashMap.NothingLeaksOverRuns` | IntelligentDriving/my_cyber/base/atomic_hash_map.h:147-188 | in every run nothing is deleted twice or while published, and when all calls have returned every entry and value is either published or deleted |
| `AtomicHashMap.ValuesPartitionedOverRuns` | IntelligentDriving/my_cyber/base/atomic_hash_map.h:147-188 | in every run, at every instant, each value is exactly one of published, deleted once, and held by one thread that is inside a call, so a call that has returned leaves nothing behind whatever the others do |
| `AtomicHashMap.EntriesPartitionedOverRuns` | IntelligentDriving/my_cyber/base/atomic_hash_map.h:147-188 | the same for entries: exactly one of in a list, deleted once, and one thread's own |
| `AtomicHashMap.SpareMeansPresent` | IntelligentDriving/my_cyber/base/atomic_hash_map.h:190-231 | in every run, once an Insert has set a value aside its key is in the map, and it never links an entry; so the overload that moves its argument into that value never copies the moved-from argument into an entry |
| `AtomicHashMap.StepKeepsInv` | IntelligentDriving/my_cyber/base/atomic_hash_map.h:112-188 | every step keeps the lists sorted and gives each allocated entry and value exactly one owner among the published keys, the inserting threads and the deleted set |
| `AtomicHashMap.GapMeansAbsent` | IntelligentDriving/my_cyber/base/atomic_hash_map.h:125-145 | if the link Find went by still skips the key, the key is in no entry of the bucket |
| `MapCalls.CallsAnsweredOverRuns` | IntelligentDriving/my_cyber/base/atomic_hash_map.h:112-188 | in every run each Set(k, v) that has returned has made exactly one change, the insertion or update of `k` with `v`; each Has(k) and Get(k) has given exactly one answer, about `k`; a call under way has done nothing but what its deletes follow |
| `MapCalls.MapIsOfCalls` | IntelligentDriving/my_cyber/base/atomic_hash_map.h:147-188 | in every run the map that every answer is about is the one that the Set calls make of an empty map, each with its own arguments at its instant |
| `MapCalls.AloneReturns` | IntelligentDriving/my_cyber/base/atomic_hash_map.h:112-188 | in every run a thread inside a call that is left alone returns within five steps more than there are keys |
| `HashBucket.Bucket.Find` | IntelligentDriving/my_cyber/base/atomic_hash_map.h:125-145 | returns the last entry before the key and the first entry not before it, and true exactly if the key is bound |
| `HashBucket.Bucket.Has` | IntelligentDriving/my_cyber/base/atomic_hash_map.h:112-123 | true exactly if the key is bound |
| `HashBucket.Bucket.Get` | IntelligentDriving/my_cyber/base/atomic_hash_map.h:276-284 | the value bound to the key, or failure exactly if there is none |
| `HashBucket.Bucket.Insert` | IntelligentDriving/my_cyber/base/atomic_hash_map.h:147-188 | binds the key to the value whether or not it was bound, changes no other binding, and keeps the linked list sorted |
| `IdRegistry.Registry.Register` | IntelligentDriving/my_cyber/common/global_data.cc:195-211 | the probe ends at the first id, counting up and wrapping at 2^64, that is free or already the name's; afterwards that id and no other carries the name, and no earlier binding has changed |
| `IdRegistry.Registry.LookUp` | IntelligentDriving/my_cyber/common/global_data.cc:213-221 | the name bound to the id, or the empty string |
| `IdRegistry.StopsExactlyWithRoom` | IntelligentDriving/my_cyber/common/global_data.cc:197-208 | a probe ends if and only if some id is free or already carries the name, for every hash value |
| `IdRegistry.NamingIsInjective` | IntelligentDriving/my_cyber/common/global_data.cc:195-221 | for every hash function and every history of registrations, two ids are equal if and only if the names are, and every id ever returned still leads to its name |
| `RegistryRace.LawfulExactlyWithoutOverwrites` | IntelligentDriving/my_cyber/common/global_data.cc:195-211 | for every interleaving of registrations and look-ups, with Get and the read through its pointer as two steps and deleted strings reading as anything, every id ever set leads to its name all the way if and only if no Set of the run replaces another name |
| `RegistryRace.NamingSurvivesOverlap` | IntelligentDriving/my_cyber/common/global_data.cc:195-221 | in every such run that reads no deleted string, although calls overlap, equal names and only equal names get equal ids, and every id leads to its name |
| `RegistryRace.CollisionLosesName` | IntelligentDriving/my_cyber/common/global_data.cc:197-209 | any two names with the same hash, registered at the same time, can both be given that hash as id, and one loses its binding |
| `RegistryRace.PointerDangles` | IntelligentDriving/my_cyber/common/global_data.cc:201-209 | for every name and every hash, two registrations of the name and a third call, a registration or a look-up, can come to where the next step of the third reads a string that has been deleted |
| `RegistryRace.OverlapIsSafeExactly` | IntelligentDriving/my_cyber/common/global_data.cc:195-221 | for every hash and every multiset of calls: under every interleaving of them no name is lost and no deleted string is read if and only if no two different names have the same hash, each name is registered at most twice, and none registered twice is looked up at its hash |
| `RegistryCalls.CallsAnsweredOverRuns` | IntelligentDriving/my_cyber/common/global_data.cc:195-221 | in every run each Register(n) that has returned has set `n`, exactly once, and each LookUp has set nothing |
| `RegistryCalls.LookUpAnswersRight` | IntelligentDriving/my_cyber/common/global_data.cc:213-221 | in every run that loses no name, a LookUp(id) that reads no deleted string answers with the name that `id` has at that instant, and with the empty string only if it has none |
| `RegistryCalls.LiveOverRuns` | IntelligentDriving/my_cyber/common/global_data.cc:195-221 | in every run, sound or not, no string that an id leads to has been deleted or is about to be |
| `RegistryCalls.RegisterAlone` | IntelligentDriving/my_cyber/common/global_data.cc:195-211 | in every run a Register(n) that is left alone returns, within four steps for each id it passes and six more, having bound `n` to the id where the registry of one thread would, and changed no other binding |
| `ChannelData.CacheBuffer.WindowIsLastMessages` | IntelligentDriving/my_cyber/data/cache_buffer.h:50-87 | Tail is the number n of messages filled, Head is n-min(n,size)+1, and each position from Head to Tail holds the message filled there |
| `ChannelData.CacheBuffer.Fill` | IntelligentDriving/my_cyber/data/cache_buffer.h:68-81 | appends one message to the history and keeps the buffer equal to its last `size` messages, although a full buffer overwrites the slot of `head_` |
| `ChannelData.CacheBuffer.At` | IntelligentDriving/my_cyber/data/cache_buffer.h:51 | for any position at all, the newest message filled at a position with the same slot; within the window that is the message filled at that position |
| `ChannelData.ChannelBuffer.Fetch` | IntelligentDriving/my_cyber/data/channel_buffer.h:61-88 | for a cursor up to Tail+1 the buffer answers as the pure delivery model does on the whole history: nothing, the message at the cursor, or the newest after a lag; cursor 0 gets the newest; a cursor beyond Tail+1 is served from its slot and kept |
| `ChannelData.ChannelBuffer.Latest` | IntelligentDriving/my_cyber/data/channel_buffer.h:91-101 | the newest message, or failure exactly if none was ever filled |
| `ChannelData.ChannelBuffer.FetchMulti` | IntelligentDriving/my_cyber/data/channel_buffer.h:104-121 | appends exactly the last min(Size, k) messages filled, oldest first |
| `ChannelData.DataVisitor.TryFetch` | IntelligentDriving/my_cyber/data/data_visitor.h:208-216 | one step of the pure delivery model: same message, same cursor |
| `Delivery.DeliveryIsFaithful` | IntelligentDriving/my_cyber/data/channel_buffer.h:61-88 | over every interleaving of Fill and TryFetch, delivered positions strictly increase, each delivered message is the one filled at its position, and the cursor never exceeds Tail+1 |
| `Delivery.SkipsOnlyWhenLagging` | IntelligentDriving/my_cyber/data/channel_buffer.h:61-88 | over every interleaving, two deliveries in a row are of neighbouring positions or of positions more than the queue size apart |
| `Delivery.FetchByLag` | IntelligentDriving/my_cyber/data/channel_buffer.h:70-85 | a reader that lags by more than the queue size gets the newest message, one that does not gets its next; nothing comes exactly when nothing is new |
| `Delivery.NextIsDue` | IntelligentDriving/my_cyber/data/channel_buffer.h:61-88 | over every interleaving, the next TryFetch delivers exactly what is due, in terms of the messages filled and those delivered alone: the newest to a reader that has had none or lags by more than the queue size, else the one after its last, and nothing if that was the newest |
| `Delivery.NoGapsWithoutLag` | IntelligentDriving/my_cyber/data/data_visitor.h:208-216 | a reader that never lags gets every message after its first exactly once |
| `Wakeup.NoLostWakeup` | IntelligentDriving/my_cyber/croutine/routine_factory.h:64-80 | in every run, with either kind of notifier: if a message is undelivered and every Dispatch has finished, or has got as far as seeing the routine not in DATA_WAIT, the routine is READY, or its update flag is clear or has just been taken, or it is on its way to its next TryFetch or inside its callback |
| `Wakeup.SleeperMissesNothing` | IntelligentDriving/my_cyber/croutine/croutine.h:193-231 | in every run, a routine parked in DATA_WAIT with its flag set, while nobody notifies or schedules, has nothing to fetch, and the last message its callback got is the newest |
| `Wakeup.WakeupIsTaken` | IntelligentDriving/my_cyber/scheduler/processor.cc:43-73 | from such a state with a message undelivered, any processor that looks for work delivers the next message within six steps |
| `Wakeup.RoutineFollowsDelivery` | IntelligentDriving/my_cyber/data/data_dispatcher.h:81-105 | in every run, the buffer and the log of everything handed to the callback are what the delivery model makes of that run's own fills and fetches, in the order in which they happened |
| `Wakeup.CallbacksAreFaithful` | IntelligentDriving/my_cyber/croutine/routine_factory.h:64-80 | in every run the callback gets dispatched messages only, in strictly increasing positions, each as it was filled, and skips only when it lagged by more than the queue size |
| `Wakeup.CallbacksHaveNoGaps` | IntelligentDriving/my_cyber/croutine/routine_factory.h:64-80 | in every run in which the routine has kept up whenever it fetches, the callback gets every message after its first exactly once |
| `Wakeup.CallbackGetsWhatIsDue` | IntelligentDriving/my_cyber/croutine/routine_factory.h:64-80 | in every run, when the routine fetches, the callback gets exactly what is due of the messages dispatched so far, the newest at first |
| `RoutineStates.WokenExactly` | IntelligentDriving/my_cyber/croutine/croutine.h:193-214 | in every run a step makes a parked routine ready if and only if it is that of UpdateState: a sleeping one exactly when its wake time has passed, a waiting one exactly when its flag was found clear; until then its state, loop and callback stay as they were |
| `RoutineStates.UpdateStateExactly` | IntelligentDriving/my_cyber/croutine/croutine.h:193-214 | in every run, whatever others do between its two steps, UpdateState ends with the routine ready if and only if it was ready, slept and is due, or waited and its flag was clear |
| `RoutineStates.ParksAsAsked` | IntelligentDriving/my_cyber/croutine/routine_factory.h:64-80 | in every run a callback that yields parks the routine in the state it asked for, inside the callback |
| `RoutineStates.OneMessageATurn` | IntelligentDriving/my_cyber/croutine/routine_factory.h:64-80 | between one resumption and the next yield the routine gets at most one message, whatever others do |
| `RoutineStates.OnlyTheRunnerMovesIt` | IntelligentDriving/my_cyber/croutine/croutine.cc:77-98 | scheduling, resuming and dispatching leave the routine's loop and its callback where they were |
| `RoutineStates.FinishedForGood` | IntelligentDriving/my_cyber/croutine/croutine.cc:77-83 | a finished routine stays finished and its callback is never called again, in every continuation |
| `RoutineStates.StopTakesHold` | IntelligentDriving/my_cyber/croutine/croutine.cc:77-98 | from Stop on, no processor resumes the routine; a ready one is finished instead |
| `RoutineStates.WaitingIsNotified` | IntelligentDriving/my_cyber/scheduler/policy/scheduler_classic.cc:187-210 | however the run goes on while the routine waits for data or IO, a Dispatch that has filled its message clears the flag before it ends |
| `RoutineStates.DispatchFinishes` | IntelligentDriving/my_cyber/scheduler/policy/scheduler_classic.cc:187-210 | from any state, a Dispatch that has filled its message finishes within three steps of its own |
| `Wakeup.DispatcherKeepsInv` | IntelligentDriving/my_cyber/scheduler/policy/scheduler_classic.cc:187-210 | filling and then notifying, with the state loaded twice, never leaves an undelivered message with a routine that nobody will wake |
| `Wakeup.SchedulerKeepsInv` | IntelligentDriving/my_cyber/scheduler/policy/classic_context.cc:57-84 | Acquire, UpdateState, Resume and Release keep a wakeup that is due, and at most one processor has the routine |
| `Wakeup.BodyKeepsInv` | IntelligentDriving/my_cyber/croutine/croutine.cc:50-98 | the routine's own steps keep a wakeup that is due: it goes to sleep only if it has seen every message or its flag tells of the rest |
| `AtomicRwLock.ExclusionOverRuns` | IntelligentDriving/my_cyber/base/atomic_rw_lock.h:66-131 | in every run and both modes, `lock_num_` is -1 exactly while one writer and no reader is inside, and counts the readers otherwise; the wait count is the number of writers between its increment and decrement |
| `AtomicRwLock.BoundedBypass` | IntelligentDriving/my_cyber/base/atomic_rw_lock.h:66-87 | in write-first mode, while a writer waits, each reader thread acquires at most once and only if it had passed its check before, so acquisitions are bounded by the readers past the check at the start |
| `AtomicRwLock.StepKeepsInv` | IntelligentDriving/my_cyber/base/atomic_rw_lock.h:66-131 | every step keeps lock number and wait count equal to the numbers of threads they stand for |
| `RwLockCalls.CallersServedOverRuns` | IntelligentDriving/my_cyber/base/atomic_rw_lock.h:66-131 | in every run a thread that asked to read waits for and has the lock only as a reader, and one that asked to write only as a writer |
| `RwLockCalls.ReaderAloneExactly` | IntelligentDriving/my_cyber/base/atomic_rw_lock.h:66-106 | a reader that comes to the lock and is left alone gets it if and only if nobody writes and, in write-first mode only, no writer waits |
| `RwLockCalls.ReaderGetsIn` | IntelligentDriving/my_cyber/base/atomic_rw_lock.h:66-106 | then it has the lock within four steps, wherever in ReadLock it was |
| `RwLockCalls.WriterAloneExactly` | IntelligentDriving/my_cyber/base/atomic_rw_lock.h:108-127 | a writer that comes to the lock and is left alone gets it if and only if the lock is free |
| `RwLockCalls.WriterGetsIn` | IntelligentDriving/my_cyber/base/atomic_rw_lock.h:108-127 | then it has the lock within three steps, also if it was waiting already |
| `ReentrantRwLock.ExclusionOverRuns` | IntelligentDriving/my_cyber/base/reentrant_rw_lock.h:69-160 | in every run, while a thread has a write guard open at any depth, no other thread has any guard open, although WriteUnlock updates count and owner in two steps |
| `ReentrantRwLock.AccountingBreaksExactly` | IntelligentDriving/my_cyber/base/reentrant_rw_lock.h:145-160 | a step makes a negative count differ from the write depth of the thread inside if and only if it is the ReadUnlock decrement of a thread inside whose ownership record has been erased |
| `ReentrantRwLock.ExactExactlyWithoutMiscounts` | IntelligentDriving/my_cyber/base/reentrant_rw_lock.h:117-160 | over whole runs: a negative count is the write depth of the thread inside after every prefix if and only if no step is such a decrement |
| `ReentrantRwLock.FlatRunsAccountExactly` | IntelligentDriving/my_cyber/base/reentrant_rw_lock.h:69-74 | in every run in which no thread opens a read guard inside a write guard, a negative count is the write depth of the thread inside after every prefix; a nested write of an erased owner waits for ever in such runs too (`Reentrancy.ErasedOwnerIsStuck`) |
| `ReentrantRwLock.CarefulRunsAccountExactly` | IntelligentDriving/my_cyber/base/reentrant_rw_lock.h:117-160 | in every run in which nobody wins the lock while the last owner has still to clear its name, a negative count is always the write depth of the one thread inside |
| `ReentrantRwLock.LostRecord` | IntelligentDriving/my_cyber/base/reentrant_rw_lock.h:145-160 | a reachable state, in both modes, with the count at -1 and no guard open |
| `ReentrantRwLock.LostForGood` | IntelligentDriving/my_cyber/base/reentrant_rw_lock.h:69-143 | from such a state, however the run goes on, no thread ever opens a guard |
| `GuardCalls.GuardsAreOfCalls` | IntelligentDriving/my_cyber/base/reentrant_rw_lock.h:69-160 | in every run a thread between calls has exactly the guards of its calls open, of the kinds it asked for and in their order, less the innermost for each Close |
| `GuardCalls.AloneExactly` | IntelligentDriving/my_cyber/base/reentrant_rw_lock.h:69-143 | a thread that opens a guard and is left alone gets it if and only if it is the recorded owner, or reads while nobody writes and in write-first mode nobody waits to, or writes while the lock is free |
| `GuardCalls.AskerGetsIn` | IntelligentDriving/my_cyber/base/reentrant_rw_lock.h:69-115 | a reader that the lock lets in and that is left alone has its guard within four steps, wherever in ReadLock it was |
| `GuardCalls.WaiterGetsIn` | IntelligentDriving/my_cyber/base/reentrant_rw_lock.h:125-143 | a writer that waits at a free lock and is left alone has its guard in three steps |
| `Reentrancy.OwnerIsGranted` | IntelligentDriving/my_cyber/base/reentrant_rw_lock.h:71-74 | the recorded owner gets a nested read guard in one step and a nested write guard in two, whatever other threads do in between |
| `Reentrancy.ErasedOwnerIsStuck` | IntelligentDriving/my_cyber/base/reentrant_rw_lock.h:117-143 | in every run, a thread inside that is not the recorded owner and asks for another guard waits behind its own, count and guards unchanged, and nobody else has a guard, in every continuation by any threads |
| `Reentrancy.ReentrantExactly` | IntelligentDriving/my_cyber/base/reentrant_rw_lock.h:69-143 | in every run, a thread inside that asks for another guard is granted it in some continuation if and only if it is the recorded owner |
| `Reentrancy.RecordIsErased` | IntelligentDriving/my_cyber/base/reentrant_rw_lock.h:154-160 | a state reachable with write guards alone, in both modes, in which a thread is inside, the count is exact and the lock has no owner on record |
| `Reentrancy.BareRunsStayAlive` | IntelligentDriving/my_cyber/base/reentrant_rw_lock.h:69-160 | in every run in which nothing is opened inside a write guard, a thread inside never waits for the lock, the count is -1, and closing its guard sets it to 0 |
| `LockNesting.NestingRestores` | IntelligentDriving/my_cyber/base/reentrant_rw_lock.h:69-160 | some schedule of one thread alone makes all calls of a nesting and sees them all return if and only if the nesting opens no write inside an outermost read |
| `LockNesting.CompletedIsFree` | IntelligentDriving/my_cyber/base/reentrant_rw_lock.h:145-160 | whatever schedule of one thread alone completes a nesting, count and wait count are 0, the owner is null and no guard is open |
| `LockNesting.SoloTracks` | IntelligentDriving/my_cyber/base/reentrant_rw_lock.h:69-160 | under every schedule of one thread alone the lock is, at each point, where its calls made one after another put it |
| `LockNesting.UpgradeIsReached` | IntelligentDriving/my_cyber/base/reentrant_rw_lock.h:117-131 | a nesting with such a write is carried out up to that WriteLock, which waits behind the thread's own read |
| `LockNesting.UpgradeBlocksForGood` | IntelligentDriving/my_cyber/base/reentrant_rw_lock.h:125-140 | from any state in which a thread asks to write inside its own read, no continuation by any threads gets it past WriteLock or changes its guards |
| `LockNesting.UpgradeShutsReadersOut` | IntelligentDriving/my_cyber/base/reentrant_rw_lock.h:76-96 | in write-first mode, from there on no reader passes its check in any continuation, since the wait count stays positive |
| `LockNesting.WaitCountOverRuns` | IntelligentDriving/my_cyber/base/reentrant_rw_lock.h:125-140 | in every run the wait count is the number of writers between its increment and decrement |
| `ReentrantRwLock.StepKeepsInv` | IntelligentDriving/my_cyber/base/reentrant_rw_lock.h:69-160 | every step keeps the invariant behind exclusion |
| `ShmLayout.CeilingMessageSize` | IntelligentDriving/SHM_TEST/shm_src/shm_conf.cpp:70-98 | the smallest size class that holds the message, or the largest class if none does |
| `ShmLayout.ShmConf.Default` | IntelligentDriving/SHM_TEST/shm_src/shm_conf.cpp:10-17 | the default sizes agree with each other and the segment is ample for what Create records |
| `ShmLayout.ShmConf.Update` | IntelligentDriving/SHM_TEST/shm_src/shm_conf.cpp:34-42 | the four sizes agree with each other and with the size class of the block size; the message size is kept |
| `ShmLayout.ShmConf.FromProperty` | IntelligentDriving/SHM_TEST/shm_src/shm_conf.cpp:23-32 | the sizes agree with each other, and the segment is ample even after the block size is cut down to 32 bits |
| `ShmLayout.AllocMemory.Create` | IntelligentDriving/SHM_TEST/shm_src/alloc_memory.cpp:75-110 | lays out exactly the buffers of the header it records, in a segment no larger than the one it mapped, and keeps the configured ceiling if and only if the recorded message size is of that class |
| `ShmLayout.CreateDefault` | IntelligentDriving/SHM_TEST/shm_src/shm_conf.cpp:10-17 | a segment created from the default configuration, made for 8 MB, accepts exactly the messages up to 16 KB |
| `ShmLayout.CreateFromProperty` | IntelligentDriving/SHM_TEST/shm_src/alloc_memory.cpp:75-84 | a segment created from a property accepts exactly what it was configured for if and only if the block size fits 32 bits or its lower 32 bits exceed 16 MB; otherwise it refuses a message it was configured for |
| `ShmLayout.CreateFromConfiguration` | IntelligentDriving/SHM_TEST/shm_src/shm_config.cpp:63-70 | a segment created from a property that the configuration file can produce accepts exactly the messages within the ceiling of the parsed block size, and so every message up to that size |
| `ShmLayout.TruncationKeepsClassExactly` | IntelligentDriving/SHM_TEST/shm_src/shm_conf.cpp:70-98 | when the size class of a block size survives being cut to 32 bits |
| `ShmLayout.AllocMemory.OpenOnly` | IntelligentDriving/SHM_TEST/shm_src/alloc_memory.cpp:160-188 | lays out exactly the buffers of the header it finds |
| `ShmLayout.LayoutIsSound` | IntelligentDriving/SHM_TEST/shm_src/alloc_memory.cpp:97-110 | for every block size and count, all buffers are disjoint from each other and from the State and Block objects, lie in the mapped segment, hold any message within the ceiling size plus its information block, and have the same offsets in writer and reader |
| `ShmLayout.NoOverflow` | IntelligentDriving/SHM_TEST/shm_src/shm_conf.cpp:29-30 | the segment size fits uint64_t for every configuration |
| `ShmBlocks.ExclusionOverRuns` | IntelligentDriving/SHM_TEST/shm_src/block.cpp:18-76 | in every run each block's lock number is -1 exactly while one writer and no reader holds the block, and counts its readers otherwise |
| `ShmBlocks.SnapshotOverRuns` | IntelligentDriving/SHM_TEST/shm_src/alloc_memory_base.cpp:69-126 | no torn reads: in every run all words a reader has read since it acquired the block are words of the contents last released, and all words a writer has stored since it acquired the block are still there |
| `ShmBlocks.PublishedByRelease` | IntelligentDriving/SHM_TEST/shm_src/alloc_memory_base.cpp:57-67 | what readers of a block see changes only when its writer releases it, then holds every word that writer stored, and does not change while anybody reads |
| `ShmBlocks.StepKeepsInv` | IntelligentDriving/SHM_TEST/shm_src/alloc_memory_base.cpp:176-206 | every step of scanning, locking, reading, writing and releasing keeps the invariant behind exclusion and snapshots |
| `ShmBlocks.ContributionIsShare` | IntelligentDriving/SHM_TEST/shm_src/block.cpp:18-76 | in every run the sum of the changes a thread's own steps made to a block's lock number is exactly what it holds of the block |
| `BlockUse.BlocksExistOverRuns` | IntelligentDriving/SHM_TEST/shm_src/alloc_memory_base.cpp:176-206 | in every run every block that a thread tries, locks, reads or writes is one of the segment, and no other is touched |
| `BlockUse.BuffersAreMapped` | IntelligentDriving/SHM_TEST/shm_src/alloc_memory.cpp:97-110 | in every run on a segment that is laid out, the buffer of every block in use lies in the mapped memory behind the State and Block objects and overlaps the buffer of no other block in use |
| `BlockUse.CallersServedOverRuns` | IntelligentDriving/SHM_TEST/shm_src/alloc_memory_base.cpp:69-114 | in every run a thread that asked to read block `b` is busy with `b` only, as a reader, and one that asked for a block to write only as a writer |
| `BlockUse.WordsAreCallersOverRuns` | IntelligentDriving/SHM_TEST/shm_src/alloc_memory_base.cpp:69-126 | in every run the words a writer has put are exactly those it asked to store since it got the block, and a reader has looked at exactly the positions it asked for |
| `BlockUse.WriterKeepsTrying` | IntelligentDriving/SHM_TEST/shm_src/alloc_memory_base.cpp:176-206 | a caller looking for a block to write returns only after it has had one |
| `BlockUse.TicketTriesItsBlock` | IntelligentDriving/SHM_TEST/shm_src/alloc_memory_base.cpp:182 | in every run the ticket drawn as number k, counted from 0, makes its caller try block (k mod 2^32) mod blockNum |
| `Tickets.EveryRoundTriesAllExactly` | IntelligentDriving/SHM_TEST/shm_src/alloc_memory_base.cpp:182 | every blockNum tickets in a row stand for all the blocks if and only if blockNum divides 2^32 |
| `Tickets.AllTriedInTwoRounds` | IntelligentDriving/SHM_TEST/shm_src/alloc_memory_base.cpp:182 | any 2 * blockNum tickets in a row stand for all the blocks |
| `BlockUse.WriterFindsFreeBlock` | IntelligentDriving/SHM_TEST/shm_src/alloc_memory_base.cpp:176-206 | in every run a writer that is left alone locks a free block within 8 * blockNum steps if there is one, whatever AnyAlive answers and wherever the counter is |
| `BlockUse.ReaderAlone` | IntelligentDriving/SHM_TEST/shm_src/block.cpp:29-56 | a reader that is left alone is through within five steps: it locks the block it asked for if and only if nobody writes it, and changes nothing otherwise |
| `BlockUse.FiveTries` | IntelligentDriving/SHM_TEST/shm_src/block.cpp:39-54 | a reader whose compare-and-swap keeps failing tries exactly five times before it gives up |
| `BlockUse.InsertAlone` | IntelligentDriving/SHM_TEST/lockless.h:52-80 | a caller that has the lock and is left alone gets the block if and only if one of the 64 slots is empty or records its process; otherwise it is refused with the lock held |
| `ShmBlocks.RefusedCleanlyExactly` | IntelligentDriving/SHM_TEST/shm_src/alloc_memory_base.cpp:21-55 | a refused call leaves every lock number as it found it if and only if it was refused before its compare-and-swap succeeded |
| `ShmBlocks.StrandedForGood` | IntelligentDriving/SHM_TEST/shm_src/alloc_memory_base.cpp:112-113 | after any other refusal, however the run goes on, the block is never locked for writing again, nor for reading if the caller meant to write, and its contents never change |
| `ShmBlocks.StrandedReachable` | IntelligentDriving/SHM_TEST/lockless.h:52-80 | such refusals are reachable: once 64 processes have used a block and released it, the next process is refused with the lock held, as a reader of any block and as a writer |
| `BlockCallers.FewAreNotStranded` | IntelligentDriving/SHM_TEST/lockless.h:52-80 | in every run of at most 64 threads, of however many processes, no thread is refused with the lock held |
| `BlockCallers.OneTooMany` | IntelligentDriving/SHM_TEST/lockless.h:52-80 | any 65 threads, of however many processes, can come to where one of them, having lost its compare-and-swap on the last slot, is refused with the lock held, on any block |
| `BlockCallers.RefusalsAreCleanExactly` | IntelligentDriving/SHM_TEST/shm_src/alloc_memory_base.cpp:69-114 | for every set of threads and every assignment of processes: in every run of theirs a refused call leaves every lock number as it found it if and only if they are at most 64 |
| `MessageFraming.Number32RoundTrip` | IntelligentDriving/my_cyber/message/message_header.h:97-114 | 32-bit numbers and strings of four bytes correspond one to one |
| `MessageFraming.Number64RoundTrip` | IntelligentDriving/my_cyber/message/message_header.h:102-120 | 64-bit numbers and strings of eight bytes correspond one to one through the split in two halves |
| `MessageFraming.BigEndian32` | IntelligentDriving/my_cyber/message/message_header.h:97-114 | the first of the four bytes is the most significant, in both directions |
| `MessageFraming.BigEndian64` | IntelligentDriving/my_cyber/message/message_header.h:102-120 | of eight bytes, byte i counts 256 to the power of 7 - i, in both directions |
| `MessageFraming.MessageHeader.SetSeq` | IntelligentDriving/my_cyber/message/message_header.h:52-53 | the number reads back as written, and no other field changes |
| `MessageFraming.MessageHeader.SetTimestampNs` | IntelligentDriving/my_cyber/message/message_header.h:56-59 | the number reads back as written, and no other field changes |
| `MessageFraming.MessageHeader.SetSrcId` | IntelligentDriving/my_cyber/message/message_header.h:62-65 | the number reads back as written, and no other field changes |
| `MessageFraming.MessageHeader.SetDstId` | IntelligentDriving/my_cyber/message/message_header.h:68-71 | the number reads back as written, and no other field changes |
| `MessageFraming.MessageHeader.SetContentSize` | IntelligentDriving/my_cyber/message/message_header.h:90-93 | the number reads back as written, and no other field changes |
| `MessageFraming.MessageHeader.SetMsgType` | IntelligentDriving/my_cyber/message/message_header.h:75-85 | the first 128 bytes at most of the name, padded with NUL to 129; an empty name leaves the old one |
| `MessageFraming.SerializeToHC` | IntelligentDriving/my_cyber/message/message_traits.h:236-258 | succeeds exactly if header and message fit the offered size; the memory then differs from before by exactly what `Written` says: nothing if the size is from 0 to 191, the header alone if it is negative or too small for the message, else header and message |
| `MessageFraming.HeaderWrittenExactly` | IntelligentDriving/my_cyber/message/message_traits.h:249-254 | the header is written if and only if the size is negative or at least 192 |
| `MessageFraming.WithinOfferExactly` | IntelligentDriving/my_cyber/message/message_traits.h:249-257 | what is written stays within the offered bytes if and only if the size is not negative |
| `MessageFraming.NegativeSizeIsWrittenTo` | IntelligentDriving/my_cyber/message/message_traits.h:249-254 | at size -1 the whole header is written |
| `MessageFraming.SendAndReceive` | IntelligentDriving/my_cyber/message/message_traits.h:187-258 | serializing into an array and parsing the same array gives the message back if it fits and is not empty, and refuses exactly the empty one |
| `MessageFraming.ParseFromHC` | IntelligentDriving/my_cyber/message/message_traits.h:187-199 | the outcome depends on nothing but the first `size` bytes, and the caller's message is replaced only on success |
| `MessageFraming.ParseExactly` | IntelligentDriving/my_cyber/message/message_traits.h:187-199 | a message is accepted if and only if it is not empty, its size is the big-endian number at bytes 188 to 191, and it follows the 192-byte header |
| `MessageFraming.HeaderFields` | IntelligentDriving/my_cyber/message/message_header.h:122-129 | where a reader finds magic number, type and content size in a serialized header, and that all other bytes are 0 |
| `MessageFraming.FrameRoundTrip` | IntelligentDriving/my_cyber/message/message_traits.h:236-258 | a framed message, followed by anything, parses back to itself if and only if it is not empty |

## Left out

- Memory orders weaker than sequential consistency; wrap-around of 64-bit counters.
- `WaitEnqueue`, `WaitDequeue` and the wait strategies: they depend on clocks and condition variables. `Size`, `Head` and `Tail` of a queue in concurrent use: they are not an atomic snapshot.
- `ConstructAll`, `ConstructObject` and destructors of the pool; a pool of capacity 0, which the constructor is not made for.
- Reading the object behind a pointer returned by `AtomicHashMap::Get` after a later `Set` of the key has deleted it, for other users of the map than the registries; the other two overloads of `Insert`, which differ in copying or moving their argument, for which `SpareMeansPresent` says what matters; keys are any integers and the index is the remainder by the bucket count, which is the mask when that count is a power of two.
- The concurrent hash map, pool, locks, coroutine and blocks are modelled on values, as state machines, rather than as classes: update in place and aliasing are captured by explicit memory (sequences of entries, nodes and blocks), not by the Dafny heap.
- ReentrantRwLock.CarefulRunsAccountExactly: goes one way, under a condition on the schedule; `ExactExactlyWithoutMiscounts` is the exact form.
- ShmBlocks.RefusedCleanlyExactly: is about one call, by the branch that refuses it; `BlockCallers.RefusalsAreCleanExactly` is the form for callers.
- IdRegistry.Registry.Register: assumes an id that is free or already the name's; without one the source's loop does not end. RegisterChannel, RegisterService and RegisterTaskName repeat the same code.
- The fusion callback of `CacheBuffer`, multi-channel fusion (`AllLatest`) and visitors of several channels; `AddBuffer` and the fan-out of one Dispatch to several buffers; registration with the notifier.
- Stack switching of coroutines; the queues, priorities and condition variables of the scheduler contexts, and removing a routine from them; that a ready routine is eventually scheduled.
- The branch of `AnyAlive` that removes dead processes from the `LocklessSet` and releases their locks; `Remap`, `Recreate`, `Destroy` and reference counts of a segment; failures of `mmap` and `shm_open`; the table of block counts per size class. The check of the message size in `AcquireBlockToWrite` appears as the ceiling size in `LayoutIsSound`.
- ShmLayout.LayoutIsSound: takes sizeof(State) to be at most 5120 and sizeof(Block) at most 1024 bytes, the room the size constants set aside for them; they depend on the compiler.
- Whether a call succeeds while others keep interfering: the results called `Alone` are about a thread that is left alone.
- MessageFraming.SerializeToHC: null pointers are not modelled, nor sizes below -2147483456, for which the source's subtraction overflows an int; message types other than raw byte strings are not part of this model.
- `SHM_TEST/shm_inc/atomic_rw_lock.h`, the same algorithm as the lock modelled here; `unbounded_queue.h`, `object_pool.h`, `signal.h`, `thread_pool.h` and `thread_safe_queue.h`; protobuf messages, nodes, components, transport, class loading, logging and files.
