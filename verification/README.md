# Models of the environment pool, the worker pools and the reset machine

This Dafny project models the concurrent core of the environment pool (a multi-producer
multi-consumer queue, the semaphore and the blocking wrapper over it), the per-environment
worker pools, the two-phase reset and respawn machine of the simulation server, and three
smaller cores: the comment masker of the documentation generator, the ring buffer and the
first-order rate limiter. `dafny verify dfyconfig.toml` checks all of it.

Two kinds of model are used.

* Concurrent code (ticket counters, the shared block ring, free list, semaphore, blocking queue,
  worker queues) is a state machine: a state holds the shared memory and every thread's program counter, one action
  is one access to one shared variable (or one critical section, where the code holds a mutex),
  and a theorem speaks of `Run(Init(..), actions)` for every sequence of actions, that is, of
  every interleaving of any number of threads. Memory is sequentially consistent. History that
  the code does not keep (which ticket met which fate, which thread is responsible for a node)
  is part of the state only for the theorems.
* Code that one thread runs on its own data is a class with the fields of the original, or an
  imperative method, proved against a sequence, a map or a function, about which the properties
  are then proved. Stored indices are words modulo 2^64; the counters behind them are ghost.

| file | what it models |
|---|---|
| `Basics.dfy`, `Texts.dfy` | options, minima, distinctness; searching a text |
| `Circular.dfy` | words modulo 2^64, `circular_less_than`, masking, circular arrays |
| `Sums.dfy` | sums over the threads of a state machine |
| `Tickets.dfy` | the optimistic/overcommit ticket counters that both kinds of producer share |
| `FreeLists.dfy` | the reference-counted lock-free free list |
| `Blocks.dfy` | blocks of 32 cells, the four indices of a producer |
| `ExplicitProducers.dfy` | the block ring with its circular, growing index |
| `SharedRings.dfy` | that ring and index while any number of consumers use them: the ticket machine composed with blocks, flags and replaced indices |
| `ImplicitIndexes.dfy`, `ImplicitProducers.dfy` | the block index with shared entries; enqueue, dequeue, bulk enqueue and its undoing |
| `ProducerHashes.dfy` | the chained, open-addressed map from thread ids to producers |
| `Semaphores.dfy`, `BlockingQueues.dfy` | the lightweight semaphore and the queue composed with it |
| `WorkQueues.dfy`, `ServerPools.dfy` | closable task queues with workers; one queue and worker per environment |
| `ResetMachine.dfy` | the four queues of resets and respawns |
| `CommentMasker.dfy`, `CommentScanners.dfy` | the comment masker; a scanner that reads one character at a time, as its reference |
| `RingBuffers.dfy`, `RateLimiters.dfy` | the smaller cores |

## What the proofs turned up

* `ThreadPool(0)` accepts tasks and never runs them; with at least one worker a join always
  drains (`WorkQueues.JoinDrains` states this as an equivalence).
* The server pool accepts the same server object for two environments. Then the final state
  depends on the schedule (`ServerPools.SharedServerDependsOnSchedule`); with distinct servers it
  does not (`ServerPools.ScheduleIndependent`).
* Two respawns of one model in one batch remove it once and create it twice
  (`ResetMachine.RespawnCopies`).
* Nested models are tracked as "outer::inner", but entities carry plain names. A reset of such a
  name is always missed (`ResetMachine.ResetMisses`, `ResetMachine.ResetFindsExactly`), and a
  respawn of it removes nothing and adds a copy of the inner model
  (`ResetMachine.NestedRespawnAdds`). As long as no untracked outer model is respawned, a reset
  of a top-level model whose respawns do not overlap is missed exactly between the phases of a
  respawn of it; over the public interface, which finishes each request, it is never missed
  (`ResetMachine.PublicResetFinds`).
* Re-indexing can throw in the middle of a run exactly if some tracked name lies in a top-level
  model that is not tracked itself (`ResetMachine.ReindexingSafe`, an equivalence).
* The three steps of the public reset drain everything exactly if no respawn was already waiting,
  and the other way round (`ResetMachine.DRLServer.ResetPos`, `ResetMachine.DRLServer.RespawnModel`).
* With exactly 2^63 elements `circular_less_than` no longer tells full from empty
  (`Circular.CircularLessIsLess`, `Circular.CircularLessFailsAtHalf`). An explicit producer reaches
  that number, because reusing a block asks for no comparison, and then a dequeue finds nothing
  (`ExplicitProducers.HalfIsReached`). An implicit producer, which never reuses a block in place,
  does not reach it: the contract of its dequeue has no such case.
* An implicit producer whose first index allocation failed refuses every element for good,
  whatever memory there is later (`ImplicitProducers.AbsentIndexRefusesAll`).
* An untimed wait on the semaphore may return nothing if its wait on the operating system's
  semaphore comes back without a token, and otherwise returns at least one permit (`Semaphores.ResultsInRange`,
  `Semaphores.InterruptedReturnsNothing`); the code asserts the latter at
  envs/envpool/lightweightsemaphore.h:405.

## Model

| member | source | states |
|---|---|---|
| Circular.CircularLessIsLess | envs/envpool/concurrentqueue.h:476-484 | on words, the comparison decides the order of the true counters while they are less than 2^63 apart |
| Circular.CircularLessFailsAtHalf | envs/envpool/concurrentqueue.h:476-484 | at a distance of exactly 2^63 it denies both orders, so the proviso is needed |
| Circular.SignedDifference | envs/envpool/concurrentqueue.h:2948-2964 | the signed reading of a wrapped difference is the difference of the counters |
| Tickets.HeadStaysBehindTail | envs/envpool/concurrentqueue.h:1954-2052 | every interleaving: head plus granted-but-unclaimed never exceeds the tail, and optimistic - overcommit equals head plus unclaimed plus undecided tickets |
| Tickets.GrantsAtMostItems | envs/envpool/concurrentqueue.h:1962-2009 | the argument behind it: if every granted ticket has enough refused tickets below it, grants never outnumber published elements |
| Tickets.InvStep | envs/envpool/concurrentqueue.h:2247-2338 | every access of every consumer, single or bulk, and every publication keeps the ticket invariant |
| Tickets.EachElementDeliveredOnce | envs/envpool/concurrentqueue.h:1954-2052 | each claimed index is claimed by one consumer, which receives the element published there, in claim order, and nothing else |
| Tickets.HistoryGrows | envs/envpool/concurrentqueue.h:2247-2338 | no run takes back a claim or a publication |
| Tickets.ItemsArePublished | envs/envpool/concurrentqueue.h:1947-1951 | over any run the elements are those published, in that order |
| Tickets.LoneCallSucceeds | envs/envpool/concurrentqueue.h:1954-2052 | from any reachable quiescent state a lone call takes exactly min(max, stored) of the oldest elements: failures elsewhere strand nothing |
| Tickets.CallsEnd | envs/envpool/concurrentqueue.h:2247-2338 | from any state, wherever the others have stopped, a consumer on its own is out of the counters within six accesses |
| Tickets.MachineGuards | envs/envpool/concurrentqueue.h:1959-1989 | the guards on stored words decide what the guards on unbounded counters decide |
| SharedRings.InvStep | envs/envpool/concurrentqueue.h:1848-2052 | every single access of the producer (scanning and clearing flags, copying and entering into the index, constructing, publishing) and of every consumer (tickets, index pointer, front, base, block pointer, moving out, flagging) keeps the joint invariant |
| SharedRings.ClaimedCellStays | envs/envpool/concurrentqueue.h:1999-2042 | between its claim and its flag an index is one consumer's alone: its block stays in the ring, its cell unflagged (as set_empty asserts), and until it is moved out the cell holds the element published at that index |
| SharedRings.ReusedOnlyWhenFlagged | envs/envpool/concurrentqueue.h:1857-1860 | the producer takes a block for new elements only after every claimer of its cells has flagged, and with all its indices behind the head |
| SharedRings.StaleIndexFindsBlock | envs/envpool/concurrentqueue.h:2003-2014 | a consumer finds the block of its index through the index pointer and front it has loaded, although the producer may have turned the ring, published more or replaced the index since |
| SharedRings.NeverFaults | envs/envpool/concurrentqueue.h:2003-2042 | in no interleaving does a consumer follow a null block pointer, leave the entries or take from a cell without element |
| SharedRings.ElementsReachTheirClaimers | envs/envpool/concurrentqueue.h:2247-2338 | end to end: what each consumer has moved out of cells is a prefix of what its tickets entitle it to, and between calls exactly one element per claimed index, the one published there |
| SharedRings.RefinesTickets | envs/envpool/concurrentqueue.h:1954-2052 | every run of the composed machine is, at the counters, a run of the ticket machine |
| SharedRings.AtRest | envs/envpool/concurrentqueue.h:1595-1635 | once all calls have returned, cells and flags are those of the sequential invariant, however the calls were interleaved |
| SharedRings.LoneEnqueue | envs/envpool/concurrentqueue.h:1848-1951 | an enqueue nobody interrupts publishes its element last, whatever the consumers are in the middle of, within 70 accesses; the block index is replaced only if it has no room |
| SharedRings.ReaderFinishes | envs/envpool/concurrentqueue.h:2264-2335 | from any reachable state a consumer with claimed indices on its own gets every one of them out and flagged |
| SharedRings.LoneReuse | envs/envpool/concurrentqueue.h:1856-1867 | once the oldest block is emptied and no claimed index is in hand, the next block-starting element goes there and no block is asked for |
| SharedRings.LoneDequeue | envs/envpool/concurrentqueue.h:2247-2338 | a dequeue nobody interrupts hands out the min(max, stored) oldest elements, moved out of their cells, wherever producer and earlier readers stand |
| SharedRings.CopiedSound | envs/envpool/concurrentqueue.h:2369-2390 | the replacing index shows every block in use from slot 0 on |
| SharedRings.EntryWritten | envs/envpool/concurrentqueue.h:1934-1937 | writing the next entry disturbs none that a consumer may still need, and no older index |
| SharedRings.FrontStored | envs/envpool/concurrentqueue.h:1938-1939 | storing the front publishes the new block and keeps all earlier lookups valid |
| SharedRings.LookupOnWords | envs/envpool/concurrentqueue.h:2010-2014 | the signed offset arithmetic on stored words computes the same slot while the blocks are less than 2^63 indices apart |
| FreeLists.LoneTryGet | envs/envpool/concurrentqueue.h:1473-1512 | with nobody else inside, try_get returns the first listed node, which leaves the list and is its client's, or none exactly if the list is empty |
| FreeLists.LoneAdd | envs/envpool/concurrentqueue.h:1460-1471 | with nobody else inside, add puts the node first on the list |
| FreeLists.NobodyWaits | envs/envpool/concurrentqueue.h:1460-1538 | no locks: after any run, wherever the others have stopped, a thread on its own is out of its call within 29 accesses |
| FreeLists.EveryCallAnswered | envs/envpool/concurrentqueue.h:1473-1512 | every interleaving: between calls a thread has one result for each call it has made |
| FreeLists.NoneMeansEmpty | envs/envpool/concurrentqueue.h:1478-1511 | every interleaving: a call that returns none was inside in a state in which the list was empty |
| FreeLists.SomeMeansTaken | envs/envpool/concurrentqueue.h:1490-1498 | every interleaving: a node returned was in the caller's own hands and is now its client's |
| FreeLists.WordsCountReferences | envs/envpool/concurrentqueue.h:1459-1538 | every interleaving: the low bits of a node's word count the references held plus one if it is listed or being offered, and the flag bit marks nodes to be added |
| FreeLists.InvStep | envs/envpool/concurrentqueue.h:1459-1538 | each single access of add, try_get and the publishing loop keeps the invariant |
| FreeLists.NextStable | envs/envpool/concurrentqueue.h:1487-1490 | while anybody holds a reference, no step changes that node's next pointer |
| FreeLists.HeadCasTakesFirst | envs/envpool/concurrentqueue.h:1490-1497 | a successful CAS of the head removes the true first node and installs its true successor: no ABA |
| FreeLists.AssertionHolds | envs/envpool/concurrentqueue.h:1493 | the assertion in try_get never fails |
| FreeLists.EveryNodeAccountedFor | envs/envpool/concurrentqueue.h:1450-1550 | each node is listed once, owned by a client, or in the hands of exactly one thread or pending on its remaining references |
| FreeLists.QuiescentListComplete | envs/envpool/concurrentqueue.h:1450-1550 | with no thread inside, following next from the head meets every returned node exactly once |
| FreeLists.ClientKeepsNode | envs/envpool/concurrentqueue.h:1473-1510 | a node a client took stays the client's until it gives it back |
| Blocks.Block.IsEmpty | envs/envpool/concurrentqueue.h:1570-1593 | tells whether all flags are set |
| Blocks.Block.SetManyEmpty | envs/envpool/concurrentqueue.h:1616-1635 | flags exactly the given cells, none of which was flagged |
| Blocks.Block.MoveOut | envs/envpool/concurrentqueue.h:2287-2293 | takes out the elements of a run of cells in order and destroys exactly those, also where the stored index wraps |
| Blocks.Block.MoveIn | envs/envpool/concurrentqueue.h:2716-2719 | constructs the items in a run of cells and touches no other cell |
| Blocks.CellOfWord | envs/envpool/concurrentqueue.h:1677-1678 | the cell and the block base computed from a stored index are those of the counter behind it |
| Blocks.FullCompares | envs/envpool/concurrentqueue.h:1872-1880 | the word comparison refuses a block exactly when the indices would come 2^63 apart |
| Blocks.CountsPopped | envs/envpool/concurrentqueue.h:1977-2001 | advancing head and optimistic count together keeps their difference to the overcommit count |
| Blocks.CountsCompare | envs/envpool/concurrentqueue.h:1957-1959 | with nobody else at work, the first test of a dequeue says whether there are elements (below 2^63) |
| ExplicitProducers.ExplicitProducer.Enqueue | envs/envpool/concurrentqueue.h:1848-1951 | appends one element, in FIFO order; exactly when it succeeds; a failure leaves elements and ring alone; the ring turns or gains the block only when a block is started; invariant kept: constructed cells are the stored elements, flags are the dequeued cells, size limit holds |
| ExplicitProducers.ExplicitProducer.ReuseBlock | envs/envpool/concurrentqueue.h:1856-1867 | the oldest block becomes the newest with consecutive bases and a full index always has room for it |
| ExplicitProducers.ExplicitProducer.AddBlock | envs/envpool/concurrentqueue.h:1895-1915 | a new block joins the circular list behind the tail; index, ring and bounds stay consistent |
| ExplicitProducers.ExplicitProducer.StartBlock | envs/envpool/concurrentqueue.h:1853-1945 | succeeds exactly if the oldest block is empty or a block is allowed, indexable and available |
| ExplicitProducers.ExplicitProducer.Dequeue | envs/envpool/concurrentqueue.h:1954-2052 | takes the oldest element, found through the block index, destroys it and flags its cell; fails exactly if there is none (or 2^63) |
| ExplicitProducers.ExplicitProducer.DequeueBulk | envs/envpool/concurrentqueue.h:2247-2338 | takes min(max, stored) elements in order across any number of blocks |
| ExplicitProducers.ExplicitProducer.DrainBlocks | envs/envpool/concurrentqueue.h:2277-2331 | walking index slots and blocks in step moves out exactly the next elements |
| ExplicitProducers.ExplicitProducer.NewBlockIndex | envs/envpool/concurrentqueue.h:2356-2393 | doubles the index and keeps the sequence of entries in use; a failed allocation changes nothing |
| ExplicitProducers.ExplicitProducer.CopyEntries | envs/envpool/concurrentqueue.h:2370-2378 | lays the circular entries out from slot 0, oldest first, however they were wrapped |
| ExplicitProducers.ExplicitProducer.constructor | envs/envpool/concurrentqueue.h:1771-1786 | an empty producer, valid whether or not its first index could be allocated |
| ExplicitProducers.LookupFinds | envs/envpool/concurrentqueue.h:2003-2014 | the offset arithmetic on wrapped indices finds the block that holds an index, for every index in the ring |
| ExplicitProducers.WindowSlid | envs/envpool/concurrentqueue.h:1863-1945 | overwriting the slot after the newest drops the oldest entry and keeps the rest enumerating the ring |
| ExplicitProducers.WindowAdded | envs/envpool/concurrentqueue.h:1913-1945 | with a free slot the window grows by the new entry |
| ExplicitProducers.HoldsPushed | envs/envpool/concurrentqueue.h:1947-1950 | constructing an element at the tail keeps every block's cells and flags true to the sequence |
| ExplicitProducers.HoldsPopped | envs/envpool/concurrentqueue.h:2036-2040 | destroying and flagging the head cell does so for the shortened sequence |
| ExplicitProducers.EmptyIsPassed | envs/envpool/concurrentqueue.h:1570-1582 | all flags set means the head has passed the block, and then nothing is constructed in it |
| ExplicitProducers.HalfIsReached | envs/envpool/concurrentqueue.h:1853-1885 | a valid producer with 2^63 elements is reached from a new one, and its dequeue finds nothing |
| ExplicitProducers.AcceptsWithMemory | envs/envpool/concurrentqueue.h:1868-1899 | while memory lasts no element is refused below the size limit and 2^63 - 32 elements |
| ImplicitIndexes.BlockIndex.Insert | envs/envpool/concurrentqueue.h:2900-2933 | takes the next free entry, growing the index if need be; exactly when it succeeds; earlier entries keep their places in the window |
| ImplicitIndexes.BlockIndex.Grow | envs/envpool/concurrentqueue.h:2966-3006 | doubling rotates the shared entries so that the window is unchanged, entry by entry |
| ImplicitIndexes.BlockIndex.Rotated | envs/envpool/concurrentqueue.h:2983-2991 | the copy loop visits every slot once, from behind the tail slot around to it |
| ImplicitIndexes.BlockIndex.Rewind | envs/envpool/concurrentqueue.h:2935-2939 | the tail slot goes back by one, around the end if need be |
| ImplicitIndexes.BlockIndex.Withdraw | envs/envpool/concurrentqueue.h:2509-2513 | undoing an insertion gives back the former window |
| ImplicitIndexes.BlockIndex.Lookup | envs/envpool/concurrentqueue.h:2941-2964 | returns the entry whose key is the block base of the index, with its block, wherever the tail slot stands and also across wrap-around |
| ImplicitIndexes.WindowRewound | envs/envpool/concurrentqueue.h:2935-2939 | a window whose newest entries are free ends as well that many slots earlier |
| ImplicitIndexes.WindowShortened | envs/envpool/concurrentqueue.h:2600-2608 | freeing the oldest entry leaves a window with consecutive bases |
| ImplicitProducers.ImplicitProducer.Enqueue | envs/envpool/concurrentqueue.h:2486-2548 | appends one element; exactly when it succeeds; a failure leaves elements, tail index, tail block, ring, index window and the offered block as they were; an absent index stays absent |
| ImplicitProducers.ImplicitProducer.TryAddBlock | envs/envpool/concurrentqueue.h:2493-2515 | one block is added with its index entry, or the insertion is undone; an absent index refuses always |
| ImplicitProducers.ImplicitProducer.Dequeue | envs/envpool/concurrentqueue.h:2550-2621 | takes the oldest element; the block it empties, and only that, leaves the index and is released vacant; fails exactly if there is none |
| ImplicitProducers.ImplicitProducer.EnqueueBulk | envs/envpool/concurrentqueue.h:2625-2774 | appends all items or none; it succeeds exactly if every block it needs is allowed, indexable and available; a failure at any block, even after the index grew, restores elements, tail index, tail block and the entries of the window and hands back every block taken; an absent index stays absent |
| ImplicitProducers.ImplicitProducer.Allocate | envs/envpool/concurrentqueue.h:2641-2699 | adds the blocks one by one until done or a first failure, chained in order, and says exactly when all can be added |
| ImplicitProducers.ImplicitProducer.Undo | envs/envpool/concurrentqueue.h:2662-2678 | the failed operation is taken back completely and the chain of blocks is returned whole |
| ImplicitProducers.ImplicitProducer.Unlist | envs/envpool/concurrentqueue.h:2668-2674 | looking entries up while the tail slot is being rewound past them still finds and frees exactly the added ones |
| ImplicitProducers.ImplicitProducer.Fill | envs/envpool/concurrentqueue.h:2708-2772 | constructs every item in its cell, block after block, and ends at the last block |
| ImplicitProducers.ImplicitProducer.BulkFacts | envs/envpool/concurrentqueue.h:2644-2646 | the word arithmetic yields the number of new blocks needed |
| ImplicitProducers.PreviousOfEnd | envs/envpool/concurrentqueue.h:2644-2645 | masking the tail index minus one gives the block before the free end, also for tail index zero |
| ImplicitProducers.CellsPopped | envs/envpool/concurrentqueue.h:2594-2600 | removing the head element keeps the cells of its block true to the sequence; the last cell leaves it vacant |
| ImplicitProducers.ChainList | envs/envpool/concurrentqueue.h:3080-3087 | walking a chain hands over exactly its blocks |
| ImplicitProducers.ImplicitProducer.AcceptsWithMemory | envs/envpool/concurrentqueue.h:2644-2699 | with a block for every 32 elements and as many allocations no bulk is refused below the size limit and 2^63 - 64 elements |
| ImplicitProducers.ImplicitProducer.AcceptsOneWithMemory | envs/envpool/concurrentqueue.h:2493-2515 | nor is a single element |
| ImplicitProducers.AbsentIndexRefusesAll | envs/envpool/concurrentqueue.h:2900-2908 | over any sequence of calls, with any memory, a producer without its first index refuses every element, delivers nothing and uses no block |
| ProducerHashes.ProducerHash.GetOrAdd | envs/envpool/concurrentqueue.h:3388-3533 | a finite map: a live thread gets its own producer again, across promotions and resizes; a new thread gets one no live thread has; it fails exactly if a needed allocation fails, and then the map is as before |
| ProducerHashes.ProducerHash.Lookup | envs/envpool/concurrentqueue.h:3411-3456 | searching the chain finds a live id's producer and nothing for others, and an id found only in an older table is entered into the current one |
| ProducerHashes.ProducerHash.Insert | envs/envpool/concurrentqueue.h:3458-3524 | counting, resizing, creating and claiming a slot, with every failure undone |
| ProducerHashes.ProducerHash.ThreadExited | envs/envpool/concurrentqueue.h:3536-3564 | the id leaves every table and only it; its producer becomes reusable |
| ProducerHashes.ProducerHash.RecycleOrCreate | envs/envpool/concurrentqueue.h:3227-3244 | returns an idle producer of the kind exactly if there is one, otherwise a new one, never one a live thread has; fails exactly if none is idle and none can be created |
| ProducerHashes.ProducerHash.Claim | envs/envpool/concurrentqueue.h:3505-3522 | the probe ends and takes the first slot without an id, keeping every id reachable |
| ProducerHashes.ProducerHash.Find | envs/envpool/concurrentqueue.h:3411-3455 | the probe ends: it finds the id if the table holds it |
| ProducerHashes.ProducerHash.Grow | envs/envpool/concurrentqueue.h:3463-3487 | a larger empty table in front keeps the whole map and has room reserved for all live ids |
| ProducerHashes.ProbeMisses | envs/envpool/concurrentqueue.h:3451-3453 | a free slot on the way proves the id absent, tombstones notwithstanding |
| ProducerHashes.CountedPromoted | envs/envpool/concurrentqueue.h:3424-3448 | a promotion needs no new count: used slots plus missing ids stay within the shared count, which stays below half the table |
| ProducerHashes.CountedAdded | envs/envpool/concurrentqueue.h:3505-3522 | a free slot is counted, a reused tombstone already was |
| ProducerHashes.CountedFresh | envs/envpool/concurrentqueue.h:3463-3487 | no more ids are live than were counted, so a new table has room for all |
| ProducerHashes.RoomMeansEmpty | envs/envpool/concurrentqueue.h:3414 | a table with used slots to spare has a free slot, so probes end |
| Semaphores.PermitsConserved | envs/envpool/lightweightsemaphore.h:278-348 | every interleaving with timeouts: waiters that decremented = tokens posted + tokens owed + max(0, -count), and permits acquired never exceed initial plus signalled |
| Semaphores.WaiterHasToken | envs/envpool/lightweightsemaphore.h:304-311 | a waiter that sees a non-negative count has a token posted or owed |
| Semaphores.TimeoutReturnsSlot | envs/envpool/lightweightsemaphore.h:299-311 | a timed-out wait returns its slot exactly |
| Semaphores.ResultsInRange | envs/envpool/lightweightsemaphore.h:378-407 | a call returns at most max permits; an untimed one at least one, unless its wait on the OS semaphore comes back without a token |
| Semaphores.LoneWait | envs/envpool/lightweightsemaphore.h:378-407 | a call with nobody else at work takes min(max, count) permits if there are any or it does not wait, and otherwise falls asleep with the count at -1 |
| Semaphores.LoneWaiter | envs/envpool/lightweightsemaphore.h:318-347 | a waiter for which a token is posted takes it, and then up to max - 1 more from the count; only one that gave up the OS wait and sees a negative count gives its place back |
| Semaphores.LoneSpinner | envs/envpool/lightweightsemaphore.h:318-347 | a call in the middle of its spinning takes min(max, count) of the permits there, also after a failed CAS |
| Semaphores.LoneSignal | envs/envpool/lightweightsemaphore.h:409-418 | a signal raises the count by n and posts min(n, sleepers) tokens |
| Semaphores.SignalWakes | envs/envpool/lightweightsemaphore.h:318-418 | a call that sleeps on an empty semaphore ends with min(max, n) permits after a signal of n |
| Semaphores.InterruptedReturnsNothing | envs/envpool/lightweightsemaphore.h:333-342 | and then it may return none: a run that shows it |
| Semaphores.SignalAccounted | envs/envpool/lightweightsemaphore.h:409-418 | a signal posts exactly the tokens its increment owes to sleepers |
| Semaphores.SignalWakesAtMostAllThreads | envs/envpool/lightweightsemaphore.h:413-416 | never more than there are threads, so the narrowing cast loses nothing |
| Semaphores.AccessMovesPermits | envs/envpool/lightweightsemaphore.h:278-418 | every access moves permits between the count and one call's hands, none appears or vanishes |
| BlockingQueues.ItemsMatchPermits | envs/envpool/blockingconcurrentqueue.h:123-130 | every interleaving: stored items + permits in hand not yet redeemed match available permits + items not yet signalled |
| BlockingQueues.RetryLoopHasItems | envs/envpool/blockingconcurrentqueue.h:359-367 | a consumer in its retry loop always has an item to find for each permit it holds |
| BlockingQueues.ItemsGoToCallers | envs/envpool/blockingconcurrentqueue.h:359-367 | every interleaving: what was enqueued is what is stored together with what callers have received or found so far; nothing is lost or handed out twice |
| BlockingQueues.LoneEnqueue | envs/envpool/blockingconcurrentqueue.h:123-130 | an enqueue on its own stores its items and raises the count by their number |
| BlockingQueues.LoneDequeue | envs/envpool/blockingconcurrentqueue.h:359-367 | a dequeue on its own from a queue with items hands its caller min(max, stored) of them |
| BlockingQueues.QuiescentCountIsSize | envs/envpool/blockingconcurrentqueue.h:327-335 | with nobody inside a call, the count is the number of items |
| BlockingQueues.InvStep | envs/envpool/blockingconcurrentqueue.h:327-335 | every step of the wrapper, the semaphore and the inner queue keeps the match |
| WorkQueues.BlockedWorkerHasWakeup | GzDRL/include/async_rl_server.hh:43-84 | no lost wakeup: a blocked worker with work queued or the queue closed has a notification or an awake worker coming |
| WorkQueues.AcceptsSubmissions | GzDRL/include/async_rl_server.hh:43-52 | any run: an open queue accepts every push of a caller out of any call, in order, and is closed exactly from the first close on; read off the actions, the callers and the closed flag alone |
| WorkQueues.CallerReturns | GzDRL/include/async_rl_server.hh:49-52 | a caller can always complete its notification, and one that has pushed wakes a blocked worker if there is one |
| WorkQueues.LoneTask | GzDRL/include/async_rl_server.hh:43-84 | a task submitted while all wait is taken, run and finished, and the worker waits again |
| WorkQueues.JoinDrains | envs/envpool/ThreadPool.h:52-114 | when the join completes every task submitted while the queue was open was taken in order and run exactly once, if and only if there is a worker or there was no task |
| WorkQueues.ClosedAcceptsNothing | GzDRL/include/async_rl_server.hh:43-52 | after closing, nothing more is accepted in any continuation |
| WorkQueues.DrainAdvances | GzDRL/include/async_rl_server.hh:61-84 | after closing, every worker not gone can move and each move brings the end nearer |
| WorkQueues.DrainedWhenIdle | GzDRL/include/async_rl_server.hh:240-250 | no work left means everybody has left and the queue is empty |
| WorkQueues.WorkStep | GzDRL/include/async_rl_server.hh:61-84 | in a closed queue each move of a worker lowers the remaining work by exactly one and nothing else changes it |
| WorkQueues.DrainEnds | GzDRL/include/async_rl_server.hh:240-250 | in every continuation workers move at most as often as there is work, and the join completes exactly when they have moved that often |
| ServerPools.AcceptedIsSubmitted | GzDRL/include/async_rl_server.hh:196-208 | an environment's queue accepts exactly what is submitted to it while it is open, whatever the others do |
| ServerPools.ServerFollowsSubmissions | GzDRL/include/async_rl_server.hh:196-208 | every interleaving: an environment's server state and futures are the fold of a prefix of its own submissions, of all of them once settled; submissions are read off the actions |
| ServerPools.CloseFulfills | GzDRL/include/async_rl_server.hh:240-250 | once the workers have left, every command submitted before the closing was applied in order and every future has its outcome |
| ServerPools.ScheduleIndependent | GzDRL/include/async_rl_server.hh:266-279 | two schedules with the same submissions to an environment give it the same state and results, whatever the others do and whatever throws |
| ServerPools.SharedServerDependsOnSchedule | GzDRL/include/async_rl_server.hh:109-119 | for every pool that shares a server, two schedules of the same submissions with different outcomes |
| ResetMachine.ModelNameSplitter | GzDRL/src/rl_server.cc:1153-1171 | the loop ends and cuts the name at every "::" |
| ResetMachine.SplitThenJoin | GzDRL/src/rl_server.cc:1153-1171 | the parts joined by "::" are the name again, for every text |
| ResetMachine.PartsArePlain | GzDRL/src/rl_server.cc:1153-1171 | and no part contains "::" |
| ResetMachine.BaseAndLeaf | GzDRL/src/rl_server.cc:1153-1171 | the first part of a scoped name stands before its first "::", the last part behind its last; a plain name is both |
| ResetMachine.DRLHelperSystem.PreUpdate | GzDRL/src/rl_server.cc:253-375 | a paused step does nothing, an unpaused one serves the first non-empty queue in priority order; it throws exactly if it re-indexes and the top-level model of a tracked name is missing |
| ResetMachine.DRLServer.ResetPos | GzDRL/src/rl_server.cc:1289-1301 | request and up to three steps; all queues are empty afterwards, interrupted or not, exactly if no respawn was waiting |
| ResetMachine.DRLServer.RespawnModel | GzDRL/src/rl_server.cc:1308-1320 | request and up to three steps; all queues are empty afterwards, interrupted or not, exactly if no reset was waiting |
| ResetMachine.DRLServer.RunN | GzDRL/src/rl_server.cc:1277-1282 | refuses a count that is not positive; otherwise makes that many steps or stops at the first whose re-indexing throws |
| ResetMachine.RunIsTicks | GzDRL/src/rl_server.cc:1277-1282 | an uninterrupted run makes all its steps, an interrupted one has emptied all queues |
| ResetMachine.PhasesInOrder | GzDRL/src/rl_server.cc:253-375 | any run: each request passes its two phases at most once, in the order issued, in strictly different steps, and is never dropped |
| ResetMachine.AllServedWhenQuiet | GzDRL/src/rl_server.cc:253-375 | once the queues are empty every request has been through both phases |
| ResetMachine.RespawnWaitsForResets | GzDRL/src/rl_server.cc:258-311 | any run: no entity is removed or created in a step that found a reset in either of its queues |
| ResetMachine.QuietBetweenCalls | GzDRL/src/rl_server.cc:1277-1320 | any sequence of public calls leaves all four queues empty between calls |
| ResetMachine.DrainExactly | GzDRL/src/rl_server.cc:253-375 | without new requests the queues are empty after exactly the computed number of steps, at most four |
| ResetMachine.ReindexNeverFails | GzDRL/src/rl_server.cc:1173-1184 | re-indexing never throws in a run whose respawns are of tracked names or of names no tracked one lies in |
| ResetMachine.ReindexingSafe | GzDRL/src/rl_server.cc:1173-1184 | it never throws in any run at all if and only if the top-level model of every tracked name is tracked |
| ResetMachine.ResetMisses | GzDRL/src/rl_server.cc:264-284 | as long as no untracked outer model is respawned: a reset of a scoped name is always missed, one of a top-level model only between the phases of a respawn of it |
| ResetMachine.ResetFindsExactly | GzDRL/src/rl_server.cc:264-284 | in the same runs, with respawns of the model not overlapping, a reset finds it if and only if its name is not scoped and no respawn of it is between its phases |
| ResetMachine.PublicResetFinds | GzDRL/src/rl_server.cc:1289-1301 | after any sequence of public calls, none of which respawns an untracked outer model, a reset of a tracked model finds it if and only if its name is not scoped |
| ResetMachine.RespawnCopies | GzDRL/src/rl_server.cc:313-373 | how many entities carry the name of a top-level model afterwards; one exactly if at most one respawn was in the batch |
| ResetMachine.RespawnRestores | GzDRL/src/rl_server.cc:313-373 | a single respawn removes a top-level model with everything inside and leaves the same entities in the world |
| ResetMachine.NestedRespawnAdds | GzDRL/src/rl_server.cc:313-373 | a respawn of a nested model removes nothing and adds the inner model once per request |
| CommentMasker.MaskCppComments | docs/_ext/gzdrl_docs.py:170-221 | the loop ends on every text and computes the mask |
| CommentScanners.MaskHidesComments | docs/_ext/gzdrl_docs.py:170-221 | for every text: a character becomes a space exactly if it is no line break and a scanner that reads one character at a time finds it inside a comment |
| CommentScanners.TokenAgrees | docs/_ext/gzdrl_docs.py:182-219 | from the start of any token the scanner is in a comment on all of its characters or on none, and outside at its end |
| CommentScanners.RawFound | docs/_ext/gzdrl_docs.py:195-205 | a raw literal is recognised exactly where one with a legal delimiter and a terminator starts, and ends behind its first terminator |
| CommentMasker.TokensTile | docs/_ext/gzdrl_docs.py:180-219 | the tokens tile the text |
| CommentMasker.TokensMaskedOrKept | docs/_ext/gzdrl_docs.py:182-219 | comments are blanked, string and raw string literals and all else are kept |
| CommentMasker.MaskBlanks | docs/_ext/gzdrl_docs.py:175-178 | length and every line break are kept, a changed character became a space |
| CommentMasker.LineNumbersKept | docs/_ext/gzdrl_docs.py:166-167 | line numbers of offsets in the masked text are right for the original |
| CommentMasker.LineNumberCounts | docs/_ext/gzdrl_docs.py:166-167 | a line number is one more than the line breaks before the offset |
| CommentMasker.MaskIdempotent | docs/_ext/gzdrl_docs.py:170-221 | masking twice is masking once |
| CommentMasker.RawKept | docs/_ext/gzdrl_docs.py:195-205 | a raw literal is recognised again in the masked text |
| CommentMasker.NotRawKept | docs/_ext/gzdrl_docs.py:195-205 | masking creates no raw literal |
| RingBuffers.RingBuffer.PushOverwrite | envs/common_utils.hh:154-165 | appends, dropping the oldest element when full |
| RingBuffers.RingBuffer.Push | envs/common_utils.hh:178-190 | appends unless full, and says which |
| RingBuffers.RingBuffer.Pop | envs/common_utils.hh:197-210 | removes and returns the oldest element, if any |
| RingBuffers.RingBuffer.PeekLatest | envs/common_utils.hh:259-283 | the last min(n, size) elements, oldest first |
| RingBuffers.RingBuffer.PeekLatestReverse | envs/common_utils.hh:296-316 | exactly the reversal of that |
| RingBuffers.Create | envs/common_utils.hh:131-138 | construction is refused exactly for capacity zero |
| RingBuffers.RunIsFifo | envs/common_utils.hh:154-210 | any sequence of operations: what was let in leaves in that order, popped or overwritten, and the rest is stored |
| RingBuffers.OverwritesKeepLatest | envs/common_utils.hh:154-165 | overwriting pushes leave the newest values, as many as fit |
| RingBuffers.ReversedAt | envs/common_utils.hh:296-316 | element k of the reversal is element k from the end |
| RateLimiters.FirstOrderFilter.UpdateFilter | GzDRL/include/rl_server.hh:698-715 | each component moves by the step of its own time constant |
| RateLimiters.ComponentFollowsItsConstant | GzDRL/include/rl_server.hh:709-723 | a rising component keeps the exponential of the time over the rising constant of its error, any other that over the falling constant; constants below 1e-9 count as 1e-9 |
| RateLimiters.OtherConstantIrrelevant | GzDRL/include/rl_server.hh:712-715 | the other constant has no influence |
| RateLimiters.OneTimeConstant | GzDRL/include/rl_server.hh:717-720 | after one time constant the error is 1/e of what it was, rising and falling |
| RateLimiters.StaysInRange | GzDRL/include/rl_server.hh:689-715 | any run of commands and resets keeps each component within every interval that holds its initial value and its inputs |
| RateLimiters.ConstantCommandDecays | GzDRL/include/rl_server.hh:698-715 | under a constant command the error keeps its sign, the same time constant is picked each step and the error shrinks exactly geometrically |
| RateLimiters.SamplingRateIrrelevant | GzDRL/include/rl_server.hh:706-711 | k steps of dt reach the state of one step of k * dt |
| RateLimiters.NegativeTimeOvershoots | GzDRL/include/rl_server.hh:706-711 | a component leaves the interval between state and input exactly if the sampling time is negative and it is off its input; the callers at GzDRL/src/rl_server.cc:1346-1426 all pass the physics step size |

## Left out

- Weak memory orders and fences: all models are sequentially consistent.
- Counter overflow in the concurrent models: the counters of `Tickets` and `SharedRings` are unbounded, and `MachineGuards` and `LookupOnWords` relate what they decide to the stored words below 2^63.
- Tickets.MachineGuards: covers counters less than 2^63 apart, which the size checks of the producers keep, but for an explicit producer's sub-queue of exactly 2^63 elements.
- ImplicitProducers.ImplicitProducer.EnqueueBulk: takes fewer than 2^63 items, more than fit into memory; requisition_block is the sequence `supply` of the blocks it would hand out, malloc is the number of index allocations that succeed.
- Block and index allocation in the explicit producer: the outcomes of requisition_block and malloc are parameters.
- `x & (size - 1)` on powers of two is written `x % size`; that the sizes stay powers of two is part of the invariants.
- Throwing element constructors and assignments, and the guards for them.
- The bulk enqueue of the explicit producer and the bulk dequeue of the implicit one, whose counters follow the same ticket protocol and whose data path adds nothing to what is modelled.
- Destructors of producers, moving and swapping queues, memory statistics, debug code.
- Concurrent use of the thread-id table: it is modelled for one call at a time; the resize flag and the retry for a slower resizer are then never needed.
- Old block index headers in the imperative model of the explicit producer, which keeps only the newest; `SharedRings` has them all.
- SharedRings.LookupOnWords: covers blocks less than 2^63 indices apart; a consumer that stalls while 2^63 further elements pass is outside.
- Concurrent consumers of an implicit producer: its data path is modelled for one call at a time.
- A bulk dequeue with max 0 in `SharedRings`: it moves nothing, and its lookup of a block it does not use is not modelled.
- Choosing among producers and consumer tokens: the blocking queue's inner queue is a bag, each of whose operations is one step and which may fail spuriously to find an item.
- Overflow of the semaphore's signed count, which is unbounded here.
- Progress under contention: safety holds over every interleaving, and calls are shown to complete when no other thread moves in between, for the free list, the tickets and the readers from every reachable state; that some call always completes while all threads move is not stated.
- The OS semaphore, clocks and timeouts: a token counter and a free choice of when a wait comes back without a token, timed or not; errno is not modelled.
- CPU affinity, GIL handling, bindings, NumPy conversion, futures' own synchronisation.
- Poses, velocity commands, markers and sensors: the reset machine keeps only which named entities exist. A removal takes effect at the end of its step, a creation at once.
- Resetting a name that exists in the world but has no SDF object: the model only records that the entity was found.
- Which of several entities of one name EntityByName returns: the reset machine counts entities by name, a removal takes one with all its parts, and `WellNamed` asks that a nested model does not share its name with a tracked top-level one.
- A removal, by its plain name, of a nested model apart from its outer model: only the parts of the named model itself are then counted.
- How the constructor collects nested names: the set of tracked names is given. For a third level the code puts only the inner two names together ("b::c" for a::b::c); `WellNamed` excludes such a name, as its first part is a nested model.
- Rounding: the rate limiter computes over exact reals, with the exponential function as a parameter.
- Line-ending conversions and the rest of the documentation generator.
- Quaternions, rewards, formations, trajectories, image conversion, environment adapters and scripts.
