# Verified models of the concurrent and streaming parts of the repository

Dafny models of the places in the repository that hold real algorithms, with proofs of what
they promise. `dafny verify dfyconfig.toml` checks the whole project.

* **The RCU hash map** (`Rcu*.dfy`). One bucket is a state machine whose actions are single
  accesses to shared memory: a link store, a link load, a lock operation, an allocation, a
  `call_rcu`, the end of a grace period. Any number of writers and readers interleave. The
  invariant carries a history of chains; the key facts are that an unlinked entry keeps its
  link and that no key ever moves in front of a surviving entry. Runs of the whole table
  refine one atomic map, lookups are linearizable and wait-free, no freed entry is touched,
  and entries are conserved up to the final flush. Calls return: whoever is inside one can
  always make its next step, waiting for nothing but the lock, and has boundedly many to make
  (`RcuProgress.dfy`).
* **The locked hash map** (`Locked*.dfy`), the second implementation of the same map, as
  classes over a doubly linked list and a slab cache.
* **Producers, consumers and queues** (`FifoProgram.dfy`, `BoundedQueue.dfy`,
  `SharedRing.dfy`, `SemaphoreQueue.dfy`, `CondvarQueue.dfy`). The programs with stop objects
  and with a shared counter are proved over an atomic FIFO queue; the semaphore ring buffer,
  the mutex-and-semaphore queue and the condition-variable queue each refine it. The results
  are for any number of producers and consumers, any item count and any capacity; everything is
  delivered if and only if there are as many consumers as producers.
* **The ring-buffer servers** (`RingBuffer.dfy`, `RingIo.dfy`, `EchoRuns.dfy`,
  `EchoServer.dfy`, `ResponseRuns.dfy`, `ResponseServer.dfy`): iovecs over counters that wrap,
  driven against a kernel that may transfer any number of bytes or fail at every call; what it
  does is a list of moves, and each connection's whole life is a function of moves and events.
  `EchoProgress.dfy` and `ResponseProgress.dfy` say exactly which calls end a connection and
  that every event gets on with its work.
* **Level and edge triggering** (`TcpEndpoint.dfy`, `TriggerRuns.dfy`, `TriggerServers.dfy`): a
  connection's whole life as a function of the kernel's moves, and the two servers as written,
  proved to live it.
* **The Internet checksum** (`Checksum.dfy`), 128 bits at a time against the definition of
  sections 1 and 2 of RFC 1071.
* **The latency ring and its tail** (`LatencyRuns.dfy`, `LatencyTotals.dfy`,
  `Latency.dfy`, `Tail.dfy`).

Four things the proofs show about the code that a reader may not expect:

* `ip_fast_csum` adds 32-bit words to a 64-bit sum without an end-around carry
  (`module/my_l4_protocol/example/client_v4.cpp:58`). The result is right exactly when that sum
  stays below 2^64. Of the packets this program builds, those from 251.45.255.255 to a large
  enough address are handed to `sendto` with a wrong checksum, and no others
  (`Checksum.PacketsSealed`). As the socket has `IP_HDRINCL` set, a kernel that fills in the
  checksum itself repairs them on the way out.
* In `pe_map_flush` of the RCU map the saved heads are copies, so the first entry of a chain
  still points back at the bucket's own head and `hlist_del_rcu` writes there
  (`module/proc_entry_hashmap2/kmod/proc_entry_hashmap2.c:268` and `:287`). With nobody inside the
  map the head ends up empty all the same (`RcuFlush.FreeChain`).
* The level-triggered server ignores what `send_buf` returns in the constructor
  (`network/tcp_echo/server_epollout.cpp:47`). If the whole response went out then, only the peer
  can end the connection; the edge-triggered server, which has an edge queued from its
  registration, closes it (`TriggerRuns.LevelCloses`, `TriggerRuns.EdgeCloses` and, for the two
  side by side, `TriggerRuns.SentAtOnce`).
* The echo server asks the kernel again when a piece of the ring was filled. If the peer has
  closed its end right behind those bytes, the connection is closed with them unsent
  (`EchoProgress.LastBytesUnsent`; `EchoProgress.HandlerFails` has the exact condition).

Concurrent parts are state machines: `Enabled` says when an action is possible, `Next` what it
does, a run is any sequence of enabled actions, and a main theorem speaks of every run. Parts in
which one thread updates its own objects are classes whose methods are proved against the streams,
maps and sums they stand for.

## Model

| member | source | states |
|---|---|---|
| `PeMapSpec.IndexInRange` | module/proc_entry_hashmap2/kmod/proc_entry_hashmap2.c:126-143 | The masked hash always names one of the mask + 1 buckets. |
| `RcuInductive.NextInv` | module/proc_entry_hashmap2/kmod/proc_entry_hashmap2.c:138-253 | Every atomic step of insert, remove, get and the grace period, by any number of writers and readers, keeps the bucket invariant: links spell out the chain, keys differ, an unlinked entry keeps its link, private and retired entries have exactly one owner, nothing an active reader may reach is freed. |
| `RcuInductive.Follow` | module/proc_entry_hashmap2/kmod/proc_entry_hashmap2.c:240-248 | Hindsight: the link of any entry a reader stands on, linked or already unlinked, is the link it had at the last instant it was in the chain. |
| `RcuTheorems.ReaderSafe` | module/proc_entry_hashmap2/kmod/proc_entry_hashmap2.c:237-250 | The entry under an active reader's cursor is not private and not freed, and if it is queued its callback waits for that reader, so the next load is defined. |
| `RcuTheorems.NoUseAfterFree` | module/proc_entry_hashmap2/kmod/proc_entry_hashmap2.c:118-123 | When the callback of an entry may run, no reader stands on the entry. |
| `RcuTheorems.WriterSafe` | module/proc_entry_hashmap2/kmod/proc_entry_hashmap2.c:158-178 | A walking writer holds the lock, and the entry it looks at is in the chain. |
| `RcuTheorems.NumIsSize` | module/proc_entry_hashmap2/kmod/proc_entry_hashmap2.c:175-177 | The bucket's `num` is the number of keys in it, in every reachable state. |
| `RcuTheorems.AddHeadRefines` | module/proc_entry_hashmap2/kmod/proc_entry_hashmap2.c:173-177 | Adding at the head happens only for an absent key and adds exactly that key and value to the abstract map. |
| `RcuTheorems.ReplaceRefines` | module/proc_entry_hashmap2/kmod/proc_entry_hashmap2.c:160-171 | Replacing happens only for a present key and changes exactly its value. |
| `RcuTheorems.DeleteRefines` | module/proc_entry_hashmap2/kmod/proc_entry_hashmap2.c:203-215 | Deleting happens only for a present key and removes exactly that key. |
| `RcuTheorems.MissRefines` | module/proc_entry_hashmap2/kmod/proc_entry_hashmap2.c:200-224 | A remove that reaches the end of the chain finds its key absent from the map at that moment. |
| `RcuTheorems.StepRefines` | module/proc_entry_hashmap2/kmod/proc_entry_hashmap2.c:138-253 | Each step is one operation of the abstract map or leaves it alone. |
| `RcuTheorems.HoldsIsLookup` | module/proc_entry_hashmap2/kmod/proc_entry_hashmap2.c:237-252 | What a chain says about a key is what looking the key up in the abstract map says. |
| `RcuWaitFree.AheadFalls` | module/proc_entry_hashmap2/kmod/proc_entry_hashmap2.c:240-248 | No step of any writer or of another reader lengthens the way in front of a reader, even one on unlinked entries; its own load shortens it by one. |
| `RcuWaitFree.AheadBegins` | module/proc_entry_hashmap2/kmod/proc_entry_hashmap2.c:240-248 | At its first load a reader has at most as many links ahead as the bucket has entries. |
| `RcuMap.RunOk` | module/proc_entry_hashmap2/kmod/proc_entry_hashmap2.c:138-253 | In every state of every run of the table, each bucket satisfies its invariant and holds only keys that hash to it. |
| `RcuMap.EntryInItsBucket` | module/proc_entry_hashmap2/kmod/proc_entry_hashmap2.c:142-143 | A key found in a bucket is a key whose hash selects that bucket, and the table gives it that value. |
| `RcuMap.TableRefines` | module/proc_entry_hashmap2/kmod/proc_entry_hashmap2.c:138-225 | A step of the table writes the one key its operation names, for every key seen, or nothing. |
| `RcuMap.LookupLinearizable` | module/proc_entry_hashmap2/kmod/proc_entry_hashmap2.c:227-253 | For every run and every lookup that has ended there is an instant inside its read section at which the abstract map gave exactly the returned value, or lacked the key if the lookup returned -1. |
| `RcuMap.NeverMissed` | module/proc_entry_hashmap2/kmod/proc_entry_hashmap2.c:227-253 | A key present throughout a lookup is found, however often its value is replaced meanwhile. |
| `RcuMap.FoundUnchanged` | module/proc_entry_hashmap2/kmod/proc_entry_hashmap2.c:227-253 | A key that keeps one value throughout a lookup is found with that value. |
| `RcuMap.LookupWaitFree` | module/proc_entry_hashmap2/kmod/proc_entry_hashmap2.c:240-248 | In every run a lookup loads at most as many links as the bucket had entries when it loaded the head, whatever writers do and for however long; that it can always make its next step, and so returns, is RcuProgress.ReaderNeverStuck and LookupReturns. |
| `RcuCalls.CallLinearizable` | module/proc_entry_hashmap2/kmod/proc_entry_hashmap2.c:138-225 | Every returned insert or remove took effect at one instant of its call and wrote nothing at any other: 0 exactly for writing its value or dropping a present key, -1 for no memory (nothing changed) or for an absent key. |
| `RcuCalls.EntriesConserved` | module/proc_entry_hashmap2/kmod/proc_entry_hashmap2.c:149-183 | Every entry ever allocated is in the chain, or owned by exactly one writer, or waiting for a grace period, or freed; with nobody inside the map none is still owned. |
| `RcuCalls.StagesAdvance` | module/proc_entry_hashmap2/kmod/proc_entry_hashmap2.c:118-221 | An entry only moves forward from private to live, retired, queued and freed, so it is retired once, given to call_rcu once and freed once. |
| `RcuProgress.ReaderNeverStuck` | module/proc_entry_hashmap2/kmod/proc_entry_hashmap2.c:235-252 | In every reachable state a lookup that has not returned has exactly one step to make, and can make it; one that has returned has none. |
| `RcuProgress.LookupReturns` | module/proc_entry_hashmap2/kmod/proc_entry_hashmap2.c:235-252 | After its load of the list head a lookup makes at most one step more than the bucket had entries then, and has returned when it has made them. |
| `RcuProgress.CalledLookupReturns` | module/proc_entry_hashmap2/kmod/proc_entry_hashmap2.c:227-253 | The same counted from the call: at most two steps more than there were entries at the load of the head, then the lookup has returned. |
| `RcuProgress.WriterNeverStuck` | module/proc_entry_hashmap2/kmod/proc_entry_hashmap2.c:138-225 | A call of insert or remove waits for nothing but the lock: otherwise, until it has returned, it can make a step. |
| `RcuProgress.LockHolderWorks` | module/proc_entry_hashmap2/kmod/proc_entry_hashmap2.c:155-180 | Whoever has the bucket's lock is in its critical section and can make a step. |
| `RcuProgress.SomebodyWorks` | module/proc_entry_hashmap2/kmod/proc_entry_hashmap2.c:138-253 | While anybody is inside a call, somebody can make a step of a call: there is no deadlock. |
| `RcuProgress.CallReturns` | module/proc_entry_hashmap2/kmod/proc_entry_hashmap2.c:155-189 | From the lock on a call makes at most three steps more than the bucket had entries then, and has returned when it has made them. |
| `RcuProgress.AnyoneMayCall` | module/proc_entry_hashmap2/kmod/proc_entry_hashmap2.c:138-253 | At every instant of every run a lookup, an insert and a remove of any key can begin in the key's bucket. |
| `RcuProgress.GraceEnds` | module/proc_entry_hashmap2/kmod/proc_entry_hashmap2.c:118-123 | An entry given to call_rcu can be freed as soon as the readers active at that moment have returned, whatever readers came later. |
| `RcuFlush.DetachAll` | module/proc_entry_hashmap2/kmod/proc_entry_hashmap2.c:262-278 | The first loop of flush saves every head and empties every bucket; the barriers run every queued callback. |
| `RcuFlush.FreeChain` | module/proc_entry_hashmap2/kmod/proc_entry_hashmap2.c:280-292 | Freeing a saved chain frees exactly its entries and counts them, and leaves the bucket head, which the first entry's back pointer still names, empty; each free goes through FreeEntry, which demands an entry that is still live, and leaves one allocated entry less. |
| `RcuFlush.FreeAll` | module/proc_entry_hashmap2/kmod/proc_entry_hashmap2.c:280-292 | The second loop of flush leaves no entry of any bucket unfreed; the count is the sum of the `num` fields. |
| `RcuFlush.Flush` | module/proc_entry_hashmap2/kmod/proc_entry_hashmap2.c:255-296 | From any reachable quiescent table, flush leaves every bucket empty and every entry ever allocated freed, and counts the entries that were in the map. |
| `LockedBucket.Bucket.Find` | module/proc_entry_hashmap1/kmod/proc_entry_hashmap1.c:149-158 | The traversal stops at the first entry with the key, or at the end if no entry has it. |
| `LockedBucket.Bucket.LinkOut` | module/proc_entry_hashmap1/kmod/proc_entry_hashmap1.c:188-199 | Unlinking the i-th entry leaves forward and backward links spelling out the chain without it, and the entry's own link in place. |
| `LockedBucket.Bucket.AddHead` | module/proc_entry_hashmap1/kmod/proc_entry_hashmap1.c:160-164 | The new entry becomes the first of a well-linked chain and is counted. |
| `LockedBucket.Bucket.SetValue` | module/proc_entry_hashmap1/kmod/proc_entry_hashmap1.c:151-156 | Changing a value in place is the abstract map's update of that key. |
| `LockedBucket.Bucket.Insert` | module/proc_entry_hashmap1/kmod/proc_entry_hashmap1.c:130-173 | With memory, exactly the abstract update, allocating an entry only for a new key; without, -1 and nothing changed. |
| `LockedBucket.Bucket.Remove` | module/proc_entry_hashmap1/kmod/proc_entry_hashmap1.c:175-204 | 0 exactly for a present key, which is dropped; exactly the unlinked entry is freed. |
| `LockedBucket.Bucket.Get` | module/proc_entry_hashmap1/kmod/proc_entry_hashmap1.c:206-232 | 0 with the key's value exactly if the key is present. |
| `LockedBucket.Bucket.Flush` | module/proc_entry_hashmap1/kmod/proc_entry_hashmap1.c:248-255 | Every entry of the chain is unlinked and freed once and no other; the count is the number freed. |
| `LockedBucket.Bucket.NumIsSize` | module/proc_entry_hashmap1/kmod/proc_entry_hashmap1.c:160-164 | The bucket's `num` is the number of keys in it. |
| `PeMapSpec.MapDelete` | module/proc_entry_hashmap1/kmod/proc_entry_hashmap1.c:188-199 | Taking one pair out of a list without repeated keys takes exactly its key out of the map. |
| `PeMapSpec.MapSet` | module/proc_entry_hashmap1/kmod/proc_entry_hashmap1.c:151-156 | Changing one pair's value changes exactly its key in the map. |
| `LockedMap.Table.Insert` | module/proc_entry_hashmap1/kmod/proc_entry_hashmap1.c:130-173 | For every key: the inserted value for the inserted key if memory was had, the old value otherwise; an entry is allocated exactly for a new key, and each is in the bucket of its key. |
| `LockedMap.Table.Remove` | module/proc_entry_hashmap1/kmod/proc_entry_hashmap1.c:175-204 | For every key: absent if it is the removed key, the old value otherwise; 0 exactly if it was present, and then one entry is freed; none leaks. |
| `LockedMap.Table.Get` | module/proc_entry_hashmap1/kmod/proc_entry_hashmap1.c:206-232 | The returned value is the abstract map's, and -1 means absent. |
| `LockedMap.Table.Flush` | module/proc_entry_hashmap1/kmod/proc_entry_hashmap1.c:234-261 | All entries of all buckets are freed, so the cache is empty when it is destroyed; the count is the number of entries there were. |
| `FifoProgram.PutInv` | process/process_communication/bounded_blocking_queue_semaphore_mmap_unnamed1/main.cpp:28-46 | A put keeps the invariant of the stop-object and of the counter-based program. |
| `FifoProgram.TakeInv` | process/process_communication/bounded_blocking_queue_semaphore_mmap_unnamed1/main.cpp:48-61 | A take keeps that invariant: consumers' takings are exactly the items taken, each consumer stops on its first stop object, the last item of all is a stop object. |
| `FifoProgram.ConsumersNeedProducers` | process/process_communication/bounded_blocking_queue_semaphore_mmap_unnamed1/main.cpp:28-61 | In every state no more consumers have ended than producers, so all consumers can end only if they are not more. |
| `FifoProgram.CompleteIsBalanced` | process/process_communication/bounded_blocking_queue_semaphore_mmap_unnamed1/main.cpp:28-61 | Everybody has ended and the queue is empty only with as many consumers as producers. |
| `FifoProgram.ConsumersLast` | process/process_communication/bounded_blocking_queue_semaphore_mmap_unnamed1/main.cpp:28-61 | When all consumers have ended, and they are not fewer than the producers, all producers have too and the queue is empty. |
| `FifoProgram.ConsumersFollow` | process/process_communication/bounded_blocking_queue_semaphore_mmap_unnamed1/main.cpp:28-61 | When all producers have ended and the queue is empty, no consumer is left waiting, unless there are more consumers than producers. |
| `BoundedQueue.PutsInOrder` | process/process_communication/bounded_blocking_queue_semaphore_mmap_unnamed1/main.cpp:32-42 | In every state of every run each producer's nodes have been put in the order of their ids, without gaps. |
| `FifoProgram.PutsBounded` | process/process_communication/bounded_blocking_queue_semaphore_mmap_unnamed0/main.cpp:47-54 | Puts never exceed n * (items + 1), or total + n with the counter, at any moment. |
| `FifoProgram.StopObjectDelivery` | process/process_communication/bounded_blocking_queue_semaphore_mmap_unnamed1/main.cpp:28-61 | At the end every node of every producer was taken exactly once and nothing else, and every consumer took exactly one stop object, its last. |
| `FifoProgram.CountedDelivery` | process/process_communication/bounded_blocking_queue_semaphore_mmap_unnamed0/main.cpp:33-90 | At the end exactly the ids 0 to total + n - 1 were put and taken, once each. |
| `BoundedQueue.NextInv` | process/process_communication/bounded_blocking_queue_semaphore_mmap_unnamed1/bounded_blocking_queue.cpp:25-57 | Every step of every process between two semaphore operations keeps the invariant: tokens are conserved, the mutex has one holder, the slots from f to p hold exactly the items not yet taken. |
| `BoundedQueue.RoomToPut` | process/process_communication/bounded_blocking_queue_semaphore_mmap_unnamed1/bounded_blocking_queue.cpp:28-33 | Inside its critical section a put finds a free slot: no unread item is overwritten. |
| `BoundedQueue.ItemToTake` | process/process_communication/bounded_blocking_queue_semaphore_mmap_unnamed1/bounded_blocking_queue.cpp:45-50 | Inside its critical section a take finds an item. |
| `BoundedQueue.SlotsDiffer` | process/process_communication/bounded_blocking_queue_semaphore_mmap_unnamed1/bounded_blocking_queue.cpp:32 | Positions less than one lap apart use different slots. |
| `BoundedQueue.Occupancy` | process/process_communication/bounded_blocking_queue_semaphore_mmap_unnamed1/bounded_blocking_queue.cpp:25-57 | 0 <= p - f <= queue_size in every reachable state. |
| `BoundedQueue.Refines` | process/process_communication/bounded_blocking_queue_semaphore_mmap_unnamed1/bounded_blocking_queue.cpp:25-57 | For any numbers of producers and consumers, every step is one put or one take of an atomic FIFO queue (the k-th take gets the k-th put) or invisible to it. |
| `BoundedQueue.NoDeadlock` | process/process_communication/bounded_blocking_queue_semaphore_mmap_unnamed1/main.cpp:28-61 | With as many consumers as producers, in every reachable state in which some process has not finished, some process can make a step. |
| `BoundedQueue.ProducerHeldUp` | process/process_communication/bounded_blocking_queue_semaphore_mmap_unnamed1/bounded_blocking_queue.cpp:25-40 | A producer with something to do is held up exactly while every slot is filled, claimed by a put or not given back by a take, or while it needs the mutex and another process is in the critical section. |
| `BoundedQueue.ConsumerHeldUp` | process/process_communication/bounded_blocking_queue_semaphore_mmap_unnamed1/bounded_blocking_queue.cpp:42-57 | A consumer with something to do is held up exactly while every item is claimed by a take or its put is unfinished, or while it needs the mutex and another process is in the critical section. |
| `BoundedQueue.RunsAreFinite` | process/process_communication/bounded_blocking_queue_semaphore_mmap_unnamed1/main.cpp:28-61 | Every run, for any numbers of processes and items and any capacity, has at most ten steps for each put and two for each process. |
| `BoundedQueue.RunsEndComplete` | process/process_communication/bounded_blocking_queue_semaphore_mmap_unnamed1/main.cpp:28-61 | With as many consumers as producers, a run that cannot go on has finished every process with f = p = total after exactly ten steps for each put. |
| `BoundedQueue.CompleteIffBalanced` | process/process_communication/bounded_blocking_queue_semaphore_mmap_unnamed1/main.cpp:28-61 | A run that cannot go on has finished every process and emptied the queue if and only if there are as many consumers as producers. |
| `BoundedQueue.StopObjectProgram` | process/process_communication/bounded_blocking_queue_semaphore_mmap_unnamed1/main.cpp:28-61 | A stopped run of the stop-object program has consumed every node exactly once, and every consumer exactly one stop object. |
| `BoundedQueue.CountedProgram` | process/process_communication/bounded_blocking_queue_semaphore_mmap_unnamed0/main.cpp:33-90 | A stopped run of the counter-based program has p = f = total + n and consumed the ids 0 to total + n - 1 once each. |
| `BoundedQueue.CountersFit` | process/process_communication/bounded_blocking_queue_semaphore_mmap_unnamed1/bounded_blocking_queue.cpp:32-49 | If the program's puts fit a 32-bit signed int then f and p never leave it. |
| `SharedRing.BoundedBlockingQueue.PutItem` | process/process_communication/bounded_blocking_queue_semaphore_mmap_unnamed1/bounded_blocking_queue.cpp:31-33 | On the shared array itself: the item is appended to the stored ones and nothing stored changes. |
| `SharedRing.BoundedBlockingQueue.TakeItem` | process/process_communication/bounded_blocking_queue_semaphore_mmap_unnamed1/bounded_blocking_queue.cpp:48-50 | On the shared array itself: the oldest stored item is returned and removed. |
| `SharedRing.StoreExtends` | process/process_communication/bounded_blocking_queue_semaphore_mmap_unnamed1/bounded_blocking_queue.cpp:31-33 | Storing behind a window that leaves a slot free extends the window by the item. |
| `SharedRing.FetchShrinks` | process/process_communication/bounded_blocking_queue_semaphore_mmap_unnamed1/bounded_blocking_queue.cpp:48-50 | The first slot of a window holds its oldest item. |
| `SemaphoreQueue.NeverPopsEmpty` | pthread/blocking_queue/blocking_queue_semaphore.h:36-47 | A consumer that passed the semaphore and has the mutex never finds the queue empty. |
| `SemaphoreQueue.Refines` | pthread/blocking_queue/blocking_queue_semaphore.h:26-47 | Every step is one put or take of the atomic FIFO queue, or invisible to it. |
| `SemaphoreQueue.NoDeadlock` | pthread/blocking_queue/main.cpp:31-68 | With no more consumers than producers, until all threads have finished, one of them can make a step. |
| `SemaphoreQueue.ProducerHeldUp` | pthread/blocking_queue/blocking_queue_semaphore.h:26-34 | A producer with something to do is held up exactly while it needs the mutex and another thread has it. |
| `SemaphoreQueue.ConsumerHeldUp` | pthread/blocking_queue/blocking_queue_semaphore.h:36-47 | A consumer with something to do is held up exactly while every item is claimed or its put is unfinished, or while it needs the mutex and another thread has it. |
| `SemaphoreQueue.RunsAreFinite` | pthread/blocking_queue/main.cpp:31-68 | Every run is finite, with a bound from the number of puts. |
| `SemaphoreQueue.RunsEndComplete` | pthread/blocking_queue/main.cpp:31-68 | A run that cannot go on has consumed every node exactly once, and every consumer one null pointer. |
| `CondvarQueue.NextInv` | pthread/blocking_queue/blocking_queue_condvar.h:25-47 | Every step, with the signal after the unlock and with spurious wake-ups, keeps the invariant that while somebody sleeps the queue is no longer than the alerted consumers and the producers that still owe a signal. |
| `CondvarQueue.SleepersAreOwed` | pthread/blocking_queue/blocking_queue_condvar.h:25-47 | Nobody sleeps on a non-empty queue unless a wake-up is on its way or still owed. |
| `CondvarQueue.Refines` | pthread/blocking_queue/blocking_queue_condvar.h:25-47 | Every step is one put or take of the atomic FIFO queue, or invisible to it. |
| `CondvarQueue.NoDeadlock` | pthread/blocking_queue/main.cpp:31-68 | With no more consumers than producers, until all threads have finished, a step other than a spurious wake-up is possible. |
| `CondvarQueue.ProducerHeldUp` | pthread/blocking_queue/blocking_queue_condvar.h:25-33 | A producer with something to do is held up exactly while it needs the mutex and another thread has it. |
| `CondvarQueue.ConsumerHeldUp` | pthread/blocking_queue/blocking_queue_condvar.h:35-47 | A consumer with something to do is held up exactly while it sleeps or while it needs the mutex and another thread has it. |
| `CondvarQueue.SleepsOnEmpty` | pthread/blocking_queue/blocking_queue_condvar.h:37-39 | A consumer falls asleep only by its own test, in the critical section, of an empty queue. |
| `CondvarQueue.RunsAreFinite` | pthread/blocking_queue/main.cpp:31-68 | A run's length is bounded by the puts and the number of spurious wake-ups in it. |
| `CondvarQueue.RunsEndComplete` | pthread/blocking_queue/main.cpp:31-68 | When only spurious wake-ups are left, every thread has finished, the queue is empty and every node was consumed exactly once. |
| `RingBuffer.WrapKeepsPosition` | network/tcp_echo/server_epollout_handle.cpp:98-159 | Wrapping a counter at 2^64 does not move its position, because 64 divides 2^64. |
| `RingBuffer.ExistTiles` | network/tcp_echo/server_epollout_handle.cpp:134-159 | The exist pieces list the stored bytes in order, for all counters including wrapped ones, and none is empty if something is stored. |
| `RingBuffer.BlankTiles` | network/tcp_echo/server_epollout_handle.cpp:98-132 | The blank pieces list the free bytes behind the stored ones, all but one, and none is empty unless the buffer is full. |
| `RingBuffer.PiecesTileTheRing` | network/tcp_echo/server_epollout_handle.cpp:98-159 | Exist and blank pieces have lengths p - f and 63 - (p - f), share no byte, and leave out exactly the byte before f. |
| `RingBuffer.Buffer.AddBlank` | network/tcp_echo/server_epollout_handle.cpp:161-169 | After AddBlank(v) the stored bytes are the old ones without the first v. |
| `RingBuffer.Buffer.AddExist` | network/tcp_echo/server_epollout_handle.cpp:161-169 | After AddExist(v) the stored bytes are the old ones followed by the v bytes at the free positions. |
| `RingIo.PieceFollows` | network/tcp_echo/server_epollout_handle.cpp:256-276 | Each piece is the run of the ring that follows the pieces before it. |
| `RingIo.StoredUntouched` | network/tcp_echo/server_epollout_handle.cpp:258-271 | Bytes received into free pieces change no stored byte. |
| `RingIo.ReceivePieces` | network/tcp_echo/server_epollout_handle.cpp:256-276 | Whatever the kernel does at the call: the bytes it brings are appended to the received stream and to the stored bytes alike; the result is -1 exactly for an error or the end of the stream, and EAGAIN counts as no bytes. |
| `RingIo.SendPieces` | network/tcp_echo/server_epollout_handle.cpp:341-352 | Whatever the kernel does at the call: the bytes it takes move from the front of the stored bytes to the sent stream; the result is -1 exactly for an error, and otherwise their number. |
| `EchoRuns.RecvGrows` | network/tcp_echo/server_epollout_handle.cpp:245-279 | A receive appends to what was received and touches nothing else; its result counts the bytes that came in. |
| `EchoRuns.SendGrows` | network/tcp_echo/server_epollout_handle.cpp:328-367 | A piecewise send changes nothing received; its result counts the bytes that went out. |
| `EchoServer.Connection.RecvBufNative` | network/tcp_echo/server_epollout_handle.cpp:245-279 | One receive for each piece, as EchoRuns.RecvBufNative says for every list of the kernel's moves: conservation is kept, and success means the ring is full or the kernel had no more. |
| `EchoServer.Connection.SendBuf` | network/tcp_echo/server_epollout_handle.cpp:281-326 | One sendmsg, as EchoRuns.SendBuf says: conservation is kept; on success with something stored, EPOLLOUT is registered exactly if something is left. |
| `EchoServer.Connection.SendBufNative` | network/tcp_echo/server_epollout_handle.cpp:328-367 | The same for one send for each piece, as EchoRuns.SendBufNative says. |
| `EchoServer.Connection.Handle` | network/tcp_echo/server_epollout_handle.cpp:391-416 | Every event does what EchoRuns.Handle says and keeps sent + stored = received; after return 0 interest is exact and, on a readable event, the kernel had no more to give or the ring was full. |
| `EchoServer.Serve` | network/tcp_echo/server_epollout_handle.cpp:173-416 | For every list of the kernel's moves and all events the program ends as EchoRuns.Serve says, which handles the events in order until the handler fails; the sent bytes are a prefix of the received ones, the stored bytes are the rest, and an open connection waits for writability exactly if bytes are unsent. |
| `EchoProgress.HandlerFails` | network/tcp_echo/server_epollout_handle.cpp:391-416 | The handler returns -1 exactly for an event that is not asked for, an error of a send, or an error or the end of the stream at a receive; for bytes and EAGAIN it returns 0. |
| `EchoProgress.HandlerUses` | network/tcp_echo/server_epollout_handle.cpp:369-416 | After 0, the kernel's moves were used in this order: by the writing, by the receives, by sending on. |
| `EchoProgress.WriteGoesOn` | network/tcp_echo/server_epollout_handle.cpp:383-389 | With something stored, a writable event's first call is one send of all that is stored, and what the kernel takes goes out. |
| `EchoProgress.ReadGoesOn` | network/tcp_echo/server_epollout_handle.cpp:369-381 | A readable event receives after the writing, unless the ring is full, and what the kernel has comes in. |
| `EchoProgress.OpenExactly` | network/tcp_echo/server_epollout_handle.cpp:391-416 | A connection is open if and only if no event of its life has met one of the causes to end it. |
| `EchoProgress.StaysOpen` | network/tcp_echo/server_epollout_handle.cpp:245-416 | With nothing but bytes and EAGAIN from the kernel and no unexpected event, a connection stays open for its whole life. |
| `EchoProgress.ErrorCloses` | network/tcp_echo/server_epollout_handle.cpp:245-416 | No open connection has met an error. |
| `EchoProgress.DeliveryKeepsUp` | network/tcp_echo/server_epollout_handle.cpp:281-326 | Over a whole life at least one byte is sent for each writable event with something stored and a kernel about to take bytes. |
| `EchoProgress.LastBytesUnsent` | network/tcp_echo/server_epollout_handle.cpp:257-278 | When received bytes fill the first piece and the peer has closed its end right behind them, the second receive closes the connection with those bytes unsent. |
| `ResponseServer.AnswersContinue` | network/tcp_echo/server_epollout_response.cpp:342-356 | Sending on from where the last send stopped continues the repeated response. |
| `ResponseServer.ResponseConnection.ParseRequests` | network/tcp_echo/server_epollout_response.cpp:317-320 | Every complete request is taken from the ring and counted, with the accounting kept exact. |
| `ResponseServer.ResponseConnection.SendOnce` | network/tcp_echo/server_epollout_response.cpp:333-356 | A pass keeps the accounting and lowers what is owed by exactly the bytes sent, the begin of the next response leaving it unchanged. |
| `ResponseServer.ResponseConnection.SendResponse` | network/tcp_echo/server_epollout_response.cpp:329-371 | The loop ends as ResponseRuns.SendAll says for every list of the kernel's moves; on success EPOLLOUT is registered exactly if a response is owed, which is only when the kernel took nothing. |
| `ResponseServer.ResponseConnection.Handle` | network/tcp_echo/server_epollout_response.cpp:391-416 | Every event does what ResponseRuns.Handle says and keeps bytes sent + response_cnt * S + (S - response_pos) = S * requests taken, and the output a prefix of repeated responses; after return 0 interest is exact and, on a readable event, the kernel had no more to give or the ring was full. |
| `ResponseServer.Serve` | network/tcp_echo/server_epollout_response.cpp:180-416 | For every list of the kernel's moves and all events the program ends as ResponseRuns.Serve says; the output is a prefix of copies of the response and never exceeds one for each 8 bytes received; on an open connection sent and owed make exactly one response for each complete request, and without EPOLLOUT nothing is owed. |
| `ResponseProgress.HandlerFails` | network/tcp_echo/server_epollout_response.cpp:391-416 | The handler returns -1 exactly for an event that is not asked for, an error of a send, or an error or the end of the stream at a receive. |
| `ResponseProgress.HandlerUses` | network/tcp_echo/server_epollout_response.cpp:373-416 | After 0, the kernel's moves were used in this order: by the writing, by the receive, by answering. |
| `ResponseProgress.WriteGoesOn` | network/tcp_echo/server_epollout_response.cpp:383-405 | While a response is owed, a writable event's first call is a send of what is left of it, and what the kernel takes goes out. |
| `ResponseProgress.ReadGoesOn` | network/tcp_echo/server_epollout_response.cpp:309-327 | A readable event receives all the kernel has as far as there is room, and leaves no complete request uncounted. |
| `ResponseProgress.SendsAllItCan` | network/tcp_echo/server_epollout_response.cpp:329-371 | After 0, something is owed only if the last call of the kernel moved nothing. |
| `ResponseProgress.OpenExactly` | network/tcp_echo/server_epollout_response.cpp:391-416 | A connection is open if and only if no event of its life has met one of the causes to end it. |
| `ResponseProgress.StaysOpen` | network/tcp_echo/server_epollout_response.cpp:266-416 | With nothing but bytes and EAGAIN from the kernel and no unexpected event, a connection stays open for its whole life. |
| `ResponseProgress.ErrorCloses` | network/tcp_echo/server_epollout_response.cpp:266-416 | No open connection has met an error. |
| `ResponseProgress.DeliveryKeepsUp` | network/tcp_echo/server_epollout_response.cpp:329-371 | Over a whole life at least one byte is sent for each writable event with a response owed and a kernel about to take bytes. |
| `ResponseProgress.OwedOnlyWhenStalled` | network/tcp_echo/server_epollout_response.cpp:309-371 | At every moment of the life of an open connection something is owed only if the last call of the kernel moved nothing. |
| `TcpEndpoint.SendRunEnds` | network/tcp_echo/server_epollout.cpp:64-68 | The send loop ends with everything out, with the buffer found full, or with a failure; with room and no failure it makes progress; news of room is not lost in it. |
| `TcpEndpoint.RecvRunEnds` | network/tcp_echo/server_epollout.cpp:102-113 | The receive loop ends, with EAGAIN exactly if the socket has neither failed nor reached the end of the peer's stream, and leaves nothing received behind unless it failed. |
| `TcpEndpoint.RecvRunConserves` | network/tcp_echo/server_epollout.cpp:102-113 | What the receive loop counts is exactly what it takes of the peer's bytes. |
| `TcpEndpoint.SendLoop` | network/tcp_echo/server_epollout.cpp:64-68 | The loop does to the socket exactly what SendRun says, for every list of the kernel's moves, and what is out is the prefix of the response of length send_len. |
| `TcpEndpoint.RecvLoop` | network/tcp_echo/server_epollout.cpp:102-113 | The loop does to the socket exactly what RecvRun says and counts exactly what came in. |
| `TriggerRuns.TurnIsGood` | network/tcp_echo/server_epollout.cpp:125-149 | One turn of the event loop, in either mode: no writability is lost, a turn that finds room sends something, and the connection ends only when all is sent, on a failure or at the end of the peer's stream. |
| `TriggerRuns.TurnOutlived` | network/tcp_echo/server_epollout.cpp:90-149 | An open connection outlives a turn, in either mode, if and only if the socket had not failed, a reported room left bytes unsent without a failure, and a readable turn met neither a failure nor the end of the peer's stream. |
| `TriggerRuns.DeadTurnCloses` | network/tcp_echo/server_epoll_et.cpp:69-127 | A readable turn closes a connection whose peer has closed its end, and any turn one whose socket has failed. |
| `TriggerRuns.NoneOutlivesItsPeer` | network/tcp_echo/server_epollout.cpp:90-149 | No connection is open after a turn that could tell that its peer is gone. |
| `TriggerRuns.ReceivedIsCounted` | network/tcp_echo/server_epollout.cpp:90-113 | At every moment of every life the peer's bytes are counted in recv_len, in the inbox or still to come, each once. |
| `TriggerRuns.NeverLost` | network/tcp_echo/server_epollout.cpp:62-88 | At every moment of every life: level-triggered, EPOLLOUT is armed exactly while bytes are unsent, unless the socket has failed; edge-triggered, an open connection that has not failed has an edge queued or a full buffer that is watched. |
| `TriggerRuns.DeliveryKeepsUp` | network/tcp_echo/server_epollout.cpp:62-149 | While the peer neither resets nor closes, what is sent is at least what the constructor sent and one byte more for each turn that found room, up to the whole response. |
| `TriggerRuns.LevelCloses` | network/tcp_echo/server_epollout.cpp:43-149 | While the peer neither resets nor closes, the level-triggered connection is open if and only if bytes are unsent or its constructor had sent the whole response. |
| `TriggerRuns.EdgeCloses` | network/tcp_echo/server_epoll_et.cpp:41-127 | While the peer neither resets nor closes, the edge-triggered connection is open if and only if bytes are unsent or no turn has found room. |
| `TriggerRuns.SentAtOnce` | network/tcp_echo/server_epollout.cpp:43-48 | With a peer that stays still and leaves room for more than the response, or one that takes bytes before every call, both constructors send it whole; then, however often the loop turns, the level-triggered connection is never closed, while the first turn closes the edge-triggered one. |
| `TriggerServers.LevelConnection.SendBuf` | network/tcp_echo/server_epollout.cpp:62-88 | The method changes connection and socket exactly as the function of the same name says; what was sent stays the prefix of length send_len. |
| `TriggerServers.LevelConnection.Handle` | network/tcp_echo/server_epollout.cpp:125-149 | The same for the event handler. |
| `TriggerServers.ServeLevel` | network/tcp_echo/server_epollout.cpp:43-149 | For every kernel, every list of its moves and all events, the program's run is the life that TriggerRuns describes, and the bytes sent are the prefix of length send_len. |
| `TriggerServers.EdgeConnection.SendBuf` | network/tcp_echo/server_epoll_et.cpp:49-67 | The method changes connection and socket exactly as the function of the same name says; what was sent stays the prefix of length send_len. |
| `TriggerServers.EdgeConnection.Handle` | network/tcp_echo/server_epoll_et.cpp:103-127 | The same for the event handler. |
| `TriggerServers.ServeEdge` | network/tcp_echo/server_epoll_et.cpp:41-127 | For every kernel, every list of its moves and all events, the program's run is the life that TriggerRuns describes, and the bytes sent are the prefix of length send_len. |
| `Checksum.OnesSumIsRep` | module/my_l4_protocol/example/client_v4.cpp:40-64 | The 16-bit one's complement sum (sections 1 and 2 of RFC 1071) is the representation of the ordinary sum, so the order of addition does not matter. |
| `Checksum.FoldHalves` | module/my_l4_protocol/example/client_v4.cpp:43 | Adding a word to its rotation by half its width and taking the upper half adds the two halves with end-around carry. |
| `Checksum.FoldSame` | module/my_l4_protocol/example/client_v4.cpp:43 | Folding a 32-, 64- or 128-bit word keeps its one's complement value. |
| `Checksum.LoadSame` | module/my_l4_protocol/example/client_v4.cpp:52-58 | A wide little-endian load has the one's complement value of the 16-bit words in it. |
| `Checksum.WideSumSame` | module/my_l4_protocol/example/client_v4.cpp:52-60 | The unwrapped 64-bit sum has the one's complement value of all header words. |
| `Checksum.CsumFold` | module/my_l4_protocol/example/client_v4.cpp:40-45 | The complement of the 16-bit representation of any 32-bit word. |
| `Checksum.AddWords` | module/my_l4_protocol/example/client_v4.cpp:57-60 | The loop adds exactly the remaining 32-bit words, modulo 2^64. |
| `Checksum.IpFastCsum` | module/my_l4_protocol/example/client_v4.cpp:47-64 | For every header with ihl >= 5: the complement of the one's complement sum, when the 64-bit sum stays below 2^64. |
| `Checksum.FastCsumCorrect` | module/my_l4_protocol/example/client_v4.cpp:47-64 | For every header of 5 to 15 words: the result is the defined checksum if and only if the folded 64-bit sum plus the remaining words is below 2^64. |
| `Checksum.PacketCarries` | module/my_l4_protocol/example/client_v4.cpp:132-147 | For every source and destination address, the header this program builds overflows the 64-bit sum if and only if the source is 251.45.255.255 and the destination, loaded little-endian, is at least 0xDBFF847B. |
| `Checksum.PacketsSealed` | module/my_l4_protocol/example/client_v4.cpp:132-147 | For every header this program builds: the checksum is the defined one if and only if its addresses are not in that case, and the header as handed to sendto then sums to 0xFFFF and otherwise to 1. |
| `Checksum.CarryCanBeLost` | module/my_l4_protocol/example/client_v4.cpp:132-147 | The header the program builds from 251.45.255.255 to 10.0.0.255 does not carry its checksum: its words sum to 1. |
| `Checksum.SealedHeader` | module/my_l4_protocol/example/client_v4.cpp:67-71 | After the check field is written the header's words sum to 0xFFFF if and only if the computation lost no carry; otherwise they sum to 1. |
| `Checksum.RecheckIsZero` | module/my_l4_protocol/example/client_v4.cpp:67-71 | A second pass yields 0 if and only if both passes lose a carry or neither does, and the wrapped sum is not 0. |
| `Checksum.IpSendCheck` | module/my_l4_protocol/example/client_v4.cpp:67-71 | Only the check field changes, and it becomes the fast checksum of the header with a zero check field. |
| `Checksum.ByteOrderIndependent` | module/my_l4_protocol/example/client_v4.cpp:40-64 | Summing the words in network order gives the byte-swapped sum (section 2 (B) of RFC 1071). |
| `Latency.LatencyTracer.Push` | network/tcp_echo/client_epoll_bench.cpp:169 | A sample is added; samples less than a ring's length old stay readable; an overrun is noticed exactly when more than 2^18 are undrained. |
| `Latency.LatencyTracer.Pop` | network/tcp_echo/client_epoll_bench.cpp:186 | The sample read is the last one pushed into its slot. |
| `LatencyRuns.LastOver` | network/tcp_echo/client_epoll_bench.cpp:186 | The last index sharing a slot with f is f itself if and only if at most 2^18 samples are undrained. |
| `Latency.LatencyTracer.Report` | network/tcp_echo/client_epoll_bench.cpp:173-197 | The method does to ring and histogram exactly what Drain and Drained say, with pushes before every step as the list of batches has them, and `num` counts the samples recorded. |
| `LatencyRuns.BlockTest` | network/tcp_echo/client_epoll_bench.cpp:182 | With f at the beginning of a block, the test on block numbers asks for a whole block. |
| `LatencyRuns.DrainedExact` | network/tcp_echo/client_epoll_bench.cpp:182-193 | If more than 2^18 samples are never undrained, a report records exactly the samples from the old f to the new f, in order. |
| `LatencyRuns.FewEnough` | network/tcp_echo/client_epoll_bench.cpp:182-193 | If what is in the ring and what is pushed during the report fit the ring together, it is not overrun. |
| `LatencyRuns.FirstLost` | network/tcp_echo/client_epoll_bench.cpp:182-193 | Pushed into an empty ring at one go, more than 2^18 samples overrun it, and the first is never seen. |
| `LatencyRuns.ReadAt` | network/tcp_echo/client_epoll_bench.cpp:186 | The i-th sample of a block is what stands in the slot of its index at that moment. |
| `LatencyRuns.OverrunExactly` | network/tcp_echo/client_epoll_bench.cpp:182-193 | From a ring that is not overrun, a report raises the flag if and only if some sample it reads stands at an index other than its own. |
| `LatencyRuns.DrainedFrom` | network/tcp_echo/client_epoll_bench.cpp:182-193 | Every sample recorded is the one pushed at the index that DrainedAt gives. |
| `LatencyRuns.TicksExact` | network/tcp_echo/client_epoll_bench.cpp:458-472 | Over any number of reports and any pushes, if the ring is never overrun all recorded samples together are exactly those pushed, in order, but for those still in the ring, and none pushed is missing. |
| `Latency.Bench` | network/tcp_echo/client_epoll_bench.cpp:458-472 | Any number of event loops report into one total per tick: what is shown at each tick is the tail value of exactly the samples that all of them recorded since the last; which those are is LatencyTotals.AllDrainedCounts. |
| `LatencyTotals.AllDrainedCounts` | network/tcp_echo/client_epoll_bench.cpp:462-472 | One tick's total holds every value as often as all event loops together drained it. |
| `LatencyTotals.EverySampleShownOnce` | network/tcp_echo/client_epoll_bench.cpp:448-472 | Over any number of ticks without an overrun, every value is shown as often as it was pushed on all event loops together, but for less than a block still in each ring. |
| `Tail.TalliesSnoc` | network/tcp_echo/client_epoll_bench.cpp:191 | Counting one more occurrence keeps the histogram exact. |
| `Tail.ScanStep` | network/tcp_echo/client_epoll_bench.cpp:59-61 | The running sum of the descending scan is the number of samples at or above the entry reached. |
| `Tail.TailExists` | network/tcp_echo/client_epoll_bench.cpp:61-65 | There is a tail value if and only if at least tail_num samples were recorded. |
| `Tail.GetP99` | network/tcp_echo/client_epoll_bench.cpp:42-68 | The greatest recorded value that at least tail_num samples reach, or 0 if there is none. |
| `Latency.Total.Report` | network/tcp_echo/client_epoll_bench.cpp:204-213 | The reported value is the greatest recorded latency that at least num / 100 samples reach, and it is a recorded one unless nothing was recorded. |

## Left out

- Weak memory: all accesses are sequentially consistent; a publication (`hlist_replace_rcu`, `hlist_add_head_rcu`, `hlist_del_rcu`) is one atomic step with the private store before it.
- Kernel internals: RCU is its one promise (a callback waits for every reader active at `call_rcu`), a semaphore a counter, a mutex a counter of one, a condition variable a set of sleepers, a socket a list of moves, any list, each transferring any number of bytes or failing.
- RCU memory reuse: an entry number is never used twice, so a freed entry that is allocated again is a new entry.
- RCU reader's end: `rcu_read_unlock` is one step with the load that ends the lookup.
- RCU back pointers: `pprev` is not stored in the concurrent model; a writer finds the place to relink from its own walk under the lock, and the flush model says what the stale back pointer does.
- RcuFlush.Flush: works on buckets as values in an array, for a quiescent table only, as at module exit; the allocation of `heads` is taken to succeed.
- RcuProgress.CallReturns: counts from the moment the lock is had; how long a writer waits for it depends on the fairness of the spin lock, which is not modelled.
- RcuMap.LookupLinearizable: what `pe_map_get` stores through its pointer and what it returns are one value, `Some(v)` or `None`.
- LockedBucket.Bucket.Insert: the allocation before the lock is in the same method, since it touches nothing shared; whether there is memory is a parameter.
- LockedMap.Table.Insert: runs without interruption, because everything shared is done under the one bucket lock.
- Creation and destruction of tables: a table begins with mask + 1 empty buckets; `vmalloc`, `kmem_cache_create` and their error paths are not modelled.
- The /proc files, module parameters, user copies and logging around both maps.
- `bbq_empty` and both `empty` methods: they read under the mutex and return.
- BoundedQueue.NextInv: the counter update and the copy of an item are one step, done under the mutex; items are values and not `item_size` bytes.
- BoundedQueue.CountersFit: overflow of the signed counters past the stated limit is undefined in the source and not modelled.
- FifoProgram.CountedDelivery: the `value` of a node, a random number, is not modelled; complete delivery is for as many consumers as producers, as in the programs.
- `pthread/bounded_blocking_queue`: copies of the modelled headers and program.
- Sleeping, process creation, `mmap` and waiting for children or threads.
- EchoServer.Connection.RecvBufNative: `recv_buf` with one `recvmsg` is not called by the program and not modelled.
- Failure of `epoll_ctl`, accepting connections, sockets' set-up and closing: a handler's -1 ends the connection.
- ResponseServer.Serve: `response_cnt` is an unbounded count; it counts requests, so it fits 64 bits.
- TriggerRuns.HandleRecv: `recv_len` is unbounded, while the source's is an `int` that nothing else reads.
- TcpEndpoint.RecvLoop: the kernel's moves are finitely many, after which the peer is still, without which the source's loop need not end; a send returns 0 only on a failed socket.
- The other echo, poll and epoll servers, which are simpler forms of the modelled ones.
- Checksum.Fold: words are numbers, and the `|` of two shifts is written as a sum; `Checksum.NoSharedBits` shows that the two agree for all three widths.
- Checksum.PacketsSealed: what the kernel does with the header after `sendto` is not modelled.
- Checksum.IpFastCsum: a header shorter than five words makes the source's loop counter wrap around, and is excluded; unaligned access and aliasing through the casts are not modelled.
- Latency.LatencyTracer.Push: a push is one atomic step, while in the source the counter may be seen before the sample is stored; pushes stand between the steps of the main thread and their number is finite. What happens in memory after more than 2^63 samples is not modelled.
- Throughput rates, averages in floating point, timers and the unsynchronised flag `running`.
- Tail.GetP99: the library sort is an insertion sort here; the histogram is a map.
