# A model of the BOT server

The BOT server collects tracking reports from gateways over UDP.  A received packet becomes a
buffer node from a memory pool; the node is routed to one of seven prioritised buffer lists;
a scheduler takes nodes from the lists and gives them to a thread pool; the workers store the
sightings in a hash table of objects, watch geo-fences, answer join requests and give the node
back.  This project models that core in Dafny and proves what its parts promise, and what they
promise together.  `dafny verify dfyconfig.toml` checks all of it.

| file | what it models |
|---|---|
| `ThreadPool.dfy` | the worker protocol of `import/thpool.c`, as interleaved steps around one job queue, one binary semaphore on a condition variable and the counters of threads |
| `JobQueue.dfy` | the linked job queue of that pool |
| `LinkedList.dfy`, `PriorityList.dfy` | the intrusive rings, and the bucket sort of the buffer lists that splices them |
| `CommUnit.dfy` | the scheduler's normal and starvation scans |
| `Mempool.dfy` | the pool allocator: a free list inside the slots of up to ten chunks |
| `PacketQueue.dfy` | the circular packet array |
| `TrackingRow.dfy`, `Summary.dfy`, `HashTable.dfy` | the object table: signal rings, the summary of a row with its closest beacon, and the chained table with its eviction sweep |
| `GeoFence.dfy` | the geo-fence monitor and its violation records |
| `Wire.dfy` | the tokenizer, the packet format, and the command messages of the IPC tool |
| `Pipeline.dfy` | the life of buffer nodes across the receiver, the scheduler, the thread pool and the memory pool |

Code that works in place is modelled in place: rings, chains, the job queue, the buffers of the
tokenizer and the free list are objects whose links are assigned, and loops are loops.  Each
such method is proved against a function or a sequence, map or pool value, and the theorems are
about that value.  A C pointer into a pool is an integer and 0 is NULL.  Protocols of several
threads are state machines over their steps, and the theorems are about every run.

What the model takes as input: the clock (nondecreasing where a theorem says so), what malloc
returns, which nodes arrive between two lock acquisitions of a scan, which sleepers a signal
wakes (at least one if there are any, and sleepers may wake for no reason, as POSIX.1 allows),
the result of each database call, and the order in which threads take their steps.

What the callers owe, from the configuration and the message formats: pool slots of at least 8
bytes and at least one of them, slots given back by whoever holds them, a window of 1 to 32
samples, 17-character MAC addresses and a valid duration that is not negative for the geo-fences,
and packets that fit in a message buffer of 4096 bytes with two to spare.

## Where the code differs from its comments

The model follows the code.  These points shape the theorems.

- `mp_free` ignores an offset of 0 when it looks for the nearest chunk (import/Mempool.c:237), so
  a chunk's first slot can be refused; the first slot of the lowest chunk always is.  The model
  proves exactly when, and that nothing else is ever refused.  A double free is not noticed.
- `hashtable_maintain_key_part` reports that it found nothing right after it has made a new node
  (src/HashTable.c:382, 473): the first sighting of an object leaves an empty row.
- A record that is taken over by another beacon keeps its old samples (src/HashTable.c:636-643).
  The window theorem says which cells those are, and an example shows one in an average.
- In a scan a stale head makes the scan go on with the next list, not with the next node of the
  same one (import/BeDIS.c:386-391).
- The flag `is_found_mac_address` is set once for a whole call, not for each object
  (src/GeoFence.c:699).  An object without a record that comes after one with a record is left
  out, also when its record was stale and a scan for an earlier object has just dropped it.  The
  model shows both on two objects, proves in terms of the list and the objects exactly when a
  call records all of them, and proves that expiry is invisible in exactly the histories in
  which every perimeter call does.
- Fences are checked against `rssi_of_perimeters` (src/GeoFence.c:633).
- With an unknown command the IPC tool prints an error and then sends an empty message
  (modules/BOT-Server-Lite/cmdServerIPC/cmdServerIPC.c:191-215).
- With no average above -100 among the candidates but a weight from one of exactly -100 the
  summary beacon's name is emptied (src/HashTable.c:903-1005); the hysteresis theorem says so.

## Model

| member | source | states |
|---|---|---|
| `ThreadPool.NeverAllAsleep` | import/thpool.c:234-282 | in every reachable state with keepalive set, work queued and no push under way, some worker is not asleep in the condition variable |
| `ThreadPool.StepKeepsWakeup` | import/thpool.c:332-392 | no step of any thread loses a wake-up: a non-empty queue means that the semaphore is 1, a worker is between its wait and its pull, or a post is about to happen; and a semaphore at 1 with a sleeper means that some sleeper has been signalled |
| `ThreadPool.ReachableInv` | import/thpool.c:234-449 | the invariant of all steps: no lost wake-up, who holds the queue lock, the two thread counters, the phases, the order of jobs |
| `ThreadPool.StepKeepsCounts` | import/thpool.c:242-279 | `num_threads_alive` and `num_threads_working` count exactly the workers between their increments and decrements, after every step |
| `ThreadPool.StepKeepsFifo` | import/thpool.c:332-392 | pushed jobs are the pulled, then the cleared, then the queued ones, in one order; the pulled ones are those held by workers plus the finished ones |
| `ThreadPool.PulledOnce` | import/thpool.c:254-267 | a job that was pulled is held by one worker or finished once, never both, never twice |
| `ThreadPool.NoJobRunsTwice` | import/thpool.c:254-267 | no two workers run the same job, a running job is not finished, and no job finishes twice |
| `ThreadPool.QueuedJobIsNeverStuck` | import/thpool.c:246-275 | from every state with keepalive set and a job queued there are at most nine steps, none of which adds work, after which exactly the oldest job has been pulled |
| `ThreadPool.QueueCanBeWorkedOff` | import/thpool.c:246-275 | from every reachable state with keepalive set the whole queue can be pulled in order, in at most nine steps a job |
| `ThreadPool.ShutdownNeverAddsWork` | import/thpool.c:165-187 | once keepalive is 0 no step of any thread increases the remaining work, and every step but a fruitless wake-up or a repeated broadcast decreases it |
| `ThreadPool.ShutdownIsNeverStuck` | import/thpool.c:165-187 | until everything is released a step that decreases the remaining work is enabled |
| `ThreadPool.ShutdownTerminates` | import/thpool.c:152-190 | `thpool_destroy` can always be completed within that measure; then no worker is left and the queue is empty |
| `ThreadPool.EveryShutdownEnds` | import/thpool.c:165-187 | in every run of the shutdown, whoever moves, the number of helpful steps is bounded by that measure, and a run that leaves no helpful step has released everything |
| `ThreadPool.EveryRunDrainsQueue` | import/thpool.c:234-282 | in every run without new work and with keepalive set, whoever moves, the number of helpful steps is bounded by the work at its start, and a run that leaves none has pulled the whole queue in order |
| `ThreadPool.ClearingIsAlone` | import/thpool.c:317-328 | the queue is cleared only after every worker has left, and each pulled job has then finished |
| `JobQueue.Queue.Push` | import/thpool.c:332-357 | `front`, `rear`, `prev` and `len` represent the old jobs with the new one behind them, and the semaphore is 1 |
| `JobQueue.Queue.Pull` | import/thpool.c:360-392 | returns the oldest job or NULL, keeps the rest in order, and posts exactly when jobs remain |
| `JobQueue.Queue.Clear` | import/thpool.c:317-328 | drains the queue in order, one pull a job, and resets the semaphore |
| `CommUnit.CommUnit.NormalScan` | import/BeDIS.c:364-402 | the loop of the normal scan is the specified scan, with any arrivals between its lock acquisitions |
| `CommUnit.CommUnit.CriticalScan` | import/BeDIS.c:422-459 | the first loop of the starvation pass, which ends at the first list that is not time critical or after one node |
| `CommUnit.CommUnit.ReverseScan` | import/BeDIS.c:462-493 | the second loop takes one node from every list it finds non-empty, in reverse order |
| `CommUnit.CommUnit.StarvationPass` | import/BeDIS.c:411-493 | both loops of the starvation pass |
| `CommUnit.NormalScanEvents` | import/BeDIS.c:364-402 | a normal scan dispatches at most one node, last, which is at most `minAge` old; before it, it drops at most one head of each earlier list, each more than `minAge` old; a list it passed without taking anything was empty when the scan began |
| `CommUnit.StarvationServesEveryList` | import/BeDIS.c:462-493 | a starvation pass takes at least one node from every list that was not empty |
| `CommUnit.StarvationEvents` | import/BeDIS.c:411-493 | everything a starvation pass does: at most one node of the time-critical lists is dispatched, then one of every list that still has one, in reverse order; nothing is dropped |
| `CommUnit.ActIsFifo` | import/BeDIS.c:351-502 | under every action each buffer list stays a FIFO: what leaves it is a prefix of what has entered it |
| `CommUnit.StarvationBound` | import/BeDIS.c:351-502 | a node with k nodes ahead of it leaves its list within k + 1 starvation passes, as the next one after those k, whatever normal scans and arrivals happen in between; and it leaves for the thread pool, unless a normal scan found it to be more than `minAge` old |
| `CommUnit.SortedSetupHasPrefix` | import/BeDIS.c:220-284 | in the order that sorting produces all time-critical lists precede the others, so the `break` of the first loop skips none |
| `CommUnit.StarvationServesCriticalFirst` | import/BeDIS.c:422-459 | the first node of a starvation pass is the head of the first non-empty time-critical list |
| `PriorityList.SortPriorityList` | import/BeDIS.c:220-288 | relinking buckets in place leaves a well-formed ring whose order is the specified one, with unmatched nodes isolated |
| `PriorityList.SortIsPermutation` | import/BeDIS.c:231-266 | the sorted list has the same nodes if and only if every priority is one of the four configured levels |
| `PriorityList.SortOrdersClasses` | import/BeDIS.c:262-284 | a later node is never of an earlier class |
| `PriorityList.SortOrdersPriorities` | import/BeDIS.c:262-284 | the priorities are nondecreasing when the configured levels are |
| `PriorityList.SelectIsStable` | import/BeDIS.c:231-262 | nodes of one class keep their order |
| `PriorityList.CriticalListsComeFirst` | import/BeDIS.c:264-284 | every node before a time-critical one is time critical |
| `PriorityList.DistributeNodes` | import/BeDIS.c:231-262 | the distributing loop: each node is moved to the ring of its class, the others are left isolated |
| `LinkedList.ListEntry.Init` | import/LinkedList.h:111-115 | an initialized entry is isolated |
| `LinkedList.InsertListTail` | import/LinkedList.h:212-216 | appends to the ring and leaves next and prev inverse |
| `LinkedList.InsertListFirst` | import/LinkedList.h:192-196 | inserts behind the head |
| `LinkedList.RemoveListNode` | import/LinkedList.h:256-262 | takes one node out of the ring and isolates it |
| `LinkedList.ConcatList` | import/LinkedList.c:55-68 | splices the second ring, its own entry included, behind the last entry of the first |
| `LinkedList.GetListLength` | import/LinkedList.c:70-81 | the number of nodes besides the head |
| `LinkedList.RingIsDetermined` | import/LinkedList.h:87-92 | a head belongs to one ring only: two rings with the same head are the same |
| `LinkedList.RingLinksAreInverse` | import/LinkedList.h:87-92 | in a ring next and prev are inverse at every node |
| `Mempool.Init` | import/Mempool.c:64-90 | a new pool has one chunk of free slots, or none if malloc fails |
| `Mempool.MemoryPool.Expand` | import/Mempool.c:93-139 | adds one chunk with all its slots on the free list, unless ten exist or malloc fails |
| `Mempool.MemoryPool.PushSlots` | import/Mempool.c:124-136 | the loop threads every slot of the chunk onto the list in front of the old ones |
| `Mempool.MemoryPool.Alloc` | import/Mempool.c:173-218 | hands out the head of the list, after growing the pool when it is empty |
| `Mempool.MemoryPool.Free` | import/Mempool.c:221-269 | for any address: the search loop finds the least positive offset; an accepted one becomes the head of the list, a refused call changes nothing, and the pool stays valid if the slot was out |
| `Mempool.MemoryPool.CountersAddUp` | import/Mempool.c:126-130 | `blocks + used_slots == alloc_time * slots` |
| `Mempool.SlotsAreDistinct` | import/Mempool.c:115-128 | an address is at most one slot of one chunk |
| `Mempool.AllocKeepsGood` | import/Mempool.c:173-218 | allocation keeps free and outstanding slots a partition of all slots, and hands out a slot that was not out; it fails without a change |
| `Mempool.AllocFailsOnlyWhenExhausted` | import/Mempool.c:173-218 | when malloc succeeds, allocation fails if and only if all 10 * slots are out |
| `Mempool.FreeKeepsGood` | import/Mempool.c:221-269 | giving back a slot that is out keeps the partition, and the next allocation returns it and restores the pool |
| `Mempool.HistoryKeepsGood` | import/Mempool.c:173-269 | the partition holds after any sequence of legal calls |
| `Mempool.ClosestIsLeast` | import/Mempool.c:230-241 | the loop's result is the least positive offset from a chunk base, or -1 |
| `Mempool.ClosestInsideChunk` | import/Mempool.c:230-241 | strictly inside a chunk it is the offset in that chunk, whatever the order of the chunks |
| `Mempool.AcceptsInsideIffSlot` | import/Mempool.c:230-245 | strictly inside a chunk exactly the slot addresses are accepted |
| `Mempool.AcceptsBaseIff` | import/Mempool.c:230-245 | a chunk base is accepted if and only if the nearest lower base is a multiple of the slot size away |
| `Mempool.LowestBaseIsRefused` | import/Mempool.c:237 | the base of the lowest chunk is always refused |
| `Mempool.LowestBaseIsLost` | import/Mempool.c:221-269 | so that slot, once handed out, stays out for the rest of the run while no lower chunk is added |
| `Mempool.RefusedSlotIsBase` | import/Mempool.c:230-245 | only chunk bases are refused slots |
| `Mempool.DoubleFreeIff` | import/Mempool.c:221-269 | freeing an accepted slot keeps the partition if and only if the slot was out: a double free is not noticed |
| `PacketQueue.Queue.Add` | import/pkt_Queue.c:101-194 | appends a packet that stores the port, the size, and the C strings of address and content padded with NULs, or refuses it exactly when it is oversize, the queue is freed, or it is full |
| `PacketQueue.Queue.Get` | import/pkt_Queue.c:197-229 | returns and removes the oldest packet, or a null packet |
| `PacketQueue.Queue.Delete` | import/pkt_Queue.c:232-281 | removes the oldest packet and clears its cell |
| `PacketQueue.Queue.Free` | import/pkt_Queue.c:72-95 | the deleting loop ends with an empty queue that refuses everything |
| `PacketQueue.Queue.Length` | import/pkt_Queue.c:352-381 | `queue_len` is the number of packets |
| `PacketQueue.Queue.NullIffEmpty` | import/pkt_Queue.c:324-331 | `is_null` means empty |
| `PacketQueue.Queue.FullIffAtCapacity` | import/pkt_Queue.c:334-349 | `is_full` means 512 packets |
| `PacketQueue.Queue.InUseIffInWindow` | import/pkt_Queue.c:232-281 | a cell is in use exactly inside the window of the two indices |
| `PacketQueue.ContentComesBackIff` | import/pkt_Queue.c:165-178 | the stored bytes equal the sent ones if and only if no NUL precedes another character |
| `TrackingRow.RecordSample` | src/HashTable.c:561-608 | the gap loop and the write are the specified window update |
| `TrackingRow.RingIsSlidingWindow` | src/HashTable.c:561-608 | after a claim and any series of sightings, reading back from the write index gives the newest value, a zero for each missed second, then older values, cut at the window; the cells behind them still hold what was there before the claim; the index stays below the window |
| `TrackingRow.SignalIsByTime` | src/HashTable.c:571-608 | for sightings in order of time the signal that the window shows has one cell for each second since the claim: the sample of a second stands at its distance from the newest one, and a second without a sighting has 0 |
| `TrackingRow.SilenceClearsWindow` | src/HashTable.c:577-593 | after a gap of at least the window nothing older is left, not even samples of an earlier owner of the record |
| `TrackingRow.PutSighting` | src/HashTable.c:535-672 | the three record loops: update the beacon's record, else claim the first free one, else drop the sample |
| `TrackingRow.PutMeans` | src/HashTable.c:535-672 | every field of a row after a sighting: battery and panic text are the reported ones, the summary is unchanged; the beacon's first record has the new times, or else the first free one has the name, times and coordinates of the sighting, or else no record changes; no other record changes |
| `TrackingRow.PutKeepsDistinct` | src/HashTable.c:545-664 | no two records in use are of one beacon |
| `Summary.GetAverageRssi` | src/HashTable.c:711-752 | the loop averages the accepted samples, counting back from the previous position, with C's truncating division |
| `Summary.AverageIsBetween` | src/HashTable.c:711-752 | the average lies between the least and the greatest accepted sample |
| `Summary.AverageIsMeanOfCounted` | src/HashTable.c:711-752 | the average is the mean, rounded toward zero, of exactly the samples that are present, not below the threshold, and not more than the allowed change away from the sample in the cell before, if there is one; each is taken once, and with none the average is 0 |
| `Summary.ZeroAverageMeansNoSample` | src/HashTable.c:711-752 | for negative samples the average is 0 if and only if none was accepted |
| `Summary.ForeignSampleIsAveraged` | src/HashTable.c:636-643 | a record that is taken over: a sample of its former beacon enters the average of the new one |
| `Summary.WeightIsMonotone` | src/HashTable.c:684-709 | a stronger average never weighs less, and for a positive multiplier exactly those of at least -100 weigh something |
| `Summary.WeightSteps` | src/HashTable.c:684-709 | the weight is 1 at -100, is multiplied by the multiplier just above each of -90, -80, -70, -65, -60, -55, -50, -45 and -40, and is the same between two of these |
| `Summary.BestIsGreatest` | src/HashTable.c:903-959 | the strongest average found is the greatest above -100 of the other candidates, at the recorded index, which is the first with it |
| `Summary.Summarize` | src/HashTable.c:862-1005 | both loops and the update of one row are the specified summary |
| `Summary.LocationIsBounded` | src/HashTable.c:903-981 | the centroid lies in every box that holds the beacons carrying weight, and the stored pin ends within drift + 1 of it on each axis |
| `Summary.PinMovesToBalance` | src/HashTable.c:950-981 | there is exactly one point at which the weighted beacons balance; a pin less than drift + 1 away from it on both axes stays where it is, and any other pin moves to that point |
| `Summary.ClosestBeaconHysteresis` | src/HashTable.c:862-1005 | one pass over a row, every field and every case: a record stays in use if and only if it was reported within the window; without weight nothing else changes; with weight the row is reported now, and the first strongest other beacon takes over if the current one takes no part or is beaten by more than the tolerance, the current one stays with its own average if not, and the name is emptied if no other is above -100 and the current one takes no part or is below -100 by more than the tolerance |
| `Summary.CurrentIff` | src/HashTable.c:862-901 | the first loop finds the beacon's record if and only if it is the first one in use with the row's name, is reported within the window and has a usable average |
| `Summary.NameChangesIff` | src/HashTable.c:983-1005 | a row whose beacon has an average above -100 changes its name if and only if it has weight and that beacon is beaten by more than the tolerance |
| `Summary.NameIsEmptied` | src/HashTable.c:959-1005 | a row whose only average is -100 loses the name of its beacon |
| `Summary.SummaryIsIdempotent` | src/HashTable.c:862-1005 | a second run on the same samples and time changes nothing, for a tolerance of at least 0 |
| `Summary.RowsStayNamed` | src/HashTable.c:545-664 | what the idempotence needs of a row holds after every put and every summary |
| `HashTable.Table.Find` | src/HashTable.c:392-403 | the chain search finds the node of a key if and only if the key is in the table, with its row and slots |
| `HashTable.Table.Insert` | src/HashTable.c:405-473 | a new key is pushed on the chain of its bucket; the map gains that key, with a row reported now whose records are all unused and without samples, and nothing else changes |
| `HashTable.Table.Put` | src/HashTable.c:477-680 | a put touches only its own key: the first sighting stores a row reported now with blank records, later ones store the sample; `count` grows with the keys |
| `HashTable.Table.SetRow` | src/HashTable.c:1013-1015 | storing a row in a node changes the entry of its key only |
| `HashTable.Table.Evict` | src/HashTable.c:820-842 | unlinking a node at the front, in the middle or at the end of its chain removes exactly its key |
| `HashTable.Table.SweepBucket` | src/HashTable.c:797-860 | one chain of the sweep, with the pointer to the previous node kept over evictions |
| `HashTable.Table.Sweep` | src/HashTable.c:797-1018 | the sweep keeps exactly the keys reported within 300 s, with their summarized rows, and hands back for every other key the node, key and row slots taken at its insertion, each once |
| `HashTable.Table.NewObjectStaysIff` | src/HashTable.c:445 | an object first put at time t is in the table after a sweep at time u if and only if u <= t + 300 |
| `HashTable.Table.SeenObjectStaysIff` | src/HashTable.c:823-1007 | an object that a sweep at time t keeps is kept by the next one at time u if and only if u is at most 300 s after t, if it had weight at t, and after its last report, if not |
| `HashTable.Table.CountIsSize` | src/HashTable.c:842 | `count` is the number of keys: each is chained once, in bucket hash mod size |
| `GeoFence.Monitor.ScanViolations` | src/GeoFence.c:805-871 | the traversal that removes entries while it runs is the specified scan |
| `GeoFence.Monitor.VisitObject` | src/GeoFence.c:802-901 | one object: the scan, then a new record at the tail if this is a perimeter and the flag is clear |
| `GeoFence.Monitor.IsMonitored` | src/GeoFence.c:769-800 | the search over the monitored areas, with its two `continue`s |
| `GeoFence.Monitor.ExamineObjects` | src/GeoFence.c:651-924 | one call: the objects of the message in order, with one flag for all of them |
| `GeoFence.Monitor.Check` | src/GeoFence.c:545-649 | a message examines, for every setting of the beacon's area, its perimeter and then its fence, both against `rssi_of_perimeters`; every call reads the clock and the database anew |
| `GeoFence.EventsAreEarned` | src/GeoFence.c:606-642 | whatever a message writes to the log is earned: a record only by an object that is strong enough and monitored, through a setting of the beacon's area whose perimeter text contains the beacon; an alert only through one whose fence text does |
| `GeoFence.OtherBeaconsDoNothing` | src/GeoFence.c:606-642 | a beacon in no perimeter text of its area leads to no record, and one in no fence text to no alert |
| `GeoFence.SightingIsRecorded` | src/GeoFence.c:606-911 | the only object of a perimeter message that meets the area, the text and the criterion gets a record, and still has it at the end of the message if the beacon is in no fence text of the area |
| `GeoFence.ValidRecordRaisesAlert` | src/GeoFence.c:606-911 | an object with a valid record that meets the area, the text and the criterion at a fence raises the alert, in any message |
| `GeoFence.ContainsIff` | src/GeoFence.c:790-795 | `strstr` finds exactly the texts that contain the part |
| `GeoFence.ScanMeaning` | src/GeoFence.c:805-871 | what a scan means for the records: its own object's is refreshed, used up or kept as the case may be, and of the others only stale ones go |
| `GeoFence.AlertsAreFed` | src/GeoFence.c:802-911 | over any history every alert follows a recorded perimeter detection of the same object, less than the valid duration old, with nothing of that object in between |
| `GeoFence.AlertsInject` | src/GeoFence.c:802-911 | no two alerts are fed by the same detection |
| `GeoFence.OneRecordPerObject` | src/GeoFence.c:802-911 | at most one record exists per MAC |
| `GeoFence.RecordsAllIff` | src/GeoFence.c:699-886 | a perimeter call leaves a new record for each of its objects if and only if it never comes to an object without a record after one with a record |
| `GeoFence.CallRecordsAllIff` | src/GeoFence.c:699-886 | the same as a condition on the list and the objects alone, for every list: if the first object has no record, once one is known by the records that are not stale all later ones must be; otherwise each must have a record that is not stale, or is an earlier object's, or has no earlier object's record behind it |
| `GeoFence.AheadMeans` | src/GeoFence.c:805-871 | what it means in that condition that one record is in front of another |
| `GeoFence.SecondObjectIsNotRecorded` | src/GeoFence.c:699-886 | a message with two objects, the second of which gets no record |
| `GeoFence.StaleObjectIsNotRecorded` | src/GeoFence.c:865-872 | a list and a message in which a stale record is dropped by the scan for an earlier object, so that its object gets no record although both are known |
| `GeoFence.LeftOutIsMissed` | src/GeoFence.c:802-911 | an object left out in this way crosses the fence without the alert that it should raise |
| `GeoFence.ExpiryIsInvisible` | src/GeoFence.c:822-872 | for a nondecreasing clock the monitor does exactly what one does that never drops a record, if and only if every perimeter call finds a list that lets it record all its objects |
| `GeoFence.RunLags` | src/GeoFence.c:822-872 | otherwise the monitor's log is shorter than the other one's from then on |
| `GeoFence.RunFromStart` | src/GeoFence.c:545-649 | from its start the monitor makes the calls of its messages one after the other, so these theorems are about it |
| `GeoFence.ExpiryIsInvisibleForSingles` | src/GeoFence.c:822-872 | so it does for all histories in which perimeter messages have at most one object |
| `Wire.Tokenizer.StrtokSave` | import/BeDIS.c:628-653 | a call returns the first field of the remaining text in place, or NULL for an empty one, and saves the position behind it |
| `Wire.Tokenizer.Cut` | import/BeDIS.c:646-650 | `strtok_r`: the delimiter is overwritten and the rest of the buffer is untouched |
| `Wire.TokensAreFields` | import/BeDIS.c:628-653 | successive calls enumerate the fields of the text, NULL for an empty field and after the last |
| `Wire.SplitJoin` | import/BeDIS.c:628-653 | the fields of a text are the only delimiter-free texts that it joins |
| `Wire.AtoiOfPrint` | modules/BOT-Server-Lite/cmdServerIPC/cmdServerIPC.c:165-184 | a printed number is read back, and contains no delimiter |
| `Wire.ParsePacket` | src/Server.c:1646-1692 | the parser, which finds the rest of a message by adding field lengths, computes what the fields mean and drops a text without three first fields |
| `Wire.FrameRoundTrip` | src/Server.c:1569-1577 | a framed message is parsed back as it was, for every direction, type and content |
| `Wire.UnframeReads` | src/Server.c:1646-1692 | every text of three non-empty fields is read as their values and the text behind them, which may be missing |
| `Wire.UnframeFinds` | src/Server.c:1646-1692 | and every text that is read is of that form |
| `Wire.ReloadSettings` | src/GeoFence.c:457-542 | the reload parser decodes the fields and loads the lists the command names |
| `Wire.ProcessCommands` | src/Server.c:1378-1409 | a command is dispatched on its first field, without consuming the content |
| `Wire.LoadsIff` | src/GeoFence.c:480-539 | which lists a command message has loaded, and for which area, by the numbers in its four fields, both ways |
| `Wire.CommandRoundTrip` | modules/BOT-Server-Lite/cmdServerIPC/cmdServerIPC.c:156-190 | for every setting, scope and area id > 0 the tool's message arrives as a command that decodes to the same values and loads exactly what was asked for |
| `Wire.CommandSentIff` | modules/BOT-Server-Lite/cmdServerIPC/cmdServerIPC.c:156-190 | a reload command is sent if and only if the setting is positive and the area goes with the scope |
| `Wire.CommandsDiffer` | modules/BOT-Server-Lite/cmdServerIPC/cmdServerIPC.c:156-190 | different requests have different messages |
| `Wire.UnknownCommandIsDropped` | modules/BOT-Server-Lite/cmdServerIPC/cmdServerIPC.c:191-197 | an unknown command still sends a message, an empty one, which the server drops |
| `Pipeline.StepKeepsInv` | src/Server.c:1595-1791 | every step of the receiver, the scheduler and the workers keeps the ownership of nodes and what they carry |
| `Pipeline.EachNodeInOnePlace` | import/BeDIS.c:377-400 | in every reachable state each node that is out of the pool is at exactly one position of one list, with the receiver or the scheduler, in one queued or cleared job, with one worker, or refused by the pool |
| `Pipeline.OtherwiseFree` | import/Mempool.c:173-269 | every other slot is on the free list, once |
| `Pipeline.LeakIsBounded` | import/Mempool.c:237 | nodes that `mp_free` refuses are chunk bases, so at most ten are ever lost |
| `Pipeline.JoinResponses` | src/Server.c:1238-1308 | everything sent is the join response to a received join request, sent to its address and port; it is `2;2;2.2;0;` if the routine has accepted that request and `2;2;2.2;1;` if it has refused it; no request is answered twice |
| `Pipeline.EachPacketHandledOnce` | src/Server.c:1709-1787 | every received datagram is dealt with at most once, and only by the routine of the list for its direction and type; others by none |
| `Pipeline.RoutineKept` | src/Server.c:1311-1456 | each routine passes its node on, or gives it back, exactly once |
| `Pipeline.RoutedProper` | src/Server.c:1709-1787 | a routed node keeps what the later stages need of it, and none is routed to the two lists of nodes to send |
| `Pipeline.RoutedIff` | src/Server.c:1701-1787 | routing a received node makes it the last node of the list whose routine is for its datagram, and gives it back if and only if no routine is; all other lists stay |
| `Pipeline.SuitsByNumber` | src/Server.c:1701-1787 | which routine is for which packet, by the numbers of direction, type and list |
| `Pipeline.NothingIsLost` | src/Server.c:1595-1791 | in every reachable state each received datagram that some routine is for is on its way in one place, or has been dealt with (for a join request: its response is sent), or was dropped by the scheduler |
| `Pipeline.DroppedIff` | import/BeDIS.c:386-391 | only the scheduler drops a datagram, and then its node is given back |
| `Pipeline.ListsAreFifo` | import/BeDIS.c:377-400 | in every run nodes leave each list in the order in which they entered it |
| `Pipeline.ReceivedIff` | src/Server.c:1620-1697 | a datagram is lost on receipt only when the pool is exhausted; otherwise a node that was free carries its address, port and fields |
| `Pipeline.TakesOldest` | import/BeDIS.c:377-384 | the scheduler takes the first node of a list |
| `Pipeline.SubmitsJob` | import/BeDIS.c:393-400 | the node is pushed as the argument of a job for the routine of its list |
| `Pipeline.FinishedIff` | src/Server.c:1238-1456 | what a routine leaves behind: a join request becomes the response to the same address and port, with `0;` if it was accepted and `1;` if not, at the tail of the nodes to send; every other node is given back |
| `Pipeline.ReplyIsProper` | src/Server.c:1555-1592 | what is sent for a node in the join-send list is the framed response |

## Left out

- Sockets, files, logging, SQL text, SMS, configuration loading and thread creation: they are input or output.
- The database connection pool, the gateway address map (its answer to a join request is an input), the reload of geo-fence lists and the doubling of the area table: each is easier than what is modelled.
- `mp_destroy`, the truncation of pointers to `int` in `mp_free`, and the alignment of chunks: addresses are mathematical integers.
- The Adler-32 hash: it is an arbitrary function of the key.
- Time stamps in text form: they are integers. Floating point: coordinates are real numbers, so rounding is not modelled.
- 32-bit overflow of numbers in messages: `Atoi` is mathematical.
- The lock of a single row and the two orders in which put and summary take locks: each table operation is one step, and nothing is claimed about deadlock.
- The unlocked first scan of the area table, and the choice of a table by area.
- A row is a value stored in its node, so a pointer to a row that outlives its entry is not modelled.
- Allocation failures inside the hash table and the geo-fence monitor, and the ignored return code of `thpool_add_work`: allocation succeeds there. Exhaustion of the node pool is modelled.
- The pool that the jobs of the thread pool come from: a job is a value there, and `Mempool.dfy` covers that pool by itself.
- The splitting of a tracking report into sightings: `GeoFence.dfy` and `HashTable.dfy` start from the sightings.
- The repeated attempts to get a node for a datagram (src/Server.c:1622-1628): one attempt is one step, which may happen again.
- Packets longer than the message buffer. The API version of a node is kept as text, not as a `float`.
- The area id that the geo-fence monitor reads from the first four characters of a beacon's UUID: it is part of the message.
- ThreadPool.EveryRunDrainsQueue: bounds the helpful steps of every run and says that one stays enabled while jobs are queued; that the operating system lets some thread take it is not part of the model. The same holds of ThreadPool.EveryShutdownEnds.
- Pipeline.EachNodeInOnePlace: a routine's last action and its return are one step, and the scheduler may take any list and drop any node; the order and the age test of its scans are in `CommUnit.dfy`.
- GeoFence.Monitor.ScanViolations: one database result is given for each scan; with one record per MAC at most one is asked for.
- The log line that `Server_NSI_routine` writes after it has put its node in the send list (src/Server.c:1305): it reads the node's address, and another worker may have sent and freed the node by then. A routine's end is one step in `Pipeline.dfy`, so this race is not in the model.
- The mutexes of the packet queue, the memory pool and the lists: each call on one of them is one step.
