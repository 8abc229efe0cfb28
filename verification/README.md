# ZNWorkload: a model of the zoned cache and proofs about it

ZNWorkload answers requests for 32-bit identifiers from a cache kept on zoned storage. A request looks its
identifier up in the cache map; on a hit it reads the chunk from disk, on a miss it takes a write location from the
zone state manager, writes one chunk there and publishes the location. Full zones (or single chunks) are evicted in
the order of their last use, by an eviction thread and by any request that finds no room. This project models those
parts and proves that they fit together.

The model has two layers.

* **One request at a time, in place.** Classes with the fields of the C structures: `ZoneState.ZoneStateManager`,
  `CacheMap.Map`, `Promotional.PromotionalPolicy`, `MinHeap.Heap`, `ChunkPolicy.Policy`, the block loop of
  `Disk.WriteOut` over an array of bytes, and the two compositions `Cache.PromotionalCache` and `ChunkCache.Cache`.
  Each method that changes state is proved against a function of the old state (`Abs`, `View`, `Queue`); the
  invariants joining several objects are value-level predicates (`Coherence.Consistent`, `ChunkAgreement.Joined`).
  `Cache.PromotionalCache.Get` and `ChunkCache.Cache.Get` answer whole requests from every state between two requests,
  whatever the device does. They say what the zone states, the map, the queue and the history of its uses are
  afterwards, so that statements about sequences of requests follow; an outcome of their own stands for a failed
  assertion, a null pointer that is followed and a request that never ends.
* **Any number of threads.** `Protocol.Apply` cuts requests and evictions into the steps that one lock, one atomic
  operation or one device command makes indivisible. Every sequence of steps is a run (`Protocol.Exec`): a step its
  thread cannot take leaves the state alone, and a failing assertion of the program sets `aborted`. The steps use the
  same functions that the classes are proved against. Theorems are stated about `Exec(cfg, steps)` for all `steps`.

The files, in reading order: `ZnTypes`, `Lru`, `Promotional`, `ZoneState`, `CacheMap`, `Buffers`, `Disk` (the parts);
`Protocol`, `StepEffects`, `ZoneOwnership`, `FillOwnership`, `Interleavings`, `FineRuns`, `EvictionOrder`, `ZoneOrder`,
`Sleepers`, `Completion`, `Requests`, `FailingRuns`, `Transparency`, `Publication`, `HitHistory`, `AtomicRuns`,
`SplitTail` (threads); `SingleRequest`, `Coherence`, `Cache`, `PromotionalRuns` (promotional policy, one request at a
time); `MinHeap`, `ChunkPool`, `ChunkAgreement`, `ChunkMiss`, `ChunkPolicy`, `ChunkCache`, `ChunkRuns` (chunk policy, one
request at a time).

## What was found about the code

* **The tail of a miss is not atomic.** `zn_cache_get` hands back the zone, updates the policy and inserts the mapping
  under three locks (src/cache.c:129-133). If the zone fills up and an evictor clears it in between, the insert publishes
  a location in a zone that was or will be reset, although src/cache.c:33-34 says that no thread creates such entries.
  `SplitTail` gives a run in which every device command succeeds, no assertion fails, and a request is answered with
  another identifier's bytes. `Publication.IntactExactly` gives the exact condition on the schedule: the chunk is intact
  at its insert if and only if its zone was not cleared since the thread handed it back. `IntactRun` names the runs in
  which that holds at every insert; the data theorems are about those, and `AtomicRuns` states them without a hypothesis
  on the schedule for runs whose tail is one step (`Commit`).
* **Identifiers from 2^31 on fail an assertion when evicted.** `zn_cachemap_clear_zone` and `zn_cachemap_clear_chunk`
  read the identifier back as an `int` and convert it to a pointer, which sign-extends it, so the entry stored under
  the unsigned identifier is not found. `CacheMap.KeySurvivesClearing` is the condition on one entry and
  `FailingRuns.UpperHalfAborts` a run.
* **A zone the device fails to finish stays in the eviction queue** (src/zone_state_manager.c:254-260) and its eviction
  later fails the assertion that it is full; a zone the device fails to open is in no queue any more
  (src/zone_state_manager.c:196-203). `FineRuns.FailuresExactly` traces both states to the failing command, and
  `FailingRuns.UnfinishedAborts` and `FailedOpenLoses` are runs. When every zone was lost, a miss asks for evictions for
  ever: `Cache.PromotionalCache.Get` says exactly when, and `PromotionalRuns.LoseEveryZone` gets there from an empty
  cache.
* **A failed reset runs into an assertion**, because `zsm_evict` tests the result the wrong way round
  (src/zone_state_manager.c:279-287); `FailingRuns.FailedResetAborts` is a run.
* These are all: `FineRuns.AssertionsThatFail` says exactly which steps of which runs fail an assertion.
* **`EVICT_LOW_THRESH_ZONES - free_zones` wraps** when more than four zones are free (src/cache.c:20); the loop then
  evicts everything in the queue (`Cache.PromotionalCache.FgEvict`).
* **With fewer than 12 chunks on the disk** the chunk policy asks for more chunks than the queue holds and follows a null
  pointer (src/eviction/chunk.c:173-179); `ChunkPool.EvictArithmetic` is the exact condition, `ChunkCache.Cache.EvictMany`
  faults exactly then or at an identifier from 2^31 on, and `ChunkRuns.FillOneZone` gets there from an empty cache.
* **Under the chunk policy a miss may never end.** When no zone is active or free and the policy still counts more than
  six free chunks, it declines every eviction and the request asks again for ever. `ChunkCache.Cache.Get` says exactly
  when; with at least twelve zones of one chunk, `ChunkRuns.StarveOneChunkZones` gets there from an empty cache.
* **Under the chunk policy a miss may not survive its collection.** When fewer than four zones have no other chunk in use
  than those evicted, the collection goes on to an empty heap, whose null entry it follows, or to a zone with live chunks
  (src/eviction/chunk.c:98-140). It fails an assertion if no zone is left to move those to. Otherwise it would publish
  them under identifier 0, since src/zone_state_manager.c:218-221 leaves the identifier of a location zero, and fails an
  assertion unless 0 is being filled; and if it is, the request filling 0 can no longer publish its own chunk
  (`ChunkMiss.MovedUnderZero`). `ChunkMiss.OutcomeOf` computes which of these happens from the state before the miss,
  `ChunkCache.Cache.Get` comes to exactly that, and `ChunkRuns.FillOneZone` and `FillTwoZones` reach each of them from an
  empty cache.
* **A block write that fails after part of the chunk was written** leaves the device's write pointer inside the chunk,
  while the cache will write the chunk again from its start; `Coherence.SyncAfterFailure` says exactly when, and
  `PromotionalRuns.WriteTwice` is a request whose write starts beside the write pointer.

## Assumptions

Zones, active zones and chunks per zone are counted in 32 bits, there is at least one of each, and there are fewer
than 2^31 zones (the C code keeps zone numbers in `int`). A chunk is a multiple of 4096 bytes, no larger than the zone
capacity, which is no larger than the zone size, and the disk is addressed in 64 bits. `active_readers` starts at zero
(src/cache.c:165 does not clear it) and `pqueue_entry` at null (src/eviction_policy.c:93-98 does not set it;
architecture.md:12 says so). `zn_cachemap_find` copies its entry while it still holds the lock (src/cachemap.c:64-65
copies it after). The outcome of a device command is a parameter of the step or method. A block write either reaches the disk
as a whole or not at all, and the flush after it may fail. History variables (`uses`, `lastGen`, `hits`, the ghost fields of the
classes) record runs and influence nothing.

## Model

| member | source | states |
|---|---|---|
| Transparency.HitsReturnLastGenerated | src/cache.c:58-82 | in every run that publishes only intact chunks (`IntactRun`), with any number of readers, writers and evictors and whatever the device does, every request answered from the cache got the bytes last generated for its identifier when it was found |
| HitHistory.HitsAreTransparent | src/cache.c:47-82 | in an `IntactRun`, without history variables: each answer is given by a thread that has been reading since a lookup of its own that found the identifier located, and consists of the bytes the steps before that lookup had generated last for it |
| HitHistory.HitsValidate | src/cache.c:289-305 | in an `IntactRun` in which all requests pass the same remote data, every hit passes the read validation |
| Transparency.ReaderSeesPromise | src/cache.c:58-71 | in an `IntactRun`, from lookup to decrement the reader's chunk holds the promised bytes, also when its zone is cleared mid-read |
| Transparency.MapTellsTheTruth | src/cache.c:103-133 | in an `IntactRun`, what the map locates is on disk as last generated, in a written chunk, and indexed by its zone |
| Publication.IntactExactly | src/cache.c:128-133 | in an `IntactRun`, a thread between hand-back and insert still holds an intact chunk if and only if no evictor cleared its zone since the hand-back |
| Publication.IntactRunExactly | src/cache.c:128-133 | a run is an `IntactRun` if and only if no thread inserts a location whose zone was cleared since it handed the zone back |
| Publication.UndisturbedRunsAreIntact | src/cache.c:33-34 | among them are all runs in which no zone is cleared while a thread is between hand-back and insert with a chunk of it |
| Transparency.AtomicRunsAreIntact | src/cache.c:128-133 | runs whose miss tails are single steps only publish intact chunks |
| Transparency.IntactRunKeepsData | src/cache.c:47-149 | the data invariant holds in every state of every `IntactRun` |
| SplitTail.StaleHit | src/cache.c:28-35 | a run with the tail split, without device failure or failing assertion, that answers a request with another identifier's bytes |
| AtomicRuns.AtomicHits | src/cache.c:58-82 | in every run whose tails are single steps, whatever the schedule and the device, every hit got the bytes last generated at its lookup, in both formulations |
| AtomicRuns.AtomicHitsValidate | src/cache.c:289-305 | in every such run with the same remote data every hit passes the read validation |
| AtomicRuns.AtomicReaders | src/cache.c:58-71 | in every such run a reader's chunk holds the promised bytes until the decrement |
| AtomicRuns.AtomicMap | src/cache.c:103-133 | in every such run the map locates only chunks that hold the bytes last generated |
| AtomicRuns.AtomicClearing | src/cachemap.c:161-186 | in every such run a cleared zone stays unmapped and gains no reader until its reset |
| AtomicRuns.AtomicReset | src/cache.c:28-35 | in every such run a reset finds no reader and no mapping |
| Transparency.ReadersAreCounted | src/cachemap.c:62-65 | in every run `active_readers[z]` is the number of threads between lookup and decrement on z |
| Transparency.ClearedStaysCleared | src/cachemap.c:161-186 | in an `IntactRun`, once a zone is cleared and until it is reset nothing is located in it and no step makes a new reader of it |
| Transparency.ResetFindsNoReader | src/cache.c:28-35 | in an `IntactRun`, when a zone is reset no thread reads it and nothing is located in it |
| FineRuns.OneFillerPerId | src/cachemap.c:68-80 | in every interleaving an identifier is pending if and only if some thread owns its fill, and then exactly one does |
| FineRuns.NoLostWakeup | src/cachemap.c:53-59 | every thread still asleep waits on the condition of the entry now pending for its identifier, which another thread is filling |
| Sleepers.LookupComesTo | src/cachemap.c:44-80 | in every run a lookup, or a waiter that woke up, sleeps on the entry's condition if some thread fills the identifier, reads at its location if it is located, and becomes its filler otherwise |
| Sleepers.SleepsUntilFilled | src/cachemap.c:53-59 | in every run a sleeping thread does nothing and sleeps on until the fill of its identifier ends or it wakes up spuriously |
| FineRuns.ConditionLifetime | src/cachemap.c:53-80 | a condition variable exists exactly while its entry is pending or somebody waits on it, and its count is the number of those |
| FineRuns.NoUseAfterFree | src/cachemap.c:32-35 | once a condition variable was freed, no step of any continuation waits on it, signals it or drops a reference to it |
| FineRuns.ZonePartition | src/zone_state_manager.c:170-228 | in every interleaving, whatever the device does: queue membership matches conditions, no zone is queued twice or held by two writers, and active plus writing zones stay within the cap |
| FineRuns.NoZoneLost | src/zone_state_manager.c:238-311 | while zone commands succeed every zone is in exactly one of: free queue, active queue, one writer, eviction queue, one thread filling or evicting it |
| FineRuns.VictimOwnership | src/eviction/promotional.c:57-77 | a popped zone not yet reset is full, not in the queue, and belongs to exactly one evictor |
| EvictionOrder.VictimIsOldest | src/eviction/promotional.c:57-77 | in every run an evictor that asks for a zone is handed the one whose last fill or read is oldest, by a history read off the steps of the run (a zone is filled when the policy hears of its last chunk, read when a reader tells the policy, given up when an evictor comes by it); it gets none if and only if no zone is in use |
| EvictionOrder.UsesAreRecorded | src/eviction/promotional.c:11-55 | the uses recorded in the state are that history in every run |
| EvictionOrder.QueueInOrder | src/eviction/promotional.c:26-42 | in every run the queue holds exactly the zones in use by that history, oldest last use first |
| ZoneOrder.ZonesInLine | src/zone_state_manager.c:213-268 | in every run, whatever the device does, the active queue holds the zones handed back with chunks left to write in the order of their hand-backs, after a write or a failed one, and the free queue the zones reset in the order of their resets, by histories read off the steps |
| ZoneOrder.WrittenExactly | src/zone_state_manager.c:251-264 | in every run a zone's offset is the number of chunks handed back as written since its last reset |
| ZoneOrder.AllocateComesTo | src/zone_state_manager.c:170-228 | in every run a request for a place is given the next chunk of the zone handed back longest ago; with none active, the first chunk of the zone free longest, as long as fewer threads hold a place than zones may be open; it gives up if and only if the device does not open that zone, evicts if and only if no zone is active, free or held, and asks again otherwise |
| FineRuns.QueuedZonesAreFull | src/eviction/promotional.c:28-31 | while zone commands succeed every zone in the eviction queue is full, and none is in it twice |
| FineRuns.NoAssertionFails | src/cache.c:16-149 | no assertion fails in any run whose zone commands succeed and whose identifiers are below 2^31 |
| FineRuns.AssertionsThatFail | src/cachemap.c:161-186 | in any run at all a step fails an assertion if and only if it clears a zone indexing an identifier of at least 2^31, resets a zone whose last chunk some earlier step handed back while the device failed to finish it, or resets a zone while the device fails to |
| FineRuns.VictimIsFullExactly | src/zone_state_manager.c:277 | a zone about to be reset is full if and only if no earlier step failed to finish it |
| FineRuns.FailuresExactly | src/zone_state_manager.c:185-268 | in any run a zone has all chunks written without being full if and only if some step failed to finish it, and is free in no queue if and only if some step failed to open it |
| FineRuns.ClearFailsExactly | src/cachemap.c:170-181 | clearing a zone passes its assertions if and only if the zone indexes no identifier of at least 2^31 |
| FineRuns.FineRun | src/cache.c:47-149 | the invariant joining map, condition variables, zone states, queue and threads holds in every state of every run |
| Completion.EveryRunCompletes | src/cache.c:47-149 | every run with succeeding zone commands and identifiers below 2^31 has a continuation in which commands succeed, no assertion fails, nobody starts anything new, and after which every thread is idle |
| Requests.RequestsEnd | src/cache.c:47-149 | in every run a thread that is busy with an identifier was called for it while idle and has been busy with it since; when a step makes it idle, it has located the identifier, read there and told the policy, in this order, and the answers grow by what it read, or by nothing if the read failed; or it has written a chunk and the identifier is located there; or a write of its own or the opening of its zone failed since the call, and the identifier is not mapped |
| Requests.EveryRequest | src/cache.c:47-149 | in every run the same facts hold of what lies behind each phase of a request under way |
| Requests.NothingGivenUp | src/cache.c:142-147 | in every run whose zone commands and writes succeed no request gives its entry up |
| Requests.EveryRequestIsServed | src/cache.c:47-149 | every run with succeeding zone commands and identifiers below 2^31 has a continuation without new calls in which every request under way, unless a command of its own had failed, is answered or located |
| FailingRuns.UpperHalfAborts | src/cachemap.c:161-186 | a run with succeeding device in which identifier 2^31 fails an assertion |
| FailingRuns.UnfinishedAborts | src/zone_state_manager.c:254-260 | a run in which only finishing a zone fails, and its eviction fails an assertion |
| FailingRuns.FailedResetAborts | src/zone_state_manager.c:279-287 | a run in which only a reset fails, and so does an assertion |
| FailingRuns.FailedOpenLoses | src/zone_state_manager.c:196-203 | a zone the device failed to open is in no place in any continuation |
| Lru.OrderedAfterFill | src/eviction/promotional.c:28-31 | after a fill the queue is still sorted by last use |
| Lru.OrderedAfterTouch | src/eviction/promotional.c:32-42 | moving a node in place keeps the queue sorted by last use, and a touch of a key without a node changes nothing |
| Lru.OrderedAfterPop | src/eviction/promotional.c:65-71 | popping the head keeps the queue sorted by last use |
| Lru.TouchKeepsInv | src/eviction/promotional.c:34-42 | following the table reaches no freed node, and table and queue keep describing the same nodes |
| Lru.HeadIsOldest | src/eviction/promotional.c:70-71 | the head is the key whose last use is oldest |
| Lru.IndexOf | src/eviction/promotional.c:36-37 | the node at an address is found where it is linked |
| Promotional.UpdateTracks | src/eviction/promotional.c:11-55 | an update keeps the queue equal to the reference order, for fills of a zone that is not queued and for all reads |
| Promotional.PromotionalPolicy.UpdatePolicy | src/eviction/promotional.c:11-55 | the object's update is the specified one and keeps the timestamp order |
| Promotional.PromotionalPolicy.GetZoneToEvict | src/eviction/promotional.c:57-77 | none if and only if the queue is empty; otherwise the zone whose last use is oldest, removed from queue and table |
| Promotional.PromotionalPolicy.constructor | src/eviction_policy.c:53-73 | the policy starts with an empty queue and table |
| ZoneState.GetActiveInv | src/zone_state_manager.c:170-228 | allocation passes its assertions, keeps the invariant and the cap, and loses a zone only when the device fails to open it |
| ZoneState.ReturnActiveInv | src/zone_state_manager.c:238-268 | handing back passes its assertions, keeps the invariant, and seals the zone exactly after its last chunk |
| ZoneState.FailedToWriteInv | src/zone_state_manager.c:293-311 | undoing an allocation passes its assertions and keeps the invariant |
| ZoneState.EvictZoneInv | src/zone_state_manager.c:270-291 | evicting a full zone keeps the invariant |
| ZoneState.GetActiveTurns | src/zone_state_manager.c:190-224 | the place handed out lies in the active zone that joined the queue first or, with none active, in the free zone that did, and exactly that zone leaves |
| ZoneState.ReturnActiveTurns | src/zone_state_manager.c:254-264 | a zone handed back with chunks left joins the active queue last |
| ZoneState.FailedToWriteTurns | src/zone_state_manager.c:293-311 | so does one whose write failed |
| ZoneState.EvictZoneTurns | src/zone_state_manager.c:66-92 | a zone that was reset joins the free queue last |
| ZoneState.AtMostOnePlace | src/zone_state_manager.c:104-130 | free, active, being written and finished exclude each other |
| ZoneState.ZoneStateManager.constructor | src/zone_state_manager.c:132-168 | all zones start free, queued in order |
| ZoneState.ZoneStateManager.GetActiveZone | src/zone_state_manager.c:170-228 | new state and answer are the specified ones; the place handed out lies in the zone that joined its queue first, whatever put the queues in order |
| ZoneState.ZoneStateManager.OpenZone | src/zone_state_manager.c:104-130 | opens exactly below the cap and with the device, and otherwise changes nothing |
| ZoneState.ZoneStateManager.CloseZone | src/zone_state_manager.c:20-56 | a zone becomes full unless the device fails; a full zone stays so |
| ZoneState.ZoneStateManager.ReturnActiveZone | src/zone_state_manager.c:238-268 | new state and answer are the specified ones; a zone with chunks left joins the active queue last |
| ZoneState.ZoneStateManager.FailedToWriteZone | src/zone_state_manager.c:293-311 | new state is the specified one; the zone joins the active queue last |
| ZoneState.ZoneStateManager.ResetZone | src/zone_state_manager.c:66-92 | a zone becomes free and is queued unless it is free already or the device fails |
| ZoneState.ZoneStateManager.Evict | src/zone_state_manager.c:270-291 | passes its assertions if and only if the zone is full and the device resets it, and then the new state is the specified one and the zone joins the free queue last |
| ZoneState.ZoneStateManager.NumActiveZones | src/zone_state_manager.c:313-319 | active and being-written zones together, never above the cap |
| ZoneState.ZoneStateManager.NumFullZones | src/zone_state_manager.c:329-342 | the size of the set of full zones |
| CacheMap.KeySurvivesClearing | src/cachemap.c:140-148 | an indexed identifier passes the clearing assertions if and only if it is below 2^31 |
| CacheMap.SignedKeyWraps | src/cachemap.c:140 | the key an identifier comes back as is the one signed 32-bit number congruent to it modulo 2^32 |
| CacheMap.InsertKeepsSound | src/cachemap.c:104-129 | publishing anywhere keeps the index sound |
| CacheMap.InsertKeepsMirror | src/cachemap.c:104-129 | publishing at an unmapped chunk keeps map and index mutually inverse |
| CacheMap.ClearZoneRemoves | src/cachemap.c:161-186 | clearing a zone removes exactly the identifiers indexed there and keeps map and index inverse |
| CacheMap.ClearChunkRemoves | src/cachemap.c:131-159 | clearing a chunk removes exactly the identifier located there and keeps map and index inverse |
| CacheMap.LookupKeepsIndex | src/cachemap.c:37-101 | a lookup keeps map and index as they agree |
| CacheMap.FailKeepsIndex | src/cachemap.c:188-203 | giving up a fill keeps map and index as they agree |
| CacheMap.Map.FindTurn | src/cachemap.c:44-80 | one turn of the lookup loop is the specified one: hit and count, wait and take a reference, or become the writer |
| CacheMap.Map.InsertEntry | src/cachemap.c:104-129 | the new map is the specified one |
| CacheMap.Map.FailEntry | src/cachemap.c:188-203 | the new map is the specified one |
| CacheMap.Map.ClearChunkEntry | src/cachemap.c:131-159 | passes its assertions if and only if the specified condition holds, and then the new map is the specified one |
| CacheMap.Map.ClearZoneEntries | src/cachemap.c:161-186 | in whatever order the table is walked, all assertions pass if and only if the specified condition holds, and then the result is the specified map |
| CacheMap.Map.constructor | src/cachemap.c:13-30 | the map, every index and every reader count start empty |
| Buffers.ValidatesExactly | src/cache.c:289-305 | a read validates if and only if it is what would be written for that identifier |
| Buffers.IdRoundTrip | src/cache.c:280-282 | the identifier read back from a chunk is the one written |
| Buffers.BytesRoundTrip | src/cache.c:291-292 | and so are its bytes |
| Disk.ValidateRead | src/cache.c:289-305 | the byte-by-byte comparison accepts exactly the bytes that would be written |
| Disk.ChunkInOwnZone | include/znutil.h:21-22 | the address of a chunk does not wrap and its bytes lie within its zone's capacity |
| Disk.ChunksDisjoint | include/znutil.h:21-22 | different chunks share no byte |
| Disk.OverwriteOneChunk | src/cache.c:108-113 | a write within one chunk leaves every other chunk as it was |
| Disk.WriteOut | src/cache.c:250-271 | the block loop changes exactly the addressed range, up to the failing block, and succeeds if and only if no block fails |
| Disk.ReadChunk | src/cache.c:227-248 | a full read returns exactly the chunk's bytes, a short one nothing |
| Coherence.SyncAfterReturn | src/zone_state_manager.c:251-264 | after a whole chunk the next chunk starts at the device's write pointer |
| Coherence.SyncAfterFailure | src/cache.c:119-122 | after a failed write it does if and only if nothing reached the disk |
| Coherence.WhenToEvict | src/zone_state_manager.c:181-211 | at rest the allocator never asks to retry and asks for an eviction if and only if no zone is active or free; if no zone was lost, if and only if all are written to the end, if and only if the queue holds all |
| Coherence.AllocationKeeps | src/zone_state_manager.c:213-224 | a location handed out is unmapped, and mapped chunks stay exactly the written ones |
| Coherence.CommitKeeps | src/cache.c:128-133 | the tail of a miss keeps zone states, map, queue and disk in agreement, also when finishing the zone fails |
| Coherence.UndoKeeps | src/cache.c:142-147 | undoing a failed write keeps them in agreement |
| Coherence.EvictKeeps | src/cache.c:28-38 | evicting the zone at the head of the queue keeps them in agreement, if it can be evicted |
| Coherence.ClearanceExactly | src/cachemap.c:170-181 | clearing a zone passes its assertions if and only if its index lists no identifier of at least 2^31 |
| Coherence.FailureStays | src/cache.c:20-38 | evictions before it do not decide whether the next eviction of the loop fails |
| Coherence.LocatedCount | src/cachemap.c:103-129 | as many identifiers are located as chunks are written over all zones |
| Coherence.QueueOfAll | src/eviction/promotional.c:28-31 | with no zone active or free and none lost, the queue holds each zone once |
| Coherence.ShortfallExactly | src/cache.c:20 | the unsigned shortfall is the true one if and only if at most four zones are free, and otherwise exceeds the number of zones |
| Coherence.SurplusTakesAll | src/cache.c:20 | with more than four free zones the unsigned shortfall exceeds the queue's length |
| SingleRequest.LookupSettles | src/cachemap.c:44-80 | between two requests a lookup hits what is mapped and otherwise starts a fill; no other entry changes |
| Cache.PromotionalCache.constructor | src/cache.c:151-199 | the cache starts in agreement, at rest and in step with the device |
| Cache.PromotionalCache.EvictOne | src/cache.c:21-38 | one turn of the eviction loop: the queue is empty, or an assertion fails because the oldest zone holds an identifier of at least 2^31, is not full or is not reset, or that zone is popped, cleared, freed and reset, its write pointer goes back to its start, and nothing else changes |
| Cache.PromotionalCache.FgEvict | src/cache.c:16-39 | evicts the oldest zones in order, as many as the unsigned shortfall says or the queue holds, and everything when more than four zones are free; exactly what they held is gone, and the rest of the queue keeps its order; fails an assertion if and only if one of those zones does |
| Cache.PromotionalCache.Allocate | src/cache.c:85-101 | the retry loop ends within two turns, having evicted min(queue length, 4) oldest zones if no zone was active or free and none otherwise, and hands out what the zone state manager hands out after exactly those evictions; it never ends if and only if the queue is empty then, and fails an assertion if and only if one of those evictions does |
| Cache.PromotionalCache.WriteChunk | src/cache.c:103-122 | on success the chunk holds the identifier and the remote data; the write pointer moves by what reached the disk, and the record of sequential writes says whether the write started at it |
| Cache.PromotionalCache.Commit | src/cache.c:128-133 | new zone states and map are the specified ones |
| Cache.PromotionalCache.Undo | src/cache.c:142-147 | new zone states and map are the specified ones |
| Cache.PromotionalCache.Serve | src/cache.c:58-82 | a hit returns the bytes last generated and drops the reader again |
| Cache.PromotionalCache.FillAt | src/cache.c:103-147 | the entry is located at the place and the zone handed back as written, or the entry removed and the place given back; the zone enters the queue and the history exactly with its last chunk; the device stays in step unless part of a chunk was written |
| Cache.PromotionalCache.Get | src/cache.c:47-149 | hit and miss in full, for every identifier, device behaviour and state between two requests. Afterwards: the returned bytes; the history, which is the old one, then the evictions of the victims, then the fill if the zone was sealed; the queue, which is the old one without the victims and with that zone at its end; the zone states, which are those of freeing the victims, allocating the place and handing it back; what is mapped; the write pointers. Exactly when the request aborts and exactly when it never ends |
| Cache.PromotionalCache.CacheSize | src/eviction_policy.c:136-142 | the reported size is the number of zones written to the end times the zone capacity |
| PromotionalRuns.LoseEveryZone | src/cache.c:85-101 | from an empty cache, after as many misses as there are zones whose zone the device does not open, the next miss is never answered |
| PromotionalRuns.WriteTwice | src/cache.c:250-271 | from an empty cache, a write that fails after its first block returns nothing, and the next request for the identifier returns its bytes with a write that did not start at the device's write pointer |
| MinHeap.SwapUp | src/minheap.c:26-37 | swapping with a larger parent leaves the heap broken only above the parent |
| MinHeap.SwapDown | src/minheap.c:64-74 | swapping with the smallest child leaves it broken only below the child |
| MinHeap.RootIsLeast | src/minheap.c:162-163 | the root is no larger than any entry |
| MinHeap.LastToRoot | src/minheap.c:165-169 | moving the last entry to the root breaks order only below it and drops exactly the old root |
| MinHeap.ChangeOne | src/minheap.c:193-202 | lowering a priority breaks order only above, raising it only below |
| MinHeap.Heap.BubbleUp | src/minheap.c:22-42 | repairs a heap broken only above a node, keeps members, priorities and back-indices, changes nothing in an ordered heap, in at most log2(size) swaps |
| MinHeap.Heap.BubbleDown | src/minheap.c:47-79 | the same for a heap broken only below a node |
| MinHeap.Heap.SmallestOf | src/minheap.c:50-62 | picks the smallest of node and children; the child positions do not wrap in 32 bits |
| MinHeap.Heap.Grow | src/minheap.c:9-17 | doubles the array and keeps the contents |
| MinHeap.Heap.Insert | src/minheap.c:124-150 | adds exactly the new entry, also across a doubling, and keeps all back-indices |
| MinHeap.Heap.ExtractMin | src/minheap.c:152-177 | null if and only if empty; otherwise removes exactly one entry of least priority, whose index is 0 |
| MinHeap.Heap.UpdateByEntry | src/minheap.c:182-206 | changes exactly a member's priority; behind a handle that was extracted at any time before, array and contents stay as they are |
| MinHeap.Drain | tests/minheap.c:84-109 | draining yields every entry once, in order of priority |
| ChunkPool.SetUseCounts | src/eviction/chunk.c:36-41 | marking a chunk keeps each zone's counter equal to its number of chunks in use |
| ChunkPool.QueueCounts | src/eviction/chunk.c:155-156 | the queue is as long as all counters together and no longer than the disk has chunks |
| ChunkPool.EvictArithmetic | src/eviction/chunk.c:155-173 | the unsigned subtractions do not wrap, and the queue suffices if and only if the disk has at least 12 chunks |
| ChunkPool.LeastIsFewest | src/eviction/chunk.c:90-94 | a least entry is a filled zone with fewest chunks in use, and dead if and only if some zone is |
| ChunkPool.HeapHasRoom | src/eviction/chunk.c:47-53 | the heap never holds more entries than there are zones |
| ChunkAgreement.Bijection | src/cachemap.c:131-159 | identifiers in the map and chunks in use correspond one to one |
| ChunkAgreement.FillKeeps | src/cache.c:128-133 | the tail of a miss keeps zone states, map, pool and heap in agreement, also when finishing the zone fails |
| ChunkAgreement.LookupJoins | src/cachemap.c:37-101 | so does a lookup, and what it hits is in use |
| ChunkAgreement.AllocationJoins | src/zone_state_manager.c:170-228 | so does an allocation; the chunk handed out is not in use and its zone not in the heap |
| ChunkAgreement.UndoJoins | src/zone_state_manager.c:293-311 | so does undoing one |
| ChunkAgreement.EvictChunkKeeps | src/eviction/chunk.c:178-195 | evicting a chunk passes its assertions if and only if its identifier is below 2^31, and then keeps them in agreement |
| ChunkAgreement.ReclaimKeeps | src/eviction/chunk.c:141-144 | so does reclaiming a dead zone |
| ChunkAgreement.DeadIsUnmapped | src/eviction/chunk.c:141-143 | nothing is mapped into a zone without chunks in use, so clearing it changes nothing |
| ChunkMiss.DeadAfterEviction | src/eviction/chunk.c:178-195 | after an eviction the dead zones are exactly those in the heap that had no chunk in use but the evicted ones |
| ChunkMiss.FaultStays | src/eviction/chunk.c:178-195 | evictions before it do not decide whether the next one faults |
| ChunkMiss.CollectionStops | src/eviction/chunk.c:90-146 | a collection comes to a zone that is not dead, or to an empty heap, only after all dead zones, and which of the two is decided by the zones in the heap before; it stops at a dead zone only if that one is not full or not reset |
| ChunkMiss.MissComposes | src/cache.c:73-149 | lookup, evictions, allocation and fill together leave the zone states, map, queue and history of a whole miss |
| ChunkMiss.MovedUnderZero | src/eviction/chunk.c:122 | once a moved chunk is published under identifier 0, the request filling 0 can neither publish nor give up its entry any more |
| ChunkPolicy.SetUpPool | src/eviction_policy.c:95-109 | every chunk starts out of use with a table entry and no node |
| ChunkPolicy.Policy.Update | src/eviction/chunk.c:14-77 | a write puts exactly its chunk into use at the tail of the queue and, with the last chunk, exactly its zone into the heap; a read moves the chunk to the tail; both are recorded in the history |
| ChunkPolicy.Policy.DropChunk | src/eviction/chunk.c:179-191 | gives up the chunk used longest ago and lowers its zone's priority, whether the zone's handle is null, stale or in the heap |
| ChunkPolicy.Policy.PopChunk | src/eviction/chunk.c:179-184 | the popped chunk is the one whose last use is oldest |
| ChunkPolicy.Policy.TakeVictim | src/eviction/chunk.c:90-102 | takes a zone with fewest chunks in use off the heap and finds out whether it has any; it has none if and only if some zone in the heap had none |
| ChunkPolicy.Policy.CacheSize | src/eviction_policy.c:144-147 | the reported size is the number of chunks in use times the chunk size |
| ChunkCache.Cache.constructor | src/eviction_policy.c:76-126 | the cache starts at rest with all parts in agreement |
| ChunkCache.Cache.Find | src/cachemap.c:44-80 | between two requests a lookup hits a chunk in use, of which the request counts as a reader, or starts a fill; nothing else changes and the parts stay in agreement |
| ChunkCache.Cache.Read | src/cache.c:64-71 | a hit moves its chunk to the tail and drops the reader |
| ChunkCache.Cache.AskForZone | src/zone_state_manager.c:170-228 | between two writes the allocator never asks to retry, asks for an eviction if and only if no zone is active or free, and hands out a chunk some write holds |
| ChunkCache.Cache.CommitChunk | src/cache.c:128-133 | new zone states, map and queue are the specified ones and agree |
| ChunkCache.Cache.Settle | src/cache.c:119-147 | a written chunk is mapped, newest in the queue and recorded in the history, and its zone handed back as written; a failed one is given back and its entry removed; no other entry changes |
| ChunkCache.Cache.EvictChunk | src/eviction/chunk.c:178-195 | evicts the oldest chunk from queue, pool, heap and map together, unless there is none or its identifier is at least 2^31 |
| ChunkCache.Cache.EvictMany | src/eviction/chunk.c:178-198 | takes exactly the chunks used longest ago, in order, or stops at the first one that is missing or has an identifier of at least 2^31, and says which of the two |
| ChunkCache.Cache.NumberToEvict | src/eviction/chunk.c:155-173 | positive exactly when some chunk is in use and few are free, and then the number that leaves 12 free; the queue has as many if and only if the disk has at least 12 |
| ChunkCache.Cache.EvictLeastUsed | src/eviction/chunk.c:148-198 | leaves exactly 12 chunks free if it evicts, and the dead zones are those that had no other chunk in use than the evicted ones; says exactly when it declines and which fault it ends with |
| ChunkCache.Cache.ReclaimOne | src/eviction/chunk.c:90-144 | the victim has fewest chunks in use; a dead one is freed if and only if it is full and the device resets it; with a live one only the heap has changed; an empty heap is reported exactly when there is no zone in it |
| ChunkCache.Cache.Gc | src/eviction/chunk.c:79-146 | does nothing with more than two free zones, and otherwise ends with exactly four; if the dead zones can be freed, it comes to an empty heap or to a live victim if and only if there are too few of them, and which of the two is decided by the zones in the heap; resets only dead zones, no mapped one |
| ChunkCache.Cache.Evict | src/eviction/chunk.c:148-218 | comes to what `ChunkMiss.OutcomeOf` computes from the state before: declined, evicted, a fault and which one, or the moving of chunks, unless a dead zone cannot be freed; when it evicts, the queue, the history, the map and the zone states are those without the chunks used longest ago and with the dead zones freed |
| ChunkCache.Cache.Allocate | src/cache.c:85-101 | the retry loop evicts if and only if no zone is active or free, and goes on within two turns or not at all; it hands out what the zone state manager hands out after freeing the victims, which are dead zones, four of them, or none when there was room |
| ChunkCache.Cache.Get | src/cache.c:47-149 | hit and miss in full, from every state between two requests. Afterwards: the queue, which is the old one without the chunks used longest ago and with the filled chunk at its end; the history, which is the old one, their evictions and the fill; the zone states, which are those of freeing the victims, allocating the place and handing it back; the victims, four dead zones or none when there was room; what is mapped. Exactly when the request never ends and which fault it ends with, unless a dead zone cannot be freed |
| ChunkRuns.FillOneZone | src/eviction/chunk.c:148-218 | on one zone of n chunks, after identifiers 1 to n any other one follows a null pointer if n is below 12 (no chunk to evict) or 12 (no zone to reclaim), and otherwise fails an assertion because there is no place to move a chunk to |
| ChunkRuns.FillTwoZones | src/eviction/chunk.c:98-122 | on two zones of 12 chunks, after identifiers 1 to 24 any other one reclaims the first zone and comes to the live chunks of the second: 0 goes on to publish them as chunks of 0, any other fails an assertion |
| ChunkRuns.StarveOneChunkZones | src/eviction/chunk.c:155-161 | on at least 12 zones of one chunk each, after four more requests than zones the next one is never answered |

## Left out

- Cache.PromotionalCache.Get: one request at a time; requests that wait for each other are runs of `Protocol`.
- Cache.PromotionalCache.EvictOne: requires that no thread reads, as is the case between the steps of the one request, so that the wait for readers ends at once; `Protocol.PassDrain` models the wait.
- Cache.PromotionalCache.FgEvict: the same; nothing is said of the state in which an assertion failed.
- Disk.WriteOut: each write of a block reaches the disk as a whole or fails; short writes, after which the loop would continue in the middle of a block, are not modelled.
- CacheMap.Map.FindTurn: one turn of the loop; sleeping and waking up are the steps `SpuriousWake` and `Recheck` of `Protocol`.
- FineRuns.NoZoneLost: assumes that zone commands succeed; a failed open or finish does lose the zone, exactly as `FineRuns.FailuresExactly` says.
- Transparency.HitsReturnLastGenerated: for runs that publish intact chunks only, because it is false otherwise (`SplitTail.StaleHit`); so are the other theorems about an `IntactRun`.
- ChunkCache.Cache.Get: says which chunk a request gets, not which bytes; the path of the bytes is that of the promotional policy. When some dead zone cannot be freed, whether the collection comes across it depends on the order of equal priorities in the heap, so only the other case has an exact condition; nothing is said of the state after a fault.
- ChunkCache.Cache.ReclaimOne: stops at a victim with live chunks; nothing is said of the state in which an assertion failed.
- ChunkCache.Cache.Gc: the same; the program follows the null entry of an empty heap, which is the end of the model too.
- ChunkCache.Cache.Evict: a victim with live chunks ends it, with the assertion that fails, or, while identifier 0 is being filled and a zone is left, with the outcome `Moves`, beyond which nothing is modelled; in particular not the commands of the device by which chunks are moved, each of which fails an assertion if it fails.
- Moving live chunks during garbage collection (src/eviction/chunk.c:98-140), which is unfinished: it publishes under identifier 0 and never hands back the new zone. What is proved is exactly when a miss comes to it, that it fails an assertion unless a zone is left and identifier 0 is being filled, and what is then left for the request that fills 0.
- Reader safety under the chunk policy: it does not wait for readers before a reset.
- The `invalid` queues of the zone state manager; nothing relies on them.
- How many zones an eviction takes in a concurrent run: an evictor of `Protocol` may take any number, which includes what the loop does.
- libzbd, sleeping and memory allocation; the queues, tables and condition variables of glib, which are sequences, maps and sets of sleepers here.
- Profiling, hit ratios, printing, `main`, option parsing, workload files, and the Python and shell scripts, which measure, report and set up runs of the cache.
- `ZN_EVICT_ZONE`, `zsm_get_active_zone_batch` and the hash of pairs, which are not implemented or not compiled.
